/**
 Publishing captures the live configuration in a snapshot; rolling back applies it again.
 Whatever happened to the tables in between, the live configuration read by name is the
 captured one. Primary keys may differ.
 */
module ConfigRoundTrip {
  import opened Common
  import opened ConfigTables

  // ---------- reading the tables ----------

  function RouteDtoOf(id: Id, row: Route): RouteDto {
    RouteDto(id, row.name, ProtocolOf(row.protocol), row.conditions, row.priority, row.upstreamId, row.hostHeader,
             row.allowRetryNonIdempotent, row.wsStripSensitiveHeaders, row.enabled)
  }

  ghost predicate EnabledRoute(db: Db, id: Id) { ActiveRoute(db, id) && db.routes[id].enabled }

  ghost predicate EnabledBinding(db: Db, k: Id) { ActiveBinding(db, k) && db.bindings[k].enabled }

  /** The snapshot that publishing builds: enabled live routes, all live upstreams with their nodes,
      and the enabled live bindings of those routes. */
  ghost predicate Captures(db: Db, s: Snapshot) {
    && CapturesRoutes(db, s.routes) && CapturesUpstreams(db, s.upstreams) && CapturesBindings(db, s.bindings)
  }

  ghost predicate CapturesRoutes(db: Db, routes: seq<RouteDto>) {
    && (forall i :: 0 <= i < |routes| ==>
          EnabledRoute(db, routes[i].id) && routes[i] == RouteDtoOf(routes[i].id, db.routes[routes[i].id]))
    && (forall i, j :: 0 <= i < j < |routes| ==> routes[i].id != routes[j].id)
    && (forall id :: EnabledRoute(db, id) ==> RouteDtoOf(id, db.routes[id]) in routes)
  }

  ghost predicate CapturesUpstream(db: Db, u: UpstreamDto) {
    && ActiveUpstream(db, u.id)
    && u.name == db.upstreams[u.id].name && u.algorithm == AlgorithmOf(db.upstreams[u.id].algorithm)
    && u.retryEnabled == db.upstreams[u.id].retryEnabled && HasNodes(db, u.id, u.nodes)
  }

  ghost predicate CapturesUpstreams(db: Db, ups: seq<UpstreamDto>) {
    && (forall i :: 0 <= i < |ups| ==> CapturesUpstream(db, ups[i]))
    && (forall i, j :: 0 <= i < j < |ups| ==> ups[i].id != ups[j].id)
    && (forall id :: ActiveUpstream(db, id) ==> exists u :: u in ups && u.id == id)
  }

  function BindingDtoOf(row: Binding): BindingDto {
    BindingDto(row.routeId, row.plugin, row.config, row.order, row.blocking, row.enabled)
  }

  ghost predicate CapturesBindings(db: Db, bs: seq<BindingDto>) {
    && (forall i :: 0 <= i < |bs| ==> EnabledRoute(db, bs[i].routeId) && HasDto(db, bs[i]))
    && (forall i, j :: 0 <= i < j < |bs| ==> bs[i].routeId != bs[j].routeId || bs[i].plugin != bs[j].plugin)
    && (forall k :: EnabledBinding(db, k) && EnabledRoute(db, db.bindings[k].routeId) ==>
          BindingDtoOf(db.bindings[k]) in bs)
  }

  ghost predicate HasDto(db: Db, b: BindingDto) {
    exists k :: EnabledBinding(db, k) && BindingDtoOf(db.bindings[k]) == b
  }

  ghost predicate Dangles(db: Db, id: Id) {
    EnabledRoute(db, id) && db.routes[id].upstreamId.Some? && !ActiveUpstream(db, db.routes[id].upstreamId.value)
  }

  /** Enabled routes point at live upstreams. A rollback can leave a disabled route without one. */
  ghost predicate ReferencesLive(db: Db) { forall id :: !Dangles(db, id) }

  /** What publishing captures can always be applied again. */
  lemma CapturedIsApplicable(db: Db, s: Snapshot)
    requires Consistent(db) && Captures(db, s)
    ensures Applicable(s)
  {
    forall i, j | 0 <= i < j < |s.upstreams| ensures s.upstreams[i].name != s.upstreams[j].name {
      assert CapturesUpstream(db, s.upstreams[i]) && CapturesUpstream(db, s.upstreams[j]);
    }
    forall b | b in s.bindings ensures exists r :: r in s.routes && r.id == b.routeId {
      assert RouteDtoOf(b.routeId, db.routes[b.routeId]) in s.routes;
    }
  }

  lemma ListedIffLive(db: Db, s: Snapshot, id: Id)
    requires CapturesUpstreams(db, s.upstreams)
    ensures ListsUpstream(s, id) <==> ActiveUpstream(db, id)
  {
    if ListsUpstream(s, id) {
      var u :| u in s.upstreams && u.id == id;
      assert CapturesUpstream(db, u);
    }
  }

  /** It holds all the upstreams its routes refer to exactly when no enabled route dangles. */
  lemma CapturedIsSelfContainedIff(db: Db, s: Snapshot)
    requires Consistent(db) && Captures(db, s)
    ensures SelfContained(s) <==> ReferencesLive(db)
  {
    CapturedIsApplicable(db, s);
    forall id ensures ListsUpstream(s, id) <==> ActiveUpstream(db, id) { ListedIffLive(db, s, id); }
    if SelfContained(s) {
      forall id ensures !Dangles(db, id) {
        if EnabledRoute(db, id) { assert RouteDtoOf(id, db.routes[id]) in s.routes; }
      }
    }
    if ReferencesLive(db) {
      forall r | r in s.routes && r.upstreamId.Some? ensures ListsUpstream(s, r.upstreamId.value) {
        assert !Dangles(db, r.id);
      }
    }
  }

  // ---------- the configuration by name ----------

  datatype RouteView = RouteView(
    protocol: Protocol, conditions: Json, priority: int, upstream: Option<string>, hostHeader: Option<string>,
    allowRetryNonIdempotent: bool, wsStripSensitiveHeaders: bool)

  ghost predicate UpstreamNamed(db: Db, ref: Option<Id>, name: Option<string>) {
    match ref
    case None => name == None
    case Some(a) => name.Some? && NamedUpstream(db, a, name.value)
  }

  ghost predicate ViewsRoute(db: Db, id: Id, name: string, v: RouteView) {
    && EnabledRoute(db, id) && db.routes[id].name == name
    && UpstreamNamed(db, db.routes[id].upstreamId, v.upstream)
    && v == ViewOf(db.routes[id], v.upstream)
  }

  ghost predicate HasRoute(db: Db, name: string, v: RouteView) { exists id :: ViewsRoute(db, id, name, v) }

  ghost predicate ViewsUpstream(db: Db, id: Id, name: string, a: Algorithm, e: bool) {
    NamedUpstream(db, id, name) && AlgorithmOf(db.upstreams[id].algorithm) == a && db.upstreams[id].retryEnabled == e
  }

  ghost predicate HasUpstream(db: Db, name: string, algorithm: Algorithm, retryEnabled: bool) {
    exists id :: ViewsUpstream(db, id, name, algorithm, retryEnabled)
  }

  ghost predicate BindsOn(db: Db, k: Id, id: Id, route: string, b: BindingDto) {
    && EnabledBinding(db, k) && EnabledRoute(db, id) && db.routes[id].name == route && db.bindings[k].routeId == id
    && BindingDtoOf(db.bindings[k]) == b.(routeId := id)
  }

  /** An enabled route named `route` carries the enabled binding `b`, whose key field is not looked at. */
  ghost predicate HasBinding(db: Db, route: string, b: BindingDto) { exists k, id :: BindsOn(db, k, id, route, b) }

  ghost predicate SameConfiguration(x: Db, y: Db) {
    && (forall name, v :: HasRoute(x, name, v) <==> HasRoute(y, name, v))
    && (forall name, a, e :: HasUpstream(x, name, a, e) <==> HasUpstream(y, name, a, e))
    && (forall route, b :: HasBinding(x, route, b) <==> HasBinding(y, route, b))
  }

  /** The round trip: capture `published`, apply it to any consistent `before`, and read the same configuration,
      exactly when no enabled route of `published` pointed at a dead upstream. */
  lemma RollbackRoundTripIff(published: Db, s: Snapshot, before: Db, after: Db)
    requires Consistent(published) && Captures(published, s) && Restored(before, s, after)
    ensures SameConfiguration(published, after) <==> ReferencesLive(published)
  {
    if ReferencesLive(published) {
      RollbackRoundTrip(published, s, before, after);
    } else {
      var id :| Dangles(published, id);
      DanglingDiffers(published, s, after, id);
    }
  }

  lemma RollbackRoundTrip(published: Db, s: Snapshot, before: Db, after: Db)
    requires Consistent(published) && ReferencesLive(published) && Captures(published, s)
    requires Restored(before, s, after)
    ensures SameConfiguration(published, after)
  {
    forall name, v ensures HasRoute(published, name, v) <==> HasRoute(after, name, v) {
      if HasRoute(published, name, v) { RouteForward(published, s, after, name, v); }
      if HasRoute(after, name, v) { RouteBackward(published, s, after, name, v); }
    }
    forall name, a, e ensures HasUpstream(published, name, a, e) <==> HasUpstream(after, name, a, e) {
      if HasUpstream(published, name, a, e) { UpstreamForward(published, s, after, name, a, e); }
      if HasUpstream(after, name, a, e) { UpstreamBackward(published, s, after, name, a, e); }
    }
    forall route, b ensures HasBinding(published, route, b) <==> HasBinding(after, route, b) {
      if HasBinding(published, route, b) { BindingForward(published, s, after, route, b); }
      if HasBinding(after, route, b) { BindingBackward(published, s, after, route, b); }
    }
  }

  /** A route that pointed at a dead upstream comes back pointing at none. */
  lemma DanglingLosesUpstream(published: Db, s: Snapshot, after: Db, id: Id) returns (k: Id)
    requires CapturesRoutes(published, s.routes) && CapturesUpstreams(published, s.upstreams)
    requires RoutesRestored(s, after)
    requires Dangles(published, id)
    ensures EnabledRoute(after, k) && after.routes[k].name == published.routes[id].name
    ensures after.routes[k].upstreamId == None
  {
    var r := RouteDtoOf(id, published.routes[id]);
    assert r in s.routes;
    ListedIffLive(published, s, published.routes[id].upstreamId.value);
    k :| HoldsRoute(after, k, s, r);
  }

  lemma DanglingDiffers(published: Db, s: Snapshot, after: Db, id: Id)
    requires CapturesRoutes(published, s.routes) && CapturesUpstreams(published, s.upstreams)
    requires UniqueRouteNames(published)
    requires RoutesRestored(s, after) && Dangles(published, id)
    ensures !SameConfiguration(published, after)
  {
    var k := DanglingLosesUpstream(published, s, after, id);
    var name, v := after.routes[k].name, ViewOf(after.routes[k], None);
    assert ViewsRoute(after, k, name, v);
    assert HasRoute(after, name, v);
    NoViewOfDangling(published, id, v);
  }

  /** By itself a route that points at a dead upstream has no view, and no other live route has its name. */
  lemma NoViewOfDangling(published: Db, id: Id, v: RouteView)
    requires UniqueRouteNames(published) && Dangles(published, id)
    ensures !HasRoute(published, published.routes[id].name, v)
  {
  }

  function ViewOf(row: Route, upstream: Option<string>): RouteView {
    RouteView(ProtocolOf(row.protocol), row.conditions, row.priority, upstream, row.hostHeader,
              row.allowRetryNonIdempotent, row.wsStripSensitiveHeaders)
  }

  /** The captured row and the row that holds its snapshot show the same view. */
  lemma SameRouteView(published: Db, s: Snapshot, after: Db, id: Id, k: Id, name: string, v: RouteView)
    requires EnabledRoute(published, id) && HoldsRoute(after, k, s, RouteDtoOf(id, published.routes[id]))
    requires forall u :: u in s.upstreams ==> NamedUpstream(published, u.id, u.name)
    requires published.routes[id].upstreamId.Some? ==> ListsUpstream(s, published.routes[id].upstreamId.value)
    ensures ViewsRoute(published, id, name, v) <==> ViewsRoute(after, k, name, v)
  {
    ProtocolsRoundTrip();
    var row, row' := published.routes[id], after.routes[k];
    if row.upstreamId.Some? {
      assert PointsAt(after, row'.upstreamId, s, row.upstreamId.value);
      var u, a :| u in s.upstreams && u.id == row.upstreamId.value && row'.upstreamId == Some(a)
                  && ActiveUpstream(after, a) && after.upstreams[a].name == u.name;
      assert NamedUpstream(published, u.id, u.name) && NamedUpstream(after, a, u.name);
    }
    assert UpstreamNamed(published, row.upstreamId, v.upstream) <==> UpstreamNamed(after, row'.upstreamId, v.upstream);
  }

  lemma ProtocolsRoundTrip()
    ensures forall p :: ProtocolOf(ProtocolCode(p)) == p
    ensures forall a :: AlgorithmOf(AlgorithmCode(a)) == a
  {
  }

  lemma CapturedNames(published: Db, ups: seq<UpstreamDto>)
    requires CapturesUpstreams(published, ups)
    ensures forall u :: u in ups ==> NamedUpstream(published, u.id, u.name)
  {
    forall u | u in ups ensures NamedUpstream(published, u.id, u.name) {
      assert CapturesUpstream(published, u);
    }
  }

  lemma ListedIfSome(published: Db, s: Snapshot, id: Id)
    requires CapturesUpstreams(published, s.upstreams) && EnabledRoute(published, id) && !Dangles(published, id)
    ensures published.routes[id].upstreamId.Some? ==> ListsUpstream(s, published.routes[id].upstreamId.value)
  {
    if published.routes[id].upstreamId.Some? { ListedIffLive(published, s, published.routes[id].upstreamId.value); }
  }

  lemma RouteForward(published: Db, s: Snapshot, after: Db, name: string, v: RouteView)
    requires ReferencesLive(published)
    requires CapturesRoutes(published, s.routes) && CapturesUpstreams(published, s.upstreams)
    requires RoutesRestored(s, after) && HasRoute(published, name, v)
    ensures HasRoute(after, name, v)
  {
    CapturedNames(published, s.upstreams);
    var id :| ViewsRoute(published, id, name, v);
    assert !Dangles(published, id);
    ListedIfSome(published, s, id);
    var k :| HoldsRoute(after, k, s, RouteDtoOf(id, published.routes[id]));
    SameRouteView(published, s, after, id, k, name, v);
  }

  lemma RouteBackward(published: Db, s: Snapshot, after: Db, name: string, v: RouteView)
    requires ReferencesLive(published)
    requires CapturesRoutes(published, s.routes) && CapturesUpstreams(published, s.upstreams)
    requires RoutesRestored(s, after) && HasRoute(after, name, v)
    ensures HasRoute(published, name, v)
  {
    CapturedNames(published, s.upstreams);
    var k :| ViewsRoute(after, k, name, v);
    var r :| r in s.routes && r.enabled && HoldsRoute(after, k, s, r);
    assert !Dangles(published, r.id);
    ListedIfSome(published, s, r.id);
    SameRouteView(published, s, after, r.id, k, name, v);
  }

  lemma UpstreamForward(published: Db, s: Snapshot, after: Db, name: string, a: Algorithm, e: bool)
    requires CapturesUpstreams(published, s.upstreams) && UpstreamsRestored(s, after)
    requires HasUpstream(published, name, a, e)
    ensures HasUpstream(after, name, a, e)
  {
    ProtocolsRoundTrip();
    var id :| ViewsUpstream(published, id, name, a, e);
    var u :| u in s.upstreams && u.id == id;
    assert CapturesUpstream(published, u);
    var k :| k in after.upstreams && after.upstreams[k] == UpstreamRow(u);
    assert ViewsUpstream(after, k, name, a, e);
  }

  lemma UpstreamBackward(published: Db, s: Snapshot, after: Db, name: string, a: Algorithm, e: bool)
    requires CapturesUpstreams(published, s.upstreams) && UpstreamsRestored(s, after)
    requires HasUpstream(after, name, a, e)
    ensures HasUpstream(published, name, a, e)
  {
    ProtocolsRoundTrip();
    var k :| ViewsUpstream(after, k, name, a, e);
    var u :| u in s.upstreams && after.upstreams[k] == UpstreamRow(u);
    assert CapturesUpstream(published, u);
    assert ViewsUpstream(published, u.id, name, a, e);
  }

  lemma BindingForward(published: Db, s: Snapshot, after: Db, route: string, b: BindingDto)
    requires CapturesRoutes(published, s.routes) && CapturesBindings(published, s.bindings)
    requires RoutesRestored(s, after) && BindingsRestored(s, after) && HasBinding(published, route, b)
    ensures HasBinding(after, route, b)
  {
    var k, id :| BindsOn(published, k, id, route, b);
    var r, d := RouteDtoOf(id, published.routes[id]), b.(routeId := id);
    assert r in s.routes && d in s.bindings;
    var id' :| HoldsRoute(after, id', s, r);
    BindingHeld(s, after, r, id', d, route, b);
  }

  lemma BindingHeld(s: Snapshot, after: Db, r: RouteDto, id: Id, d: BindingDto, route: string, b: BindingDto)
    requires BindingsOfRoute(s, after, r, id) && r.enabled && r.name == route && HoldsRoute(after, id, s, r)
    requires d in s.bindings && d == b.(routeId := r.id) && d.enabled
    ensures HasBinding(after, route, b)
  {
    var k :| k in after.bindings && after.bindings[k] == BindingRow(d, id);
    assert BindsOn(after, k, id, route, b);
  }

  /** The snapshot binding behind a binding that was read after the rollback. */
  lemma BindingListed(s: Snapshot, after: Db, k: Id, id: Id, route: string, b: BindingDto)
    returns (r: RouteDto, d: BindingDto)
    requires RoutesRestored(s, after) && BindingsRestored(s, after) && BindsOn(after, k, id, route, b)
    ensures r in s.routes && r.name == route && d in s.bindings && d == b.(routeId := r.id) && d.enabled
  {
    r :| r in s.routes && r.enabled && HoldsRoute(after, id, s, r);
    assert BindingsOfRoute(s, after, r, id);
    d :| d in s.bindings && d.routeId == r.id && after.bindings[k] == BindingRow(d, id);
  }

  /** The published binding behind a snapshot binding. */
  lemma BindingCaptured(published: Db, s: Snapshot, r: RouteDto, d: BindingDto, route: string, b: BindingDto)
    requires CapturesRoutes(published, s.routes) && CapturesBindings(published, s.bindings)
    requires r in s.routes && r.name == route && d in s.bindings && d == b.(routeId := r.id)
    ensures HasBinding(published, route, b)
  {
    assert HasDto(published, d);
    var k :| EnabledBinding(published, k) && BindingDtoOf(published.bindings[k]) == d;
    assert BindsOn(published, k, r.id, route, b);
  }

  lemma BindingBackward(published: Db, s: Snapshot, after: Db, route: string, b: BindingDto)
    requires CapturesRoutes(published, s.routes) && CapturesBindings(published, s.bindings)
    requires RoutesRestored(s, after) && BindingsRestored(s, after) && HasBinding(after, route, b)
    ensures HasBinding(published, route, b)
  {
    var k, id :| BindsOn(after, k, id, route, b);
    var r, d := BindingListed(s, after, k, id, route, b);
    BindingCaptured(published, s, r, d, route, b);
  }

  // ---------- disabled bindings: not always ----------

  ghost predicate LiesOn(db: Db, k: Id, id: Id, route: string, b: BindingDto) {
    && ActiveBinding(db, k) && EnabledRoute(db, id) && db.routes[id].name == route && db.bindings[k].routeId == id
    && BindingDtoOf(db.bindings[k]) == b.(routeId := id)
  }

  /** An enabled route named `route` carries the live binding `b`, enabled or not. */
  ghost predicate HasLive(db: Db, route: string, b: BindingDto) { exists k, id :: LiesOn(db, k, id, route, b) }

  ghost predicate SameLiveBindings(x: Db, y: Db) {
    forall route, b :: HasLive(x, route, b) <==> HasLive(y, route, b)
  }

  /** A live binding on an enabled route is switched off. */
  ghost predicate Parked(db: Db, k: Id) {
    ActiveBinding(db, k) && EnabledRoute(db, db.bindings[k].routeId) && !db.bindings[k].enabled
  }

  ghost predicate NoneParked(db: Db) { forall k :: !Parked(db, k) }

  lemma LiveIsEnabled(db: Db, route: string, b: BindingDto)
    ensures HasBinding(db, route, b) <==> HasLive(db, route, b) && b.enabled
  {
    if HasBinding(db, route, b) {
      var k, id :| BindsOn(db, k, id, route, b);
      assert LiesOn(db, k, id, route, b);
    }
    if HasLive(db, route, b) && b.enabled {
      var k, id :| LiesOn(db, k, id, route, b);
      assert BindsOn(db, k, id, route, b);
    }
  }

  /** What comes back is what was captured, and only enabled bindings were. */
  lemma RestoredIsEnabled(published: Db, s: Snapshot, after: Db, route: string, b: BindingDto)
    requires CapturesBindings(published, s.bindings) && RoutesRestored(s, after) && BindingsRestored(s, after)
    requires HasLive(after, route, b)
    ensures b.enabled
  {
    var k, id :| LiesOn(after, k, id, route, b);
    var r :| r in s.routes && r.enabled && HoldsRoute(after, id, s, r);
    assert BindingsOfRoute(s, after, r, id);
    var d :| d in s.bindings && d.routeId == r.id && after.bindings[k] == BindingRow(d, id);
    assert HasDto(published, d);
  }

  lemma ParkedIsLost(published: Db, s: Snapshot, after: Db, k: Id)
    requires CapturesBindings(published, s.bindings) && RoutesRestored(s, after) && BindingsRestored(s, after)
    requires Parked(published, k)
    ensures !SameLiveBindings(published, after)
  {
    var row := published.bindings[k];
    var route, b := published.routes[row.routeId].name, BindingDtoOf(row);
    assert LiesOn(published, k, row.routeId, route, b);
    if HasLive(after, route, b) { RestoredIsEnabled(published, s, after, route, b); }
  }

  lemma LiveUnparked(db: Db, route: string, b: BindingDto)
    requires NoneParked(db) && HasLive(db, route, b)
    ensures b.enabled
  {
    var k, id :| LiesOn(db, k, id, route, b);
    assert !Parked(db, k);
  }

  /** The live bindings, with the switch they carry, come back if and only if none was switched off. */
  lemma LiveBindingsIff(published: Db, s: Snapshot, before: Db, after: Db)
    requires Consistent(published) && Captures(published, s) && Restored(before, s, after)
    ensures SameLiveBindings(published, after) <==> NoneParked(published)
  {
    if NoneParked(published) {
      forall route, b ensures HasLive(published, route, b) <==> HasLive(after, route, b) {
        LiveIsEnabled(published, route, b);
        LiveIsEnabled(after, route, b);
        if HasLive(published, route, b) {
          LiveUnparked(published, route, b);
          BindingForward(published, s, after, route, b);
        }
        if HasLive(after, route, b) {
          RestoredIsEnabled(published, s, after, route, b);
          BindingBackward(published, s, after, route, b);
        }
      }
    } else {
      var k :| Parked(published, k);
      ParkedIsLost(published, s, after, k);
    }
  }

  // ---------- nodes: not always ----------

  /** The nodes of an upstream come back exactly when the upstream was still live before the rollback
      (or had no nodes): the branch that re-creates an upstream inserts none. */
  lemma NodesComeBackIff(published: Db, s: Snapshot, before: Db, after: Db, a: Id, id: Id, nodes: seq<NodeDto>)
    requires CapturesUpstreams(published, s.upstreams) && NodesRestored(before, s, after)
    requires ActiveUpstream(published, a) && NamedUpstream(after, id, published.upstreams[a].name)
    requires HasNodes(published, a, nodes)
    ensures HasNodes(after, id, nodes) <==>
              (nodes == [] || exists k :: NamedUpstream(before, k, published.upstreams[a].name))
  {
    var u :| u in s.upstreams && u.id == a;
    assert CapturesUpstream(published, u);
    assert NodesOutcome(before, u, after, id);
    if exists k :: NamedUpstream(before, k, published.upstreams[a].name) {
      InAnotherOrder(published, a, u.nodes, nodes, after, id);
    } else {
      NoNodes(after, id, nodes);
    }
  }

  lemma NoNodes(db: Db, up: Id, nodes: seq<NodeDto>)
    requires NodesAre(db, up, [])
    ensures HasNodes(db, up, nodes) <==> nodes == []
  {
    var none :| NodesListed(db, up, [], none);
    if HasNodes(db, up, nodes) {
      var ids :| NodesHeld(db, up, nodes, ids);
      if ids != [] { assert ActiveNode(db, ids[0]); }
    } else {
      assert NodesHeld(db, up, [], none);
    }
  }

  /** Two answers about one upstream; a table with the nodes of the one can answer with the other. */
  lemma InAnotherOrder(db: Db, up: Id, x: seq<NodeDto>, y: seq<NodeDto>, db': Db, up': Id)
    requires HasNodes(db, up, x) && HasNodes(db, up, y) && NodesAre(db', up', x)
    ensures HasNodes(db', up', y)
  {
    var xs :| NodesHeld(db, up, x, xs);
    var ys :| NodesHeld(db, up, y, ys);
    var zs :| NodesListed(db', up', x, zs);
    var at := Places(db, up, x, xs, y, ys);
    Rearranged(db, up, x, xs, y, ys, at, db', up', zs);
  }

  /** Where each entry of `ys` is in `xs`. */
  ghost predicate ArePlaces(xs: seq<Id>, ys: seq<Id>, at: seq<nat>) {
    |at| == |ys| && forall j :: 0 <= j < |at| ==> at[j] < |xs| && xs[at[j]] == ys[j]
  }

  lemma Places(db: Db, up: Id, x: seq<NodeDto>, xs: seq<Id>, y: seq<NodeDto>, ys: seq<Id>) returns (at: seq<nat>)
    requires NodesHeld(db, up, x, xs) && NodesHeld(db, up, y, ys)
    ensures ArePlaces(xs, ys, at)
  {
    at := [];
    for j := 0 to |ys|
      invariant ArePlaces(xs, ys[..j], at)
    {
      assert ActiveNode(db, ys[j]);
      var i :| 0 <= i < |xs| && xs[i] == ys[j];
      at := at + [i];
    }
    assert ys[..|ys|] == ys;
  }

  lemma Covered(db: Db, up: Id, x: seq<NodeDto>, xs: seq<Id>, y: seq<NodeDto>, ys: seq<Id>, at: seq<nat>, i: nat)
    returns (j: nat)
    requires NodesHeld(db, up, x, xs) && NodesHeld(db, up, y, ys) && ArePlaces(xs, ys, at) && i < |xs|
    ensures j < |at| && at[j] == i
  {
    assert ActiveNode(db, xs[i]);
    j :| 0 <= j < |ys| && ys[j] == xs[i];
  }

  lemma Rearranged(db: Db, up: Id, x: seq<NodeDto>, xs: seq<Id>, y: seq<NodeDto>, ys: seq<Id>, at: seq<nat>,
                   db': Db, up': Id, zs: seq<Id>)
    requires NodesHeld(db, up, x, xs) && NodesHeld(db, up, y, ys) && ArePlaces(xs, ys, at)
    requires NodesHeld(db', up', x, zs)
    ensures HasNodes(db', up', y)
  {
    var ws := seq(|at|, j requires 0 <= j < |at| => zs[at[j]]);
    forall j | 0 <= j < |ws| ensures y[j] == x[at[j]] { SameNode(db, up, x, xs, y, ys, at[j], j); }
    forall i, j | 0 <= i < j < |ws| ensures at[i] != at[j] { assert ys[i] != ys[j]; }
    forall i: nat | i < |x| ensures i in at {
      var j := Covered(db, up, x, xs, y, ys, at, i);
    }
    Moved(x, y, at, db', up', zs, ws);
  }

  lemma SameNode(db: Db, up: Id, x: seq<NodeDto>, xs: seq<Id>, y: seq<NodeDto>, ys: seq<Id>, i: nat, j: nat)
    requires NodesHeld(db, up, x, xs) && NodesHeld(db, up, y, ys) && i < |xs| && j < |ys| && xs[i] == ys[j]
    ensures x[i] == y[j]
  {
  }

  lemma Moved(x: seq<NodeDto>, y: seq<NodeDto>, at: seq<nat>, db: Db, up: Id, zs: seq<Id>, ws: seq<Id>)
    requires NodesHeld(db, up, x, zs) && |at| == |y| == |ws|
    requires forall j :: 0 <= j < |at| ==> at[j] < |x| && y[j] == x[at[j]] && ws[j] == zs[at[j]]
    requires forall i, j :: 0 <= i < j < |at| ==> at[i] != at[j]
    requires forall i: nat :: i < |x| ==> i in at
    ensures HasNodes(db, up, y)
  {
    forall id | ActiveNode(db, id) && db.nodes[id].upstreamId == up ensures id in ws {
      var i: nat :| i < |zs| && zs[i] == id;
      assert i in at;
      var j :| 0 <= j < |at| && at[j] == i;
      assert ws[j] == id;
    }
    assert NodesHeld(db, up, y, ws);
  }
}
