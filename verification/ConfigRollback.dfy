/**
 Applying a snapshot as one transaction, and the theorem that it restores the snapshot
 up to the renaming of primary keys.
 */
module ConfigRollback {
  import opened Common
  import opened ConfigTables
  import U = ConfigUpstreams
  import R = ConfigRoutes
  import B = ConfigBindings

  /** Every intermediate value of one application. */
  datatype Phases = Phases(
    upserted: Db, upIds: map<Id, Id>, pruned: Db, routed: Db, routeIds: map<Id, Id>, thinned: Db, gone: set<Id>,
    cleared: Db, bound: Db, listed: set<B.Key>, final: Db)

  ghost predicate Applied(db: Db, s: Snapshot, p: Phases) {
    && U.UpstreamsUpserted(db, s.upstreams, p.upserted, p.upIds)
    && U.UpstreamsPruned(p.upserted, U.NamesOf(s.upstreams), p.pruned)
    && R.RoutesUpserted(p.pruned, s.routes, s.upstreams, p.upIds, p.routed, p.routeIds)
    && R.RoutesPruned(p.routed, R.NamesOf(s.routes), p.thinned, p.gone)
    && B.BindingsDropped(p.thinned, p.gone, {}, p.cleared)
    && B.BindingsUpserted(p.cleared, s.bindings, p.routeIds, p.bound, p.listed)
    && B.BindingsDropped(p.bound, p.routeIds.Values, p.listed, p.final)
  }

  /** All five phases on the transaction's working copy; fails on a binding whose route the snapshot lacks. */
  method RunPhases(db: Db, s: Snapshot) returns (result: Result<Phases, string>)
    ensures result.Ok? <==> forall b :: b in s.bindings ==> b.routeId in R.RouteKeys(s.routes)
    ensures result.Ok? && Consistent(db) && Applicable(s) ==> Applied(db, s, result.value)
  {
    var upserted, upIds := U.UpsertUpstreams(db, s.upstreams);
    var pruned := U.PruneUpstreams(upserted, U.NamesOf(s.upstreams));
    var routed, routeIds := R.UpsertRoutes(pruned, s.routes, s.upstreams, upIds);
    var thinned, gone := R.PruneRoutes(routed, R.NamesOf(s.routes));
    var cleared := B.DropUnlisted(thinned, gone, {});
    if Consistent(db) && Applicable(s) {
      ReadyToBind(db, s, pruned, upIds, routed, routeIds, thinned, gone, cleared);
    }
    var bound := B.UpsertBindings(cleared, s.bindings, routeIds);
    if bound.Err? {
      return Err(bound.error);
    }
    var final := B.DropUnlisted(bound.value.0, routeIds.Values, bound.value.1);
    result := Ok(Phases(upserted, upIds, pruned, routed, routeIds, thinned, gone, cleared,
                        bound.value.0, bound.value.1, final));
  }

  lemma ReadyToBind(
    db: Db, s: Snapshot, pruned: Db, upIds: map<Id, Id>, routed: Db, routeIds: map<Id, Id>, thinned: Db, gone: set<Id>,
    cleared: Db)
    requires UniqueBindings(db) && DistinctRoutes(s.routes) && thinned.bindings == db.bindings
    requires R.RoutesUpserted(pruned, s.routes, s.upstreams, upIds, routed, routeIds)
    requires B.BindingsDropped(thinned, gone, {}, cleared)
    ensures UniqueBindings(cleared) && B.Injective(routeIds)
  {
    assert UniqueBindings(thinned);
    B.UniqueAfterDrop(thinned, gone, {}, cleared);
    R.IdsInjective(pruned, s.routes, s.upstreams, upIds, routed, routeIds);
  }

  method ApplySnapshot(db: Db, s: Snapshot) returns (result: Result<Db, string>)
    ensures result.Err? <==> exists b :: b in s.bindings && forall r :: r in s.routes ==> r.id != b.routeId
    ensures Consistent(db) && Applicable(s) ==>
              result.Ok? && Restored(db, s, result.value) && Consistent(result.value)
    ensures MayApply(db, s, if result.Ok? then Some(result.value) else None)
  {
    var run := RunPhases(db, s);
    MissingRoute(s);
    match run
    case Err(e) => result := Err(e);
    case Ok(p) =>
      if Consistent(db) && Applicable(s) {
        ApplyRestores(db, s, p);
      }
      result := Ok(p.final);
  }

  lemma MissingRoute(s: Snapshot)
    ensures (forall b :: b in s.bindings ==> b.routeId in R.RouteKeys(s.routes))
            <==> !exists b :: b in s.bindings && forall r :: r in s.routes ==> r.id != b.routeId
  {
  }

  // ---------- the theorem ----------

  lemma ApplyRestores(db: Db, s: Snapshot, p: Phases)
    requires Consistent(db) && Applicable(s) && Applied(db, s, p)
    ensures Restored(db, s, p.final) && Consistent(p.final)
  {
    TablesComeBack(db, s, p);
    BindingsComeBack(db, s, p);
    DisabledStay(db, s, p);
    StaysConsistent(db, s, p);
    AllAccounted(db, s, p);
  }

  lemma TablesComeBack(db: Db, s: Snapshot, p: Phases)
    requires Consistent(db) && Applicable(s) && Applied(db, s, p)
    ensures UpstreamsRestored(s, p.final) && NodesRestored(db, s, p.final) && RoutesRestored(s, p.final)
  {
    UpstreamsComeBack(db, s, p);
    NodesComeBack(db, s, p);
    PlacedUpstreamsLive(db, s, p);
    assert UniqueRouteNames(p.pruned) by { assert p.pruned.routes == db.routes; }
    RoutesComeBack(s, p);
  }

  lemma UpstreamsComeBack(db: Db, s: Snapshot, p: Phases)
    requires Consistent(db) && Applicable(s) && Applied(db, s, p)
    ensures UpstreamsRestored(s, p.final)
  {
    forall u | u in s.upstreams
      ensures exists id :: id in p.final.upstreams && p.final.upstreams[id] == UpstreamRow(u)
    {
      U.PlacedIsLive(db, s.upstreams, p.upserted, p.upIds, p.pruned, u);
    }
    forall id | ActiveUpstream(p.final, id)
      ensures exists u :: u in s.upstreams && p.final.upstreams[id] == UpstreamRow(u)
    {
      assert ActiveUpstream(p.pruned, id);
      U.LiveIsPlaced(db, s.upstreams, p.upserted, p.upIds, p.pruned, id);
    }
  }

  lemma NodesComeBack(db: Db, s: Snapshot, p: Phases)
    requires Consistent(db) && Applicable(s) && Applied(db, s, p)
    ensures NodesRestored(db, s, p.final)
  {
    forall u, id | u in s.upstreams && NamedUpstream(p.final, id, u.name) ensures NodesOutcome(db, u, p.final, id) {
      assert NamedUpstream(p.pruned, id, u.name);
      U.NodesComeBack(db, s.upstreams, p.upserted, p.upIds, p.pruned, u, id);
      SameNodes(p.pruned, p.final, id);
    }
  }

  lemma SameNodes(x: Db, y: Db, id: Id)
    requires x.nodes == y.nodes
    ensures forall nodes :: NodesAre(x, id, nodes) ==> NodesAre(y, id, nodes)
  {
    forall nodes | NodesAre(x, id, nodes) ensures NodesAre(y, id, nodes) {
      var ids :| NodesListed(x, id, nodes, ids);
      assert NodesListed(y, id, nodes, ids);
    }
  }

  lemma PlacedRouteHolds(s: Snapshot, upIds: map<Id, Id>, db: Db, id: Id, r: RouteDto)
    requires r in s.routes && U.UpstreamKeys(s.upstreams) <= upIds.Keys
    requires id in db.routes && db.routes[id] == RouteRow(r, R.ResolveUpstream(s.upstreams, upIds, r.upstreamId))
    requires forall u :: u in s.upstreams ==> NamedUpstream(db, upIds[u.id], u.name)
    ensures HoldsRoute(db, id, s, r)
  {
    if r.upstreamId.Some? && ListsUpstream(s, r.upstreamId.value) {
      var u :| u in s.upstreams && u.id == r.upstreamId.value;
      assert db.routes[id].upstreamId == Some(upIds[u.id]) && NamedUpstream(db, upIds[u.id], u.name);
    }
  }

  lemma PlacedUpstreamsLive(db: Db, s: Snapshot, p: Phases)
    requires U.UpstreamsUpserted(db, s.upstreams, p.upserted, p.upIds)
    requires U.UpstreamsPruned(p.upserted, U.NamesOf(s.upstreams), p.pruned) && p.final.upstreams == p.pruned.upstreams
    ensures forall u :: u in s.upstreams ==> NamedUpstream(p.final, p.upIds[u.id], u.name)
  {
    forall u | u in s.upstreams ensures NamedUpstream(p.final, p.upIds[u.id], u.name) {
      U.PlacedIsLive(db, s.upstreams, p.upserted, p.upIds, p.pruned, u);
    }
  }

  ghost predicate RoutesApplied(s: Snapshot, p: Phases) {
    && R.RoutesUpserted(p.pruned, s.routes, s.upstreams, p.upIds, p.routed, p.routeIds)
    && R.RoutesPruned(p.routed, R.NamesOf(s.routes), p.thinned, p.gone)
    && p.final.routes == p.thinned.routes
  }

  lemma HolderIsPlaced(s: Snapshot, p: Phases, id: Id, r: RouteDto)
    requires UniqueRouteNames(p.pruned) && DistinctRoutes(s.routes) && RoutesApplied(s, p)
    requires r in s.routes && R.NamedRoute(p.final, id, r.name)
    ensures id == p.routeIds[r.id]
  {
    assert R.NamedRoute(p.routed, id, r.name);
    R.NamedIsPlaced(p.pruned, s.routes, s.upstreams, p.upIds, p.routed, p.routeIds, id, r);
  }

  lemma RoutesComeBack(s: Snapshot, p: Phases)
    requires UniqueRouteNames(p.pruned) && Applicable(s) && RoutesApplied(s, p)
    requires U.UpstreamKeys(s.upstreams) <= p.upIds.Keys
    requires forall u :: u in s.upstreams ==> NamedUpstream(p.final, p.upIds[u.id], u.name)
    ensures RoutesRestored(s, p.final)
  {
    forall r | r in s.routes ensures HoldsRoute(p.final, p.routeIds[r.id], s, r) {
      R.PlacedSurvives(p.pruned, s.routes, s.upstreams, p.upIds, p.routed, p.routeIds, p.thinned, p.gone, r);
      PlacedRouteHolds(s, p.upIds, p.final, p.routeIds[r.id], r);
    }
    forall id | ActiveRoute(p.final, id) && p.final.routes[id].enabled
      ensures exists r :: r in s.routes && r.enabled && HoldsRoute(p.final, id, s, r)
    {
      R.LiveIsNamed(p.routed, s.routes, p.thinned, p.gone, id);
      var r :| r in s.routes && R.NamedRoute(p.routed, id, r.name);
      HolderIsPlaced(s, p, id, r);
    }
  }

  lemma DisabledStay(db: Db, s: Snapshot, p: Phases)
    requires Applied(db, s, p)
    ensures DisabledRoutesKept(db, s, p.final)
  {
    forall id | ActiveRoute(db, id) && !db.routes[id].enabled && !NamesRoute(s, db.routes[id].name)
      ensures id in p.final.routes && p.final.routes[id] == db.routes[id]
    {
      R.OutsiderIsUntouched(p.pruned, s.routes, s.upstreams, p.upIds, p.routed, p.routeIds, id);
      assert p.final.routes == p.thinned.routes;
    }
  }

  lemma BindingsComeBack(db: Db, s: Snapshot, p: Phases)
    requires Consistent(db) && Applicable(s) && Applied(db, s, p)
    ensures BindingsRestored(s, p.final)
  {
    R.IdsInjective(p.pruned, s.routes, s.upstreams, p.upIds, p.routed, p.routeIds);
    assert UniqueRouteNames(p.pruned) by { assert p.pruned.routes == db.routes; }
    forall r, id | r in s.routes && HoldsRoute(p.final, id, s, r) ensures BindingsOfRoute(s, p.final, r, id) {
      HolderIsPlaced(s, p, id, r);
      forall b | b in s.bindings && b.routeId == r.id ensures B.BindingPlaced(p.final, b, id) {
        B.ListedKept(p.cleared, s.bindings, p.routeIds, p.bound, p.listed, p.final, b);
      }
      forall k | ActiveBinding(p.final, k) && p.final.bindings[k].routeId == id
        ensures exists b :: b in s.bindings && b.routeId == r.id && p.final.bindings[k] == BindingRow(b, id)
      {
        B.LiveIsListed(p.cleared, s.bindings, p.routeIds, p.bound, p.listed, p.final, r.id, k);
      }
    }
  }

  /** Uniqueness and the foreign keys survive, so the next application starts from the same hypotheses. */
  lemma StaysConsistent(db: Db, s: Snapshot, p: Phases)
    requires Consistent(db) && Applicable(s) && Applied(db, s, p)
    ensures Consistent(p.final)
  {
    U.NamesStayUnique(db, s.upstreams, p.upserted, p.upIds, p.pruned);
    U.NodesKeepUpstreams(db, s.upstreams, p.upserted, p.upIds, U.NamesOf(s.upstreams), p.pruned);
    assert UniqueRouteNames(p.pruned) by { assert p.pruned.routes == db.routes; }
    R.NamesStayUnique(p.pruned, s.routes, s.upstreams, p.upIds, p.routed, p.routeIds);
    R.PrunedStaysUnique(p.routed, R.NamesOf(s.routes), p.thinned, p.gone);
    B.UniqueAfterDrop(p.bound, p.routeIds.Values, p.listed, p.final);
    BindingsKeepRoutes(db, s, p);
    ConsistentParts(p);
  }

  lemma ConsistentParts(p: Phases)
    requires UniqueUpstreamNames(p.pruned) && NodesHaveUpstreams(p.pruned) && UniqueRouteNames(p.thinned)
    requires UniqueBindings(p.final) && BindingsHaveRoutes(p.final)
    requires p.final.upstreams == p.pruned.upstreams && p.final.nodes == p.pruned.nodes
    requires p.final.routes == p.thinned.routes
    ensures Consistent(p.final)
  {
  }

  lemma BindingsKeepRoutes(db: Db, s: Snapshot, p: Phases)
    requires BindingsHaveRoutes(db) && Applied(db, s, p)
    ensures BindingsHaveRoutes(p.final)
  {
    assert p.final.routes.Keys == db.routes.Keys + p.routeIds.Values;
    BoundRoutesExist(db, s, p);
  }

  /** Dropping bindings changes no binding's route. */
  lemma DropKeepsRoutes(x: Db, routes: set<Id>, listed: set<B.Key>, y: Db, k: Id)
    requires B.BindingsDropped(x, routes, listed, y) && k in y.bindings
    ensures k in x.bindings && y.bindings[k].routeId == x.bindings[k].routeId
  {
  }

  lemma BoundRoutesExist(db: Db, s: Snapshot, p: Phases)
    requires BindingsHaveRoutes(db) && db.bindings == p.thinned.bindings
    requires B.BindingsDropped(p.thinned, p.gone, {}, p.cleared)
    requires B.BindingsUpserted(p.cleared, s.bindings, p.routeIds, p.bound, p.listed)
    requires B.BindingsDropped(p.bound, p.routeIds.Values, p.listed, p.final)
    requires p.final.routes.Keys == db.routes.Keys + p.routeIds.Values
    ensures BindingsHaveRoutes(p.final)
  {
    forall k | k in p.final.bindings ensures p.final.bindings[k].routeId in p.final.routes {
      DropKeepsRoutes(p.bound, p.routeIds.Values, p.listed, p.final, k);
      B.RoutesStayReferenced(p.cleared, s.bindings, p.routeIds, p.bound, p.listed, k);
      if k in p.cleared.bindings { DropKeepsRoutes(p.thinned, p.gone, {}, p.cleared, k); }
    }
  }

  // ---------- what becomes of every row ----------

  lemma RoutesFate(db: Db, s: Snapshot, p: Phases, id: Id)
    requires UniqueRouteNames(p.pruned) && p.pruned.routes == db.routes && RoutesApplied(s, p) && id in db.routes
    requires forall r :: r in s.routes ==> HoldsRoute(p.final, p.routeIds[r.id], s, r)
    ensures RouteFate(db, s, id, p.final)
  {
    R.GoneIff(p.pruned, s.routes, s.upstreams, p.upIds, p.routed, p.routeIds, p.thinned, p.gone, id);
    R.PlacedWasNamed(p.pruned, s.routes, s.upstreams, p.upIds, p.routed, p.routeIds, id);
    if id in p.routeIds.Values {
      R.ValueIsPlaced(p.pruned, s.routes, s.upstreams, p.upIds, p.routed, p.routeIds, id);
      var r :| r in s.routes && p.routeIds[r.id] == id
               && R.RoutePlaced(p.pruned, r, R.ResolveUpstream(s.upstreams, p.upIds, r.upstreamId), p.routed, id);
      assert HoldsRoute(p.final, id, s, r);
    }
  }

  lemma NewRoutesHold(db: Db, s: Snapshot, p: Phases, id: Id)
    requires p.pruned.routes == db.routes && RoutesApplied(s, p) && id in p.final.routes && id !in db.routes
    requires forall r :: r in s.routes ==> HoldsRoute(p.final, p.routeIds[r.id], s, r)
    ensures exists r :: r in s.routes && HoldsRoute(p.final, id, s, r)
  {
    R.ValueIsPlaced(p.pruned, s.routes, s.upstreams, p.upIds, p.routed, p.routeIds, id);
  }

  /** Each snapshot route is held by the row it was placed in. */
  lemma PlacedHolds(s: Snapshot, p: Phases, r: RouteDto)
    requires RoutesApplied(s, p) && r in s.routes && U.UpstreamKeys(s.upstreams) <= p.upIds.Keys
    requires forall u :: u in s.upstreams ==> NamedUpstream(p.final, p.upIds[u.id], u.name)
    ensures HoldsRoute(p.final, p.routeIds[r.id], s, r)
  {
    R.PlacedSurvives(p.pruned, s.routes, s.upstreams, p.upIds, p.routed, p.routeIds, p.thinned, p.gone, r);
    PlacedRouteHolds(s, p.upIds, p.final, p.routeIds[r.id], r);
  }

  ghost predicate BindingsApplied(db: Db, s: Snapshot, p: Phases) {
    && B.BindingsDropped(p.thinned, p.gone, {}, p.cleared) && p.thinned.bindings == db.bindings
    && B.BindingsUpserted(p.cleared, s.bindings, p.routeIds, p.bound, p.listed)
    && B.BindingsDropped(p.bound, p.routeIds.Values, p.listed, p.final)
  }

  /** The row of a live route that the snapshot names, and the bindings listed for it. */
  lemma InsideFate(db: Db, s: Snapshot, p: Phases, k: Id, r: RouteDto)
    requires BindingsApplied(db, s, p) && DistinctRoutes(s.routes) && B.Injective(p.routeIds)
    requires ActiveBinding(db, k) && r in s.routes && r.id in p.routeIds && db.bindings[k].routeId == p.routeIds[r.id]
    requires p.routeIds[r.id] !in p.gone
    ensures k in p.final.bindings && ListedOrGone(s, r.name, db.bindings[k], p.final.bindings[k])
  {
    var row := db.bindings[k];
    B.InsideListedOrGone(p.thinned, p.gone, p.cleared, s.bindings, p.routeIds, p.bound, p.listed, p.final, k);
    if b :| ListsBinding(s, r.name, row.plugin, b) {
      ListedOnIt(s, r, row.plugin, b);
    } else {
      forall b | b in s.bindings ensures (p.routeIds[b.routeId], b.plugin) != B.KeyOf(row) {
        if (p.routeIds[b.routeId], b.plugin) == B.KeyOf(row) { assert ListsBinding(s, r.name, row.plugin, b); }
      }
    }
  }

  lemma ListedOnIt(s: Snapshot, r: RouteDto, plugin: string, b: BindingDto)
    requires DistinctRoutes(s.routes) && r in s.routes && ListsBinding(s, r.name, plugin, b)
    ensures b in s.bindings && b.routeId == r.id && b.plugin == plugin
  {
    var x :| x in s.routes && x.id == b.routeId && x.name == r.name;
    assert x == r;
  }

  lemma BindingsFate(db: Db, s: Snapshot, p: Phases, k: Id)
    requires BindingsApplied(db, s, p) && DistinctRoutes(s.routes) && B.Injective(p.routeIds) && RoutesApplied(s, p)
    requires UniqueRouteNames(p.pruned) && p.pruned.routes == db.routes && BindingsHaveRoutes(db) && k in db.bindings
    ensures BindingFate(db, s, k, p.final)
  {
    var row := db.bindings[k];
    var id := row.routeId;
    R.GoneIff(p.pruned, s.routes, s.upstreams, p.upIds, p.routed, p.routeIds, p.thinned, p.gone, id);
    R.PlacedWasNamed(p.pruned, s.routes, s.upstreams, p.upIds, p.routed, p.routeIds, id);
    if row.deleted || (id !in p.gone && id !in p.routeIds.Values) {
      B.OutsideStays(p.thinned, p.gone, p.cleared, s.bindings, p.routeIds, p.bound, p.listed, p.final, k);
    } else if id in p.gone {
      B.GoneGoes(p.thinned, p.gone, p.cleared, s.bindings, p.routeIds, p.bound, p.listed, p.final, k);
    } else {
      R.ValueIsPlaced(p.pruned, s.routes, s.upstreams, p.upIds, p.routed, p.routeIds, id);
      var r :| r in s.routes && p.routeIds[r.id] == id
               && R.RoutePlaced(p.pruned, r, R.ResolveUpstream(s.upstreams, p.upIds, r.upstreamId), p.routed, id);
      InsideFate(db, s, p, k, r);
    }
  }

  lemma AllAccounted(db: Db, s: Snapshot, p: Phases)
    requires Consistent(db) && Applicable(s) && Applied(db, s, p)
    ensures RowsAccounted(db, s, p.final)
  {
    UpstreamsAccounted(db, s, p);
    RoutesAccounted(db, s, p);
    BindingsAccounted(db, s, p);
  }

  lemma RoutesAccounted(db: Db, s: Snapshot, p: Phases)
    requires UniqueRouteNames(db) && Applied(db, s, p)
    ensures forall id :: id in db.routes ==> RouteFate(db, s, id, p.final)
    ensures NewRows(db, s, p.final)
  {
    AllPlacedHold(db, s, p);
    OldRoutesAccounted(db, s, p);
    NewAccounted(db, s, p);
  }

  lemma AllPlacedHold(db: Db, s: Snapshot, p: Phases)
    requires Applied(db, s, p)
    ensures forall r :: r in s.routes ==> HoldsRoute(p.final, p.routeIds[r.id], s, r)
  {
    PlacedUpstreamsLive(db, s, p);
    forall r | r in s.routes ensures HoldsRoute(p.final, p.routeIds[r.id], s, r) { PlacedHolds(s, p, r); }
  }

  lemma OldRoutesAccounted(db: Db, s: Snapshot, p: Phases)
    requires UniqueRouteNames(db) && p.pruned.routes == db.routes && RoutesApplied(s, p)
    requires forall r :: r in s.routes ==> HoldsRoute(p.final, p.routeIds[r.id], s, r)
    ensures forall id :: id in db.routes ==> RouteFate(db, s, id, p.final)
  {
    assert UniqueRouteNames(p.pruned);
    forall id | id in db.routes ensures RouteFate(db, s, id, p.final) { RoutesFate(db, s, p, id); }
  }

  lemma BindingsAccounted(db: Db, s: Snapshot, p: Phases)
    requires UniqueRouteNames(db) && BindingsHaveRoutes(db) && DistinctRoutes(s.routes) && Applied(db, s, p)
    ensures forall k :: k in db.bindings ==> BindingFate(db, s, k, p.final)
  {
    assert UniqueRouteNames(p.pruned) by { assert p.pruned.routes == db.routes; }
    R.IdsInjective(p.pruned, s.routes, s.upstreams, p.upIds, p.routed, p.routeIds);
    forall k | k in db.bindings ensures BindingFate(db, s, k, p.final) { BindingsFate(db, s, p, k); }
  }

  lemma UpstreamsAccounted(db: Db, s: Snapshot, p: Phases)
    requires Consistent(db) && Applied(db, s, p)
    ensures forall id :: id in db.upstreams ==> UpstreamFate(db, s, id, p.final)
    ensures forall n :: n in db.nodes ==> NodeFate(db, n, p.final)
  {
    forall id | id in db.upstreams ensures UpstreamFate(db, s, id, p.final) {
      U.UpstreamsFate(db, s, p.upserted, p.upIds, p.pruned, id);
    }
    forall n | n in db.nodes ensures NodeFate(db, n, p.final) {
      U.NodesFate(db, s, p.upserted, p.upIds, p.pruned, n);
    }
  }

  lemma NewAccounted(db: Db, s: Snapshot, p: Phases)
    requires Applied(db, s, p)
    requires forall r :: r in s.routes ==> HoldsRoute(p.final, p.routeIds[r.id], s, r)
    ensures NewRows(db, s, p.final)
  {
    forall id | id in p.final.upstreams && id !in db.upstreams
      ensures exists u :: u in s.upstreams && p.final.upstreams[id] == UpstreamRow(u)
    {
      U.ValueIsPlaced(db, s.upstreams, p.upserted, p.upIds, id);
      var u :| u in s.upstreams && p.upIds[u.id] == id && U.UpstreamPlaced(db, u, p.upserted, id);
      U.PlacedIsLive(db, s.upstreams, p.upserted, p.upIds, p.pruned, u);
    }
    forall id | id in p.final.routes && id !in db.routes
      ensures exists r :: r in s.routes && HoldsRoute(p.final, id, s, r)
    {
      NewRoutesHold(db, s, p, id);
    }
    forall k | k in p.final.bindings && k !in db.bindings
      ensures exists b :: b in s.bindings && p.final.bindings[k] == BindingRow(b, p.final.bindings[k].routeId)
    {
      B.NewHolds(p.thinned, p.gone, p.cleared, s.bindings, p.routeIds, p.bound, p.listed, p.final, k);
    }
  }
}
