/**
 The snapshot that publishing takes: the enabled live routes, all live upstreams with their
 live nodes in key order, and the enabled live bindings of those routes.
 */
module ConfigCapture {
  import opened ConfigTables
  import opened ConfigRoundTrip

  // ---------- routes ----------

  /** `routes` captures the enabled routes whose keys are not in `todo`. */
  ghost predicate RoutesSoFar(db: Db, routes: seq<RouteDto>, todo: set<Id>) {
    && (forall i :: 0 <= i < |routes| ==>
          && EnabledRoute(db, routes[i].id) && routes[i].id !in todo
          && routes[i] == RouteDtoOf(routes[i].id, db.routes[routes[i].id]))
    && (forall i, j :: 0 <= i < j < |routes| ==> routes[i].id != routes[j].id)
    && (forall id :: EnabledRoute(db, id) && id !in todo ==> RouteDtoOf(id, db.routes[id]) in routes)
  }

  method CaptureRoutes(db: Db) returns (routes: seq<RouteDto>)
    ensures CapturesRoutes(db, routes)
  {
    routes := [];
    var todo := db.routes.Keys;
    while todo != {}
      invariant todo <= db.routes.Keys && RoutesSoFar(db, routes, todo)
    {
      var id :| id in todo;
      ghost var before := routes;
      todo := todo - {id};
      if !db.routes[id].deleted && db.routes[id].enabled {
        routes := routes + [RouteDtoOf(id, db.routes[id])];
        assert RouteDtoOf(id, db.routes[id]) in routes;
      }
      assert forall r :: r in before ==> r in routes;
    }
  }

  // ---------- upstreams and their nodes ----------

  function NodeDtoOf(row: Node): NodeDto { NodeDto(row.address, row.weight, row.enabled) }

  ghost predicate NodesSoFar(db: Db, up: Id, nodes: seq<NodeDto>, ids: seq<Id>, todo: set<Id>) {
    && |ids| == |nodes|
    && (forall i, j :: 0 <= i < j < |ids| ==> ids[i] != ids[j])
    && (forall i :: 0 <= i < |ids| ==> ids[i] !in todo)
    && (forall i :: 0 <= i < |ids| ==>
          && ids[i] in db.nodes
          && db.nodes[ids[i]] == Node(up, nodes[i].address, nodes[i].weight, nodes[i].enabled, false))
    && (forall id :: ActiveNode(db, id) && db.nodes[id].upstreamId == up ==> id in ids || id in todo)
  }

  method CaptureNodes(db: Db, up: Id) returns (nodes: seq<NodeDto>)
    ensures HasNodes(db, up, nodes)
  {
    nodes := [];
    ghost var ids := [];
    var todo := set id | id in db.nodes && !db.nodes[id].deleted && db.nodes[id].upstreamId == up;
    while todo != {}
      invariant forall id :: id in todo ==> ActiveNode(db, id) && db.nodes[id].upstreamId == up
      invariant NodesSoFar(db, up, nodes, ids, todo)
    {
      var id :| id in todo;
      todo := todo - {id};
      nodes, ids := nodes + [NodeDtoOf(db.nodes[id])], ids + [id];
    }
    assert NodesHeld(db, up, nodes, ids);
  }

  ghost predicate UpstreamsSoFar(db: Db, ups: seq<UpstreamDto>, todo: set<Id>) {
    && (forall i :: 0 <= i < |ups| ==> CapturesUpstream(db, ups[i]) && ups[i].id !in todo)
    && (forall i, j :: 0 <= i < j < |ups| ==> ups[i].id != ups[j].id)
    && (forall id :: ActiveUpstream(db, id) && id !in todo ==> exists u :: u in ups && u.id == id)
  }

  lemma UpstreamAdded(db: Db, ups: seq<UpstreamDto>, todo: set<Id>, u: UpstreamDto)
    requires UpstreamsSoFar(db, ups, todo) && u.id in todo && CapturesUpstream(db, u)
    ensures UpstreamsSoFar(db, ups + [u], todo - {u.id})
  {
    var next := ups + [u];
    forall id | ActiveUpstream(db, id) && id !in todo - {u.id} ensures exists x :: x in next && x.id == id {
      if id == u.id {
        assert u in next;
      } else {
        var x :| x in ups && x.id == id;
        assert x in next;
      }
    }
  }

  method CaptureUpstreams(db: Db) returns (ups: seq<UpstreamDto>)
    ensures CapturesUpstreams(db, ups)
  {
    ups := [];
    var todo := db.upstreams.Keys;
    while todo != {}
      invariant todo <= db.upstreams.Keys && UpstreamsSoFar(db, ups, todo)
    {
      var id :| id in todo;
      var row := db.upstreams[id];
      if !row.deleted {
        var nodes := CaptureNodes(db, id);
        var u := UpstreamDto(id, row.name, AlgorithmOf(row.algorithm), row.retryEnabled, nodes);
        UpstreamAdded(db, ups, todo, u);
        ups := ups + [u];
      }
      todo := todo - {id};
    }
  }

  // ---------- bindings ----------

  ghost predicate Bound(db: Db, k: Id, route: Id) { EnabledBinding(db, k) && db.bindings[k].routeId == route }

  /** Row `k`, not in `todo`, is the enabled binding `b` of `route`. */
  ghost predicate Stands(db: Db, k: Id, route: Id, todo: set<Id>, b: BindingDto) {
    Bound(db, k, route) && k !in todo && BindingDtoOf(db.bindings[k]) == b
  }

  ghost predicate Stood(db: Db, route: Id, todo: set<Id>, b: BindingDto) { exists k :: Stands(db, k, route, todo, b) }

  /** `bs` are the enabled bindings of `route` whose keys are not in `todo`. */
  ghost predicate BindingsSoFar(db: Db, route: Id, bs: seq<BindingDto>, todo: set<Id>) {
    && (forall i :: 0 <= i < |bs| ==> Stood(db, route, todo, bs[i]))
    && (forall i, j :: 0 <= i < j < |bs| ==> bs[i].plugin != bs[j].plugin)
    && (forall k :: Bound(db, k, route) && k !in todo ==> BindingDtoOf(db.bindings[k]) in bs)
  }

  lemma BindingAdded(db: Db, route: Id, bs: seq<BindingDto>, todo: set<Id>, k: Id)
    requires UniqueBindings(db) && BindingsSoFar(db, route, bs, todo) && k in todo && Bound(db, k, route)
    ensures BindingsSoFar(db, route, bs + [BindingDtoOf(db.bindings[k])], todo - {k})
  {
    var d := BindingDtoOf(db.bindings[k]);
    var next := bs + [d];
    forall i | 0 <= i < |bs| ensures bs[i].plugin != d.plugin {
      var x :| Stands(db, x, route, todo, bs[i]);
      assert x != k && SameKey(db.bindings[x], db.bindings[k]) <==> bs[i].plugin == d.plugin;
    }
    forall i | 0 <= i < |next| ensures Stood(db, route, todo - {k}, next[i]) {
      if i < |bs| { StillStands(db, route, todo, k, bs[i]); } else { assert Stands(db, k, route, todo - {k}, d); }
    }
    assert forall b :: b in bs ==> b in next;
    assert d in next;
  }

  lemma StillStands(db: Db, route: Id, todo: set<Id>, k: Id, b: BindingDto)
    requires Stood(db, route, todo, b)
    ensures Stood(db, route, todo - {k}, b)
  {
    var x :| Stands(db, x, route, todo, b);
    assert Stands(db, x, route, todo - {k}, b);
  }

  lemma BindingSkipped(db: Db, route: Id, bs: seq<BindingDto>, todo: set<Id>, k: Id)
    requires BindingsSoFar(db, route, bs, todo) && !Bound(db, k, route)
    ensures BindingsSoFar(db, route, bs, todo - {k})
  {
    forall i | 0 <= i < |bs| ensures Stood(db, route, todo - {k}, bs[i]) {
      StillStands(db, route, todo, k, bs[i]);
    }
  }

  /** The enabled live bindings of one route. */
  method ListByRoute(db: Db, route: Id) returns (bs: seq<BindingDto>)
    ensures UniqueBindings(db) ==> BindingsSoFar(db, route, bs, {})
  {
    bs := [];
    var todo := db.bindings.Keys;
    while todo != {}
      invariant todo <= db.bindings.Keys
      invariant UniqueBindings(db) ==> BindingsSoFar(db, route, bs, todo)
    {
      var k :| k in todo;
      var row := db.bindings[k];
      if !row.deleted && row.enabled && row.routeId == route {
        if UniqueBindings(db) { BindingAdded(db, route, bs, todo, k); }
        bs := bs + [BindingDtoOf(row)];
      } else {
        if UniqueBindings(db) { BindingSkipped(db, route, bs, todo, k); }
      }
      todo := todo - {k};
    }
  }

  ghost predicate ListedIn(routes: seq<RouteDto>, id: Id) { exists r :: r in routes && r.id == id }

  /** `bs` captures the bindings of the given routes. */
  ghost predicate BindingsOn(db: Db, routes: seq<RouteDto>, bs: seq<BindingDto>) {
    && (forall i :: 0 <= i < |bs| ==> ListedIn(routes, bs[i].routeId) && HasDto(db, bs[i]))
    && (forall i, j :: 0 <= i < j < |bs| ==> bs[i].routeId != bs[j].routeId || bs[i].plugin != bs[j].plugin)
    && (forall k :: EnabledBinding(db, k) && ListedIn(routes, db.bindings[k].routeId) ==>
                      BindingDtoOf(db.bindings[k]) in bs)
  }

  lemma RouteAdded(db: Db, routes: seq<RouteDto>, bs: seq<BindingDto>, r: RouteDto, more: seq<BindingDto>)
    requires BindingsOn(db, routes, bs) && !ListedIn(routes, r.id) && BindingsSoFar(db, r.id, more, {})
    ensures BindingsOn(db, routes + [r], bs + more)
  {
    var all := bs + more;
    assert forall id :: ListedIn(routes + [r], id) <==> ListedIn(routes, id) || id == r.id by { ListedMore(routes, r); }
    forall i | 0 <= i < |more| ensures more[i].routeId == r.id && HasDto(db, more[i]) {
      var k :| Stands(db, k, r.id, {}, more[i]);
      assert EnabledBinding(db, k);
    }
    forall i, j | 0 <= i < j < |all| ensures all[i].routeId != all[j].routeId || all[i].plugin != all[j].plugin {
      if i < |bs| <= j { assert ListedIn(routes, bs[i].routeId) && more[j - |bs|].routeId == r.id; }
    }
    forall k | EnabledBinding(db, k) && ListedIn(routes + [r], db.bindings[k].routeId)
      ensures BindingDtoOf(db.bindings[k]) in all
    {
      if db.bindings[k].routeId == r.id { assert Bound(db, k, r.id); }
    }
  }

  lemma ListedMore(routes: seq<RouteDto>, r: RouteDto)
    ensures forall id :: ListedIn(routes + [r], id) <==> ListedIn(routes, id) || id == r.id
  {
    forall id ensures ListedIn(routes + [r], id) <==> ListedIn(routes, id) || id == r.id {
      if ListedIn(routes, id) {
        var x :| x in routes && x.id == id;
        assert x in routes + [r];
      }
      assert r in routes + [r];
    }
  }

  method CaptureBindings(db: Db, routes: seq<RouteDto>) returns (bs: seq<BindingDto>)
    requires forall i, j :: 0 <= i < j < |routes| ==> routes[i].id != routes[j].id
    ensures UniqueBindings(db) ==> BindingsOn(db, routes, bs)
  {
    bs := [];
    for i := 0 to |routes|
      invariant UniqueBindings(db) ==> BindingsOn(db, routes[..i], bs)
    {
      var more := ListByRoute(db, routes[i].id);
      if UniqueBindings(db) {
        RouteAdded(db, routes[..i], bs, routes[i], more);
        assert routes[..i] + [routes[i]] == routes[..i + 1];
      }
      bs := bs + more;
    }
    assert routes[..|routes|] == routes;
  }

  lemma OnRoutesIsCaptured(db: Db, routes: seq<RouteDto>, bs: seq<BindingDto>)
    requires CapturesRoutes(db, routes) && BindingsOn(db, routes, bs)
    ensures CapturesBindings(db, bs)
  {
    forall id ensures ListedIn(routes, id) <==> EnabledRoute(db, id) {
      if EnabledRoute(db, id) { assert RouteDtoOf(id, db.routes[id]) in routes; }
    }
  }

  // ---------- the snapshot ----------

  /** Publishing's snapshot captures the live configuration. */
  method Capture(db: Db) returns (s: Snapshot)
    ensures Consistent(db) ==> Captures(db, s) && Applicable(s)
  {
    var routes := CaptureRoutes(db);
    var ups := CaptureUpstreams(db);
    var bs := CaptureBindings(db, routes);
    s := Snapshot(routes, ups, bs);
    if Consistent(db) {
      OnRoutesIsCaptured(db, routes, bs);
      CapturedIsApplicable(db, s);
    }
  }
}
