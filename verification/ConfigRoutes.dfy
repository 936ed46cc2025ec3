/**
 Phases 3 and 4 of applying a snapshot: upsert the routes by name, with the upstream
 reference sent from snapshot key to row key, and soft-delete the enabled routes that the
 snapshot does not name.
 */
module ConfigRoutes {
  import opened Common
  import opened ConfigTables
  import ConfigUpstreams

  ghost predicate NamedRoute(db: Db, id: Id, name: string) {
    ActiveRoute(db, id) && db.routes[id].name == name
  }

  // ---------- phase 3: upsert ----------

  function ResolveUpstream(ups: seq<UpstreamDto>, ids: map<Id, Id>, ref: Option<Id>): Option<Id> {
    match ref
    case None => None
    case Some(sid) => if (exists u :: u in ups && u.id == sid) && sid in ids then Some(ids[sid]) else None
  }

  ghost predicate RouteUpserted(db: Db, r: RouteDto, up: Option<Id>, db': Db, id: Id) {
    && db' == db.(routes := db.routes[id := RouteRow(r, up)])
    && if id in db.routes then NamedRoute(db, id, r.name) else forall k :: !NamedRoute(db, k, r.name)
  }

  method UpsertRoute(db: Db, r: RouteDto, up: Option<Id>) returns (db': Db, id: Id)
    ensures RouteUpserted(db, r, up, db', id)
  {
    if k :| k in db.routes && !db.routes[k].deleted && db.routes[k].name == r.name {
      id := k;
      var row := db.routes[id].(
        protocol := ProtocolCode(r.protocol), conditions := r.conditions, priority := r.priority, upstreamId := up,
        hostHeader := r.hostHeader, allowRetryNonIdempotent := r.allowRetryNonIdempotent,
        wsStripSensitiveHeaders := r.wsStripSensitiveHeaders, enabled := r.enabled);
      db' := db.(routes := db.routes[id := row]);
    } else {
      assert forall k :: !NamedRoute(db, k, r.name);
      id := ConfigUpstreams.NextKey(db.routes.Keys);
      db' := db.(routes := db.routes[id := RouteRow(r, up)]);
    }
  }

  ghost function RouteKeys(routes: seq<RouteDto>): set<Id> { set r | r in routes :: r.id }

  lemma PrefixStep(routes: seq<RouteDto>, i: nat)
    requires i < |routes|
    ensures routes[..i + 1] == routes[..i] + [routes[i]]
    ensures RouteKeys(routes[..i + 1]) == RouteKeys(routes[..i]) + {routes[i].id}
    ensures forall v :: v in routes[..i + 1] <==> v in routes[..i] || v == routes[i]
    ensures DistinctRoutes(routes) ==> routes[i].id !in RouteKeys(routes[..i])
    ensures DistinctRoutes(routes) ==> forall v :: v in routes[..i] ==> v.name != routes[i].name
  {
    assert routes[..i + 1] == routes[..i] + [routes[i]];
  }

  /** `ids` sends each snapshot key to the row that now holds that route, found by name or created. */
  ghost predicate RoutesUpserted(
    db: Db, routes: seq<RouteDto>, ups: seq<UpstreamDto>, upIds: map<Id, Id>, db': Db, ids: map<Id, Id>)
  {
    && RoutesFrame(db, db', ids.Values)
    && ids.Keys == RouteKeys(routes)
    && (forall r :: r in routes ==> RoutePlaced(db, r, ResolveUpstream(ups, upIds, r.upstreamId), db', ids[r.id]))
  }

  ghost predicate RoutesFrame(db: Db, db': Db, changed: set<Id>) {
    && db' == db.(routes := db'.routes)
    && db'.routes.Keys == db.routes.Keys + changed
    && (forall k :: k in db.routes && k !in changed ==> db'.routes[k] == db.routes[k])
  }

  ghost predicate RoutePlaced(db: Db, r: RouteDto, up: Option<Id>, db': Db, id: Id) {
    && id in db'.routes && db'.routes[id] == RouteRow(r, up)
    && if id in db.routes then NamedRoute(db, id, r.name) else forall k :: !NamedRoute(db, k, r.name)
  }

  method UpsertRoutes(db: Db, routes: seq<RouteDto>, ups: seq<UpstreamDto>, upIds: map<Id, Id>)
    returns (db': Db, ids: map<Id, Id>)
    ensures ids.Keys == RouteKeys(routes)
    ensures db' == db.(routes := db'.routes)
    ensures DistinctRoutes(routes) ==> RoutesUpserted(db, routes, ups, upIds, db', ids)
  {
    db', ids := db, map[];
    for i := 0 to |routes|
      invariant ids.Keys == RouteKeys(routes[..i])
      invariant db' == db.(routes := db'.routes)
      invariant DistinctRoutes(routes) ==> RoutesUpserted(db, routes[..i], ups, upIds, db', ids)
    {
      var r := routes[i];
      var next, id := UpsertRoute(db', r, ResolveUpstream(ups, upIds, r.upstreamId));
      if DistinctRoutes(routes) {
        UpsertRouteStep(db, routes, i, ups, upIds, db', ids, next, id);
      }
      PrefixStep(routes, i);
      db', ids := next, ids[r.id := id];
    }
    assert routes[..|routes|] == routes;
  }

  lemma UpsertRouteStep(
    db: Db, routes: seq<RouteDto>, i: nat, ups: seq<UpstreamDto>, upIds: map<Id, Id>, mid: Db, ids: map<Id, Id>,
    next: Db, id: Id)
    requires i < |routes| && DistinctRoutes(routes)
    requires RoutesUpserted(db, routes[..i], ups, upIds, mid, ids)
    requires RouteUpserted(mid, routes[i], ResolveUpstream(ups, upIds, routes[i].upstreamId), next, id)
    ensures RoutesUpserted(db, routes[..i + 1], ups, upIds, next, ids[routes[i].id := id])
  {
    var r := routes[i];
    PrefixStep(routes, i);
    UpsertedRouteIsNew(db, routes, i, ups, upIds, mid, ids, next, id);
    ConfigUpstreams.ValuesOfUpdate(ids, r.id, id);
    RoutesFrameStep(db, mid, ids.Values, next, id);
    UpsertedRoutePlaced(db, routes, i, ups, upIds, mid, ids, next, id);
    OthersPlaced(db, routes[..i], ups, upIds, mid, ids, next, id);
    ExtendUpserted(db, routes, i, ups, upIds, ids, next, id);
  }

  lemma ExtendUpserted(
    db: Db, routes: seq<RouteDto>, i: nat, ups: seq<UpstreamDto>, upIds: map<Id, Id>, ids: map<Id, Id>, next: Db,
    id: Id)
    requires i < |routes| && ids.Keys == RouteKeys(routes[..i]) && routes[i].id !in ids
    requires RoutesFrame(db, next, ids[routes[i].id := id].Values)
    requires forall v :: v in routes[..i] ==>
               RoutePlaced(db, v, ResolveUpstream(ups, upIds, v.upstreamId), next, ids[v.id])
    requires RoutePlaced(db, routes[i], ResolveUpstream(ups, upIds, routes[i].upstreamId), next, id)
    ensures RoutesUpserted(db, routes[..i + 1], ups, upIds, next, ids[routes[i].id := id])
  {
    var ids' := ids[routes[i].id := id];
    PrefixStep(routes, i);
    forall v | v in routes[..i + 1]
      ensures RoutePlaced(db, v, ResolveUpstream(ups, upIds, v.upstreamId), next, ids'[v.id])
    {
      if v in routes[..i] { assert v.id in RouteKeys(routes[..i]) && ids'[v.id] == ids[v.id]; }
    }
    assert ids'.Keys == RouteKeys(routes[..i + 1]);
  }

  lemma OthersPlaced(
    db: Db, routes: seq<RouteDto>, ups: seq<UpstreamDto>, upIds: map<Id, Id>, mid: Db, ids: map<Id, Id>, next: Db,
    id: Id)
    requires RouteKeys(routes) <= ids.Keys && id !in ids.Values
    requires forall v :: v in routes ==> RoutePlaced(db, v, ResolveUpstream(ups, upIds, v.upstreamId), mid, ids[v.id])
    requires id in next.routes && next.routes == mid.routes[id := next.routes[id]]
    ensures forall v :: v in routes ==> RoutePlaced(db, v, ResolveUpstream(ups, upIds, v.upstreamId), next, ids[v.id])
  {
    forall v | v in routes
      ensures RoutePlaced(db, v, ResolveUpstream(ups, upIds, v.upstreamId), next, ids[v.id])
    {
      assert RoutePlaced(db, v, ResolveUpstream(ups, upIds, v.upstreamId), mid, ids[v.id]);
    }
  }

  lemma RoutesFrameStep(db: Db, mid: Db, changed: set<Id>, next: Db, id: Id)
    requires RoutesFrame(db, mid, changed) && id in next.routes
    requires next == mid.(routes := mid.routes[id := next.routes[id]])
    ensures RoutesFrame(db, next, changed + {id})
  {
    assert next.routes.Keys == mid.routes.Keys + {id};
  }

  lemma UpsertedRouteIsNew(
    db: Db, routes: seq<RouteDto>, i: nat, ups: seq<UpstreamDto>, upIds: map<Id, Id>, mid: Db, ids: map<Id, Id>,
    next: Db, id: Id)
    requires i < |routes| && DistinctRoutes(routes)
    requires RoutesUpserted(db, routes[..i], ups, upIds, mid, ids)
    requires RouteUpserted(mid, routes[i], ResolveUpstream(ups, upIds, routes[i].upstreamId), next, id)
    ensures id !in ids.Values
  {
    PrefixStep(routes, i);
    forall v | v in routes[..i] ensures ids[v.id] != id {
      assert RoutePlaced(db, v, ResolveUpstream(ups, upIds, v.upstreamId), mid, ids[v.id]);
    }
  }

  lemma UpsertedRoutePlaced(
    db: Db, routes: seq<RouteDto>, i: nat, ups: seq<UpstreamDto>, upIds: map<Id, Id>, mid: Db, ids: map<Id, Id>,
    next: Db, id: Id)
    requires i < |routes| && DistinctRoutes(routes)
    requires RoutesUpserted(db, routes[..i], ups, upIds, mid, ids)
    requires RouteUpserted(mid, routes[i], ResolveUpstream(ups, upIds, routes[i].upstreamId), next, id)
    requires id !in ids.Values
    ensures RoutePlaced(db, routes[i], ResolveUpstream(ups, upIds, routes[i].upstreamId), next, id)
  {
    PrefixStep(routes, i);
    if id !in mid.routes {
      forall k | NamedRoute(db, k, routes[i].name) ensures NamedRoute(mid, k, routes[i].name) {
        if k !in ids.Values { assert ActiveRoute(mid, k); }
      }
    }
  }

  // ---------- phase 4: prune ----------

  predicate Dropped(db: Db, names: set<string>, k: Id) {
    k in db.routes && !db.routes[k].deleted && db.routes[k].enabled && db.routes[k].name !in names
  }

  ghost predicate RoutesPruned(db: Db, names: set<string>, db': Db, gone: set<Id>) {
    && db' == db.(routes := db'.routes)
    && db'.routes.Keys == db.routes.Keys
    && (forall k :: k in gone <==> Dropped(db, names, k))
    && (forall k :: k in db.routes ==>
          db'.routes[k] == db.routes[k].(deleted := db.routes[k].deleted || k in gone))
  }

  /** The route rows once those in `gone` are deleted. */
  ghost predicate RowsWithout(db: Db, gone: set<Id>, rows: map<Id, Route>) {
    && rows.Keys == db.routes.Keys
    && forall k :: k in db.routes ==> rows[k] == db.routes[k].(deleted := db.routes[k].deleted || k in gone)
  }

  lemma RowGone(db: Db, gone: set<Id>, rows: map<Id, Route>, k: Id)
    requires RowsWithout(db, gone, rows) && k in db.routes
    ensures RowsWithout(db, gone + {k}, rows[k := rows[k].(deleted := true)])
  {
  }

  method PruneRoutes(db: Db, names: set<string>) returns (db': Db, gone: set<Id>)
    ensures RoutesPruned(db, names, db', gone)
  {
    var rows := db.routes;
    gone := {};
    var todo := set k | k in db.routes && !db.routes[k].deleted && db.routes[k].enabled;
    while todo != {}
      invariant forall k :: k in todo ==> k in db.routes && !db.routes[k].deleted && db.routes[k].enabled
      invariant forall k :: k in gone <==> Dropped(db, names, k) && k !in todo
      invariant RowsWithout(db, gone, rows)
    {
      var k :| k in todo;
      if db.routes[k].name !in names {
        RowGone(db, gone, rows, k);
        rows := rows[k := rows[k].(deleted := true)];
        gone := gone + {k};
      }
      todo := todo - {k};
    }
    db' := db.(routes := rows);
  }

  // ---------- phases 3 and 4 together ----------

  function NamesOf(routes: seq<RouteDto>): set<string> { set r | r in routes :: r.name }

  lemma ValueIsPlaced(
    db: Db, routes: seq<RouteDto>, ups: seq<UpstreamDto>, upIds: map<Id, Id>, db': Db, ids: map<Id, Id>, id: Id)
    requires RoutesUpserted(db, routes, ups, upIds, db', ids) && id in ids.Values
    ensures exists r :: r in routes && ids[r.id] == id
                        && RoutePlaced(db, r, ResolveUpstream(ups, upIds, r.upstreamId), db', id)
  {
    var k :| k in ids && ids[k] == id;
    var r :| r in routes && r.id == k;
    assert RoutePlaced(db, r, ResolveUpstream(ups, upIds, r.upstreamId), db', ids[r.id]);
  }

  /** A live row that carries a name of the snapshot is the one that route was placed in. */
  lemma NamedIsPlaced(
    db: Db, routes: seq<RouteDto>, ups: seq<UpstreamDto>, upIds: map<Id, Id>, db': Db, ids: map<Id, Id>, id: Id,
    r: RouteDto)
    requires UniqueRouteNames(db) && DistinctRoutes(routes) && RoutesUpserted(db, routes, ups, upIds, db', ids)
    requires r in routes && NamedRoute(db', id, r.name)
    ensures id == ids[r.id]
  {
    if id in ids.Values {
      ValueIsPlaced(db, routes, ups, upIds, db', ids, id);
    } else {
      assert RoutePlaced(db, r, ResolveUpstream(ups, upIds, r.upstreamId), db', ids[r.id]);
      assert NamedRoute(db, id, r.name);
      assert false;
    }
  }

  lemma UnnamedIsUntouched(
    db: Db, routes: seq<RouteDto>, ups: seq<UpstreamDto>, upIds: map<Id, Id>, db': Db, ids: map<Id, Id>, id: Id)
    requires RoutesUpserted(db, routes, ups, upIds, db', ids)
    requires id in db'.routes && db'.routes[id].name !in NamesOf(routes)
    ensures id in db.routes && db'.routes[id] == db.routes[id]
  {
    if id in ids.Values {
      ValueIsPlaced(db, routes, ups, upIds, db', ids, id);
    }
  }

  /** A row found by name keeps its name, so a route outside the snapshot keeps its row. */
  lemma OutsiderIsUntouched(
    db: Db, routes: seq<RouteDto>, ups: seq<UpstreamDto>, upIds: map<Id, Id>, db': Db, ids: map<Id, Id>, id: Id)
    requires RoutesUpserted(db, routes, ups, upIds, db', ids)
    requires id in db.routes && db.routes[id].name !in NamesOf(routes)
    ensures db'.routes[id] == db.routes[id]
  {
    if id in ids.Values {
      ValueIsPlaced(db, routes, ups, upIds, db', ids, id);
    }
  }

  lemma IdsInjective(
    db: Db, routes: seq<RouteDto>, ups: seq<UpstreamDto>, upIds: map<Id, Id>, db': Db, ids: map<Id, Id>)
    requires DistinctRoutes(routes) && RoutesUpserted(db, routes, ups, upIds, db', ids)
    ensures forall i, j :: i in ids && j in ids && ids[i] == ids[j] ==> i == j
  {
    forall i, j | i in ids && j in ids && ids[i] == ids[j] ensures i == j {
      var x :| x in routes && x.id == i;
      var y :| y in routes && y.id == j;
      assert db'.routes[ids[i]].name == x.name && db'.routes[ids[j]].name == y.name;
    }
  }

  lemma NamesStayUnique(
    db: Db, routes: seq<RouteDto>, ups: seq<UpstreamDto>, upIds: map<Id, Id>, mid: Db, ids: map<Id, Id>)
    requires UniqueRouteNames(db) && DistinctRoutes(routes) && RoutesUpserted(db, routes, ups, upIds, mid, ids)
    ensures UniqueRouteNames(mid)
  {
    forall i, j | ActiveRoute(mid, i) && ActiveRoute(mid, j) && mid.routes[i].name == mid.routes[j].name
      ensures i == j
    {
      if r :| r in routes && r.name == mid.routes[i].name {
        NamedIsPlaced(db, routes, ups, upIds, mid, ids, i, r);
        NamedIsPlaced(db, routes, ups, upIds, mid, ids, j, r);
      } else {
        UnnamedIsUntouched(db, routes, ups, upIds, mid, ids, i);
        UnnamedIsUntouched(db, routes, ups, upIds, mid, ids, j);
      }
    }
  }

  lemma PlacedSurvives(
    db: Db, routes: seq<RouteDto>, ups: seq<UpstreamDto>, upIds: map<Id, Id>, mid: Db, ids: map<Id, Id>, db': Db,
    gone: set<Id>, r: RouteDto)
    requires RoutesUpserted(db, routes, ups, upIds, mid, ids) && RoutesPruned(mid, NamesOf(routes), db', gone)
    requires r in routes
    ensures ids[r.id] in db'.routes && db'.routes[ids[r.id]] == RouteRow(r, ResolveUpstream(ups, upIds, r.upstreamId))
  {
    assert RoutePlaced(db, r, ResolveUpstream(ups, upIds, r.upstreamId), mid, ids[r.id]);
    assert r.name in NamesOf(routes);
    assert !Dropped(mid, NamesOf(routes), ids[r.id]);
  }

  /** After pruning, a live enabled row carries a name of the snapshot. */
  lemma LiveIsNamed(mid: Db, routes: seq<RouteDto>, db': Db, gone: set<Id>, id: Id)
    requires RoutesPruned(mid, NamesOf(routes), db', gone)
    requires ActiveRoute(db', id) && db'.routes[id].enabled
    ensures exists r :: r in routes && NamedRoute(mid, id, r.name)
  {
    assert !Dropped(mid, NamesOf(routes), id);
    assert db'.routes[id].name in NamesOf(routes);
  }

  lemma PrunedStaysUnique(mid: Db, names: set<string>, db': Db, gone: set<Id>)
    requires UniqueRouteNames(mid) && RoutesPruned(mid, names, db', gone)
    ensures UniqueRouteNames(db')
  {
    assert forall k :: ActiveRoute(db', k) ==> ActiveRoute(mid, k) && db'.routes[k].name == mid.routes[k].name;
  }

  // ---------- which rows go ----------

  /** The routes that go are the live, enabled ones without a name in the snapshot. */
  lemma GoneIff(
    db: Db, routes: seq<RouteDto>, ups: seq<UpstreamDto>, upIds: map<Id, Id>, mid: Db, ids: map<Id, Id>, db': Db,
    gone: set<Id>, id: Id)
    requires RoutesUpserted(db, routes, ups, upIds, mid, ids) && RoutesPruned(mid, NamesOf(routes), db', gone)
    requires id in db.routes
    ensures id in gone <==> ActiveRoute(db, id) && db.routes[id].enabled && db.routes[id].name !in NamesOf(routes)
  {
    if id in ids.Values { ValueIsPlaced(db, routes, ups, upIds, mid, ids, id); }
  }

  lemma PlacedWasNamed(
    db: Db, routes: seq<RouteDto>, ups: seq<UpstreamDto>, upIds: map<Id, Id>, mid: Db, ids: map<Id, Id>, id: Id)
    requires UniqueRouteNames(db) && RoutesUpserted(db, routes, ups, upIds, mid, ids) && id in db.routes
    ensures id in ids.Values <==> ActiveRoute(db, id) && db.routes[id].name in NamesOf(routes)
  {
    if id in ids.Values { ValueIsPlaced(db, routes, ups, upIds, mid, ids, id); }
    if ActiveRoute(db, id) && db.routes[id].name in NamesOf(routes) {
      var r :| r in routes && r.name == db.routes[id].name;
      assert NamedRoute(db, id, r.name);
      assert RoutePlaced(db, r, ResolveUpstream(ups, upIds, r.upstreamId), mid, ids[r.id]);
      assert id == ids[r.id];
    }
  }
}
