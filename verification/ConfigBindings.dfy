/**
 Phase 5 of applying a snapshot: drop the plugin bindings of deleted routes, upsert the
 snapshot's bindings by (route, plugin), and drop what the snapshot does not list.
 */
module ConfigBindings {
  import opened Common
  import opened ConfigTables
  import ConfigUpstreams

  type Key = (Id, string)

  function KeyOf(row: Binding): Key { (row.routeId, row.plugin) }

  // ---------- 5a and 5c: soft deletion ----------

  /** Exactly the live bindings of `routes` whose key is not in `listed` became deleted; nothing else changed. */
  ghost predicate BindingsDropped(db: Db, routes: set<Id>, listed: set<Key>, db': Db) {
    && db' == db.(bindings := db'.bindings)
    && db'.bindings.Keys == db.bindings.Keys
    && (forall k :: k in db.bindings ==> db'.bindings[k] == AfterDrop(db.bindings[k], routes, listed))
  }

  function AfterDrop(row: Binding, routes: set<Id>, listed: set<Key>): Binding {
    if row.routeId in routes && KeyOf(row) !in listed then row.(deleted := true) else row
  }

  method DropUnlisted(db: Db, routes: set<Id>, listed: set<Key>) returns (db': Db)
    ensures BindingsDropped(db, routes, listed, db')
  {
    db' := db;
    var todo, done := routes, {};
    while todo != {}
      invariant todo + done == routes
      invariant BindingsDropped(db, done, listed, db')
    {
      var r :| r in todo;
      DropOne(db, done, listed, db', r);
      db' := db'.(bindings := Dropping(db'.bindings, r, listed));
      todo, done := todo - {r}, done + {r};
    }
    assert done == routes;
  }

  function Dropping(rows: map<Id, Binding>, r: Id, listed: set<Key>): map<Id, Binding> {
    map k | k in rows :: AfterDrop(rows[k], {r}, listed)
  }

  lemma DropOne(db: Db, done: set<Id>, listed: set<Key>, mid: Db, r: Id)
    requires BindingsDropped(db, done, listed, mid)
    ensures BindingsDropped(db, done + {r}, listed, mid.(bindings := Dropping(mid.bindings, r, listed)))
  {
  }

  // ---------- 5b: upsert ----------

  ghost predicate BindingUpserted(db: Db, b: BindingDto, route: Id, db': Db, id: Id) {
    && db' == db.(bindings := db.bindings[id := BindingRow(b, route)])
    && if id in db.bindings then ActiveBinding(db, id) && KeyOf(db.bindings[id]) == (route, b.plugin)
       else forall k :: ActiveBinding(db, k) ==> KeyOf(db.bindings[k]) != (route, b.plugin)
  }

  method UpsertBinding(db: Db, b: BindingDto, route: Id) returns (db': Db, id: Id)
    ensures BindingUpserted(db, b, route, db', id)
  {
    if k :| k in db.bindings && !db.bindings[k].deleted && KeyOf(db.bindings[k]) == (route, b.plugin) {
      id := k;
      var row := db.bindings[id].(config := b.config, order := b.order, blocking := b.blocking, enabled := b.enabled);
      db' := db.(bindings := db.bindings[id := row]);
    } else {
      assert forall k :: ActiveBinding(db, k) ==> KeyOf(db.bindings[k]) != (route, b.plugin);
      id := ConfigUpstreams.NextKey(db.bindings.Keys);
      db' := db.(bindings := db.bindings[id := BindingRow(b, route)]);
    }
  }

  /** Every listed binding has a live row, and each live row with a listed key holds that binding. */
  ghost predicate BindingsUpserted(
    db: Db, bs: seq<BindingDto>, routeIds: map<Id, Id>, db': Db, listed: set<Key>)
  {
    && BindingsFrame(db, db', listed) && UniqueBindings(db')
    && (forall b :: b in bs ==> b.routeId in routeIds)
    && (forall b :: b in bs ==> (routeIds[b.routeId], b.plugin) in listed)
    && (forall key :: key in listed ==> exists b :: b in bs && (routeIds[b.routeId], b.plugin) == key)
    && (forall b :: b in bs ==> BindingPlaced(db', b, routeIds[b.routeId]))
  }

  ghost predicate BindingsFrame(db: Db, db': Db, listed: set<Key>) {
    && db' == db.(bindings := db'.bindings)
    && (forall k :: k in db.bindings ==>
          k in db'.bindings && KeyOf(db'.bindings[k]) == KeyOf(db.bindings[k]))
    && (forall k :: k in db.bindings && (db.bindings[k].deleted || KeyOf(db.bindings[k]) !in listed) ==>
          db'.bindings[k] == db.bindings[k])
    && (forall k :: k in db.bindings && !db.bindings[k].deleted ==> !db'.bindings[k].deleted)
    && (forall k :: k in db'.bindings && k !in db.bindings ==>
          KeyOf(db'.bindings[k]) in listed && !db'.bindings[k].deleted)
  }

  ghost predicate BindingPlaced(db: Db, b: BindingDto, route: Id) {
    exists k :: k in db.bindings && db.bindings[k] == BindingRow(b, route)
  }

  method UpsertBindings(db: Db, bs: seq<BindingDto>, routeIds: map<Id, Id>)
    returns (r: Result<(Db, set<Key>), string>)
    ensures r.Ok? <==> forall b :: b in bs ==> b.routeId in routeIds
    ensures r.Ok? ==> r.value.0 == db.(bindings := r.value.0.bindings)
    ensures r.Ok? && UniqueBindings(db) && DistinctBindings(bs) && Injective(routeIds)
            ==> BindingsUpserted(db, bs, routeIds, r.value.0, r.value.1)
  {
    var db', listed: set<Key> := db, {};
    for i := 0 to |bs|
      invariant db' == db.(bindings := db'.bindings)
      invariant forall b :: b in bs[..i] ==> b.routeId in routeIds
      invariant UniqueBindings(db) && DistinctBindings(bs) && Injective(routeIds)
                ==> BindingsUpserted(db, bs[..i], routeIds, db', listed)
    {
      var b := bs[i];
      if b.routeId !in routeIds {
        return Err("binding route not found in snapshot routes");
      }
      var next, id := UpsertBinding(db', b, routeIds[b.routeId]);
      if UniqueBindings(db) && DistinctBindings(bs) && Injective(routeIds) {
        UpsertBindingStep(db, bs, i, routeIds, db', listed, next, id);
      }
      assert bs[..i + 1] == bs[..i] + [b];
      db', listed := next, listed + {(routeIds[b.routeId], b.plugin)};
    }
    assert bs[..|bs|] == bs;
    r := Ok((db', listed));
  }

  ghost predicate Injective(m: map<Id, Id>) {
    forall i, j :: i in m && j in m && m[i] == m[j] ==> i == j
  }

  lemma UpsertBindingStep(
    db: Db, bs: seq<BindingDto>, i: nat, routeIds: map<Id, Id>, mid: Db, listed: set<Key>, next: Db, id: Id)
    requires i < |bs| && bs[i].routeId in routeIds
    requires UniqueBindings(db) && DistinctBindings(bs) && Injective(routeIds)
    requires BindingsUpserted(db, bs[..i], routeIds, mid, listed)
    requires BindingUpserted(mid, bs[i], routeIds[bs[i].routeId], next, id)
    ensures BindingsUpserted(db, bs[..i + 1], routeIds, next, listed + {(routeIds[bs[i].routeId], bs[i].plugin)})
  {
    var b, key := bs[i], (routeIds[bs[i].routeId], bs[i].plugin);
    BindingsPrefix(bs, i);
    BindingsFrameStep(db, mid, listed, b, key.0, next, id);
    UniqueStep(mid, b, key.0, next, id);
    assert next.bindings[id] == BindingRow(b, key.0);
    OthersPlaced(bs, i, routeIds, mid, next, id);
    forall x | x in listed + {key} ensures exists v :: v in bs[..i + 1] && (routeIds[v.routeId], v.plugin) == x {
      if x == key { assert b in bs[..i + 1]; }
    }
  }

  lemma BindingsPrefix(bs: seq<BindingDto>, i: nat)
    requires i < |bs|
    ensures forall v :: v in bs[..i + 1] <==> v in bs[..i] || v == bs[i]
    ensures DistinctBindings(bs) ==> forall v :: v in bs[..i] ==> v.routeId != bs[i].routeId || v.plugin != bs[i].plugin
  {
    assert bs[..i + 1] == bs[..i] + [bs[i]];
  }

  lemma BindingsFrameStep(db: Db, mid: Db, listed: set<Key>, b: BindingDto, route: Id, next: Db, id: Id)
    requires BindingsFrame(db, mid, listed) && BindingUpserted(mid, b, route, next, id)
    ensures BindingsFrame(db, next, listed + {(route, b.plugin)})
  {
    var listed' := listed + {(route, b.plugin)};
    assert KeyOf(next.bindings[id]) in listed';
  }

  lemma UniqueStep(mid: Db, b: BindingDto, route: Id, next: Db, id: Id)
    requires UniqueBindings(mid) && BindingUpserted(mid, b, route, next, id)
    ensures UniqueBindings(next)
  {
  }

  lemma OthersPlaced(bs: seq<BindingDto>, i: nat, routeIds: map<Id, Id>, mid: Db, next: Db, id: Id)
    requires i < |bs| && DistinctBindings(bs) && Injective(routeIds) && bs[i].routeId in routeIds
    requires BindingUpserted(mid, bs[i], routeIds[bs[i].routeId], next, id)
    requires forall v :: v in bs[..i] ==> v.routeId in routeIds && BindingPlaced(mid, v, routeIds[v.routeId])
    ensures forall v :: v in bs[..i] ==> BindingPlaced(next, v, routeIds[v.routeId])
  {
    forall v | v in bs[..i] ensures BindingPlaced(next, v, routeIds[v.routeId]) {
      var k :| k in mid.bindings && mid.bindings[k] == BindingRow(v, routeIds[v.routeId]);
      BindingsPrefix(bs, i);
      assert KeyOf(mid.bindings[k]) != (routeIds[bs[i].routeId], bs[i].plugin);
      assert next.bindings[k] == mid.bindings[k];
    }
  }

  // ---------- 5b and 5c together ----------

  lemma ListedKept(
    db: Db, bs: seq<BindingDto>, routeIds: map<Id, Id>, mid: Db, listed: set<Key>, db': Db, b: BindingDto)
    requires BindingsUpserted(db, bs, routeIds, mid, listed) && BindingsDropped(mid, routeIds.Values, listed, db')
    requires b in bs
    ensures BindingPlaced(db', b, routeIds[b.routeId])
  {
    var k :| k in mid.bindings && mid.bindings[k] == BindingRow(b, routeIds[b.routeId]);
    assert db'.bindings[k] == mid.bindings[k];
  }

  lemma LiveIsListed(
    db: Db, bs: seq<BindingDto>, routeIds: map<Id, Id>, mid: Db, listed: set<Key>, db': Db, route: Id, k: Id)
    requires BindingsUpserted(db, bs, routeIds, mid, listed) && BindingsDropped(mid, routeIds.Values, listed, db')
    requires Injective(routeIds) && route in routeIds
    requires ActiveBinding(db', k) && db'.bindings[k].routeId == routeIds[route]
    ensures exists b :: b in bs && b.routeId == route && db'.bindings[k] == BindingRow(b, routeIds[route])
  {
    var row := mid.bindings[k];
    assert KeyOf(row) in listed;
    var b :| b in bs && (routeIds[b.routeId], b.plugin) == KeyOf(row);
    assert BindingPlaced(mid, b, routeIds[route]);
    var j :| j in mid.bindings && mid.bindings[j] == BindingRow(b, routeIds[route]);
    assert ActiveBinding(mid, j) && ActiveBinding(mid, k) && SameKey(mid.bindings[j], row);
  }

  lemma UniqueAfterDrop(db: Db, routes: set<Id>, listed: set<Key>, db': Db)
    requires UniqueBindings(db) && BindingsDropped(db, routes, listed, db')
    ensures UniqueBindings(db')
  {
    assert forall k :: ActiveBinding(db', k) ==> ActiveBinding(db, k) && db'.bindings[k] == db.bindings[k];
  }

  lemma RoutesStayReferenced(
    db: Db, bs: seq<BindingDto>, routeIds: map<Id, Id>, mid: Db, listed: set<Key>, k: Id)
    requires BindingsUpserted(db, bs, routeIds, mid, listed) && k in mid.bindings
    ensures (k in db.bindings && mid.bindings[k].routeId == db.bindings[k].routeId)
            || mid.bindings[k].routeId in routeIds.Values
  {
    if k !in db.bindings {
      assert KeyOf(mid.bindings[k]) in listed;
    }
  }

  // ---------- what becomes of every row ----------

  /** Live rows with a listed key hold the listed binding. */
  lemma LiveHolds(db: Db, bs: seq<BindingDto>, routeIds: map<Id, Id>, mid: Db, listed: set<Key>, k: Id, b: BindingDto)
    requires BindingsUpserted(db, bs, routeIds, mid, listed) && ActiveBinding(mid, k) && b in bs
    requires KeyOf(mid.bindings[k]) == (routeIds[b.routeId], b.plugin)
    ensures mid.bindings[k] == BindingRow(b, routeIds[b.routeId])
  {
    assert BindingPlaced(mid, b, routeIds[b.routeId]);
    var j :| j in mid.bindings && mid.bindings[j] == BindingRow(b, routeIds[b.routeId]);
    assert ActiveBinding(mid, j) && SameKey(mid.bindings[j], mid.bindings[k]);
  }

  /** Outside the routes that went and the routes of the snapshot, a binding stays as it is. */
  lemma OutsideStays(
    db: Db, gone: set<Id>, x: Db, bs: seq<BindingDto>, routeIds: map<Id, Id>, y: Db, listed: set<Key>, z: Db, k: Id)
    requires BindingsDropped(db, gone, {}, x) && BindingsUpserted(x, bs, routeIds, y, listed)
    requires BindingsDropped(y, routeIds.Values, listed, z) && k in db.bindings
    requires db.bindings[k].deleted || (db.bindings[k].routeId !in gone && db.bindings[k].routeId !in routeIds.Values)
    ensures k in z.bindings && z.bindings[k] == db.bindings[k]
  {
    assert x.bindings[k] == db.bindings[k];
    if !db.bindings[k].deleted { NotListed(x, bs, routeIds, y, listed, KeyOf(x.bindings[k])); }
    assert y.bindings[k] == x.bindings[k];
  }

  lemma NotListed(db: Db, bs: seq<BindingDto>, routeIds: map<Id, Id>, mid: Db, listed: set<Key>, key: Key)
    requires BindingsUpserted(db, bs, routeIds, mid, listed) && key.0 !in routeIds.Values
    ensures key !in listed
  {
  }

  lemma GoneGoes(
    db: Db, gone: set<Id>, x: Db, bs: seq<BindingDto>, routeIds: map<Id, Id>, y: Db, listed: set<Key>, z: Db, k: Id)
    requires BindingsDropped(db, gone, {}, x) && BindingsUpserted(x, bs, routeIds, y, listed)
    requires BindingsDropped(y, routeIds.Values, listed, z) && k in db.bindings && db.bindings[k].routeId in gone
    ensures k in z.bindings && z.bindings[k] == db.bindings[k].(deleted := true)
  {
    assert x.bindings[k] == db.bindings[k].(deleted := true);
    assert y.bindings[k] == x.bindings[k];
  }

  /** On a route of the snapshot, a live binding takes the listed values, or goes. */
  lemma InsideListedOrGone(
    db: Db, gone: set<Id>, x: Db, bs: seq<BindingDto>, routeIds: map<Id, Id>, y: Db, listed: set<Key>, z: Db, k: Id)
    requires BindingsDropped(db, gone, {}, x) && BindingsUpserted(x, bs, routeIds, y, listed)
    requires BindingsDropped(y, routeIds.Values, listed, z) && ActiveBinding(db, k)
    requires db.bindings[k].routeId in routeIds.Values && db.bindings[k].routeId !in gone
    ensures k in z.bindings
    ensures KeyOf(db.bindings[k]) !in listed ==> z.bindings[k] == db.bindings[k].(deleted := true)
    ensures forall b :: b in bs && KeyOf(db.bindings[k]) == (routeIds[b.routeId], b.plugin) ==>
              z.bindings[k] == BindingRow(b, db.bindings[k].routeId)
  {
    assert x.bindings[k] == db.bindings[k];
    forall b | b in bs && KeyOf(db.bindings[k]) == (routeIds[b.routeId], b.plugin)
      ensures z.bindings[k] == BindingRow(b, db.bindings[k].routeId)
    {
      LiveHolds(x, bs, routeIds, y, listed, k, b);
    }
  }

  lemma NewHolds(
    db: Db, gone: set<Id>, x: Db, bs: seq<BindingDto>, routeIds: map<Id, Id>, y: Db, listed: set<Key>, z: Db, k: Id)
    requires BindingsDropped(db, gone, {}, x) && BindingsUpserted(x, bs, routeIds, y, listed)
    requires BindingsDropped(y, routeIds.Values, listed, z) && k in z.bindings && k !in db.bindings
    ensures exists b :: b in bs && z.bindings[k] == BindingRow(b, z.bindings[k].routeId)
  {
    var key := KeyOf(y.bindings[k]);
    var b :| b in bs && (routeIds[b.routeId], b.plugin) == key;
    LiveHolds(x, bs, routeIds, y, listed, k, b);
  }
}
