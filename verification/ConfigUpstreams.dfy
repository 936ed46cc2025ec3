/**
 Phases 1 and 2 of applying a snapshot: upsert the upstreams by name, replace the nodes of
 those that exist, and soft-delete the upstreams the snapshot does not name.
 */
module ConfigUpstreams {
  import opened ConfigTables

  /** The next auto-increment key. */
  method NextKey(keys: set<Id>) returns (key: Id)
    ensures forall k :: k in keys ==> k < key
  {
    key := 1;
    var todo := keys;
    while todo != {}
      invariant todo <= keys
      invariant forall k :: k in keys && k !in todo ==> k < key
    {
      var k :| k in todo;
      if key <= k { key := k + 1; }
      todo := todo - {k};
    }
  }

  // ---------- nodes of one upstream ----------

  /** Between `db` and `db'` only node rows change, and only those of the upstreams in `ups`. */
  ghost predicate NodesFrame(db: Db, db': Db, ups: set<Id>) {
    && (forall n :: n in db.nodes ==>
          && n in db'.nodes && db'.nodes[n].upstreamId == db.nodes[n].upstreamId
          && (db.nodes[n].upstreamId !in ups ==> db'.nodes[n] == db.nodes[n]))
    && (forall n :: n in db'.nodes && n !in db.nodes ==> db'.nodes[n].upstreamId in ups)
  }

  /** The nodes the upstreams in `ups` had are deleted. */
  ghost predicate OldNodesGone(db: Db, db': Db, ups: set<Id>) {
    forall n :: n in db.nodes && db.nodes[n].upstreamId in ups ==>
      n in db'.nodes && db'.nodes[n] == db.nodes[n].(deleted := true)
  }

  lemma NodesAreFramed(db: Db, db': Db, ups: set<Id>, up: Id, nodes: seq<NodeDto>)
    requires NodesFrame(db, db', ups) && up !in ups && NodesAre(db, up, nodes)
    ensures NodesAre(db', up, nodes)
  {
    var ids :| NodesListed(db, up, nodes, ids);
    assert NodesListed(db', up, nodes, ids);
  }

  lemma NodesFrameComposes(db: Db, mid: Db, db': Db, first: set<Id>, second: set<Id>)
    requires NodesFrame(db, mid, first) && NodesFrame(mid, db', second)
    ensures NodesFrame(db, db', first + second)
  {
  }

  function SoftDeleteNodes(nodes: map<Id, Node>, up: Id): map<Id, Node> {
    map n | n in nodes :: if nodes[n].upstreamId == up then nodes[n].(deleted := true) else nodes[n]
  }

  method ReplaceNodes(db: Db, up: Id, nodes: seq<NodeDto>) returns (db': Db)
    ensures db' == db.(nodes := db'.nodes)
    ensures NodesFrame(db, db', {up}) && OldNodesGone(db, db', {up})
    ensures NodesAre(db', up, nodes)
  {
    db' := db.(nodes := SoftDeleteNodes(db.nodes, up));
    ghost var ids: seq<Id> := [];
    for i := 0 to |nodes|
      invariant db' == db.(nodes := db'.nodes)
      invariant NodesFrame(db, db', {up}) && OldNodesGone(db, db', {up})
      invariant NodesListed(db', up, nodes[..i], ids)
    {
      var key := NextKey(db'.nodes.Keys);
      NodeAppended(db', up, nodes[..i], ids, key, nodes[i]);
      FrameAppended(db, db', up, key, nodes[i]);
      db' := db'.(nodes := db'.nodes[key := NodeRow(up, nodes[i])]);
      ids := ids + [key];
      assert nodes[..i + 1] == nodes[..i] + [nodes[i]];
    }
    assert nodes[..|nodes|] == nodes;
  }

  function NodeRow(up: Id, n: NodeDto): Node { Node(up, n.address, n.weight, n.enabled, false) }

  lemma NodeAppended(db: Db, up: Id, nodes: seq<NodeDto>, ids: seq<Id>, key: Id, n: NodeDto)
    requires NodesListed(db, up, nodes, ids) && forall k :: k in db.nodes ==> k < key
    ensures NodesListed(db.(nodes := db.nodes[key := NodeRow(up, n)]), up, nodes + [n], ids + [key])
  {
    var next := db.(nodes := db.nodes[key := NodeRow(up, n)]);
    forall id | ActiveNode(next, id) && next.nodes[id].upstreamId == up ensures id in ids + [key] {
      if id != key { assert ActiveNode(db, id); }
    }
  }

  lemma FrameAppended(db: Db, mid: Db, up: Id, key: Id, n: NodeDto)
    requires NodesFrame(db, mid, {up}) && OldNodesGone(db, mid, {up}) && key !in mid.nodes
    ensures NodesFrame(db, mid.(nodes := mid.nodes[key := NodeRow(up, n)]), {up})
    ensures OldNodesGone(db, mid.(nodes := mid.nodes[key := NodeRow(up, n)]), {up})
  {
  }

  // ---------- phase 1: upsert ----------

  /** The row with key `id` is the live upstream named `u.name` if there was one, else a new row. */
  ghost predicate UpstreamUpserted(db: Db, u: UpstreamDto, db': Db, id: Id) {
    && db' == db.(upstreams := db.upstreams[id := UpstreamRow(u)], nodes := db'.nodes)
    && if id in db.upstreams
       then ActiveUpstream(db, id) && db.upstreams[id].name == u.name
            && NodesFrame(db, db', {id}) && OldNodesGone(db, db', {id}) && NodesAre(db', id, u.nodes)
       else db'.nodes == db.nodes && forall k :: ActiveUpstream(db, k) ==> db.upstreams[k].name != u.name
  }

  method UpsertUpstream(db: Db, u: UpstreamDto) returns (db': Db, id: Id)
    ensures UpstreamUpserted(db, u, db', id)
  {
    if k :| k in db.upstreams && !db.upstreams[k].deleted && db.upstreams[k].name == u.name {
      id := k;
      var row := db.upstreams[id].(algorithm := AlgorithmCode(u.algorithm), retryEnabled := u.retryEnabled);
      db' := ReplaceNodes(db.(upstreams := db.upstreams[id := row]), id, u.nodes);
    } else {
      assert forall k :: ActiveUpstream(db, k) ==> db.upstreams[k].name != u.name;
      id := NextKey(db.upstreams.Keys);
      db' := db.(upstreams := db.upstreams[id := UpstreamRow(u)]);
    }
  }

  ghost function UpstreamKeys(ups: seq<UpstreamDto>): set<Id> { set u | u in ups :: u.id }

  lemma PrefixStep(ups: seq<UpstreamDto>, i: nat)
    requires i < |ups|
    ensures ups[..i + 1] == ups[..i] + [ups[i]]
    ensures UpstreamKeys(ups[..i + 1]) == UpstreamKeys(ups[..i]) + {ups[i].id}
    ensures forall v :: v in ups[..i + 1] <==> v in ups[..i] || v == ups[i]
    ensures DistinctUpstreams(ups) ==> ups[i].id !in UpstreamKeys(ups[..i])
    ensures DistinctUpstreams(ups) ==> forall v :: v in ups[..i] ==> v.name != ups[i].name
  {
    assert ups[..i + 1] == ups[..i] + [ups[i]];
  }

  /** `ids` sends each snapshot key to the row that now holds that upstream. */
  ghost predicate UpstreamsUpserted(db: Db, ups: seq<UpstreamDto>, db': Db, ids: map<Id, Id>) {
    && UpstreamsFrame(db, db', ids.Values)
    && ids.Keys == UpstreamKeys(ups) && OldNodesGone(db, db', ids.Values)
    && (forall u :: u in ups ==> UpstreamPlaced(db, u, db', ids[u.id]))
  }

  ghost predicate UpstreamsFrame(db: Db, db': Db, changed: set<Id>) {
    && db' == db.(upstreams := db'.upstreams, nodes := db'.nodes)
    && db'.upstreams.Keys == db.upstreams.Keys + changed
    && (forall k :: k in db.upstreams && k !in changed ==> db'.upstreams[k] == db.upstreams[k])
    && NodesFrame(db, db', changed)
  }

  lemma UpstreamsFrameStep(db: Db, mid: Db, changed: set<Id>, u: UpstreamDto, next: Db, id: Id)
    requires UpstreamsFrame(db, mid, changed) && UpstreamUpserted(mid, u, next, id)
    ensures UpstreamsFrame(db, next, changed + {id}) && NodesFrame(mid, next, {id})
  {
    assert NodesFrame(mid, next, {id});
    NodesFrameComposes(db, mid, next, changed, {id});
    assert next.upstreams.Keys == mid.upstreams.Keys + {id};
  }

  ghost predicate UpstreamPlaced(db: Db, u: UpstreamDto, db': Db, id: Id) {
    && id in db'.upstreams && db'.upstreams[id] == UpstreamRow(u)
    && if id in db.upstreams
       then NamedUpstream(db, id, u.name) && NodesAre(db', id, u.nodes)
       else (forall k :: !NamedUpstream(db, k, u.name)) && NodesAre(db', id, [])
  }

  method UpsertUpstreams(db: Db, ups: seq<UpstreamDto>) returns (db': Db, ids: map<Id, Id>)
    ensures ids.Keys == UpstreamKeys(ups)
    ensures db' == db.(upstreams := db'.upstreams, nodes := db'.nodes)
    ensures NodesHaveUpstreams(db) && DistinctUpstreams(ups) ==> UpstreamsUpserted(db, ups, db', ids)
  {
    db', ids := db, map[];
    for i := 0 to |ups|
      invariant ids.Keys == UpstreamKeys(ups[..i])
      invariant db' == db.(upstreams := db'.upstreams, nodes := db'.nodes)
      invariant NodesHaveUpstreams(db) && DistinctUpstreams(ups) ==> UpstreamsUpserted(db, ups[..i], db', ids)
    {
      var next, id := UpsertUpstream(db', ups[i]);
      if NodesHaveUpstreams(db) && DistinctUpstreams(ups) {
        UpsertUpstreamStep(db, ups, i, db', ids, next, id);
      }
      PrefixStep(ups, i);
      db', ids := next, ids[ups[i].id := id];
    }
    assert ups[..|ups|] == ups;
  }

  lemma UpsertUpstreamStep(db: Db, ups: seq<UpstreamDto>, i: nat, mid: Db, ids: map<Id, Id>, next: Db, id: Id)
    requires i < |ups| && NodesHaveUpstreams(db) && DistinctUpstreams(ups)
    requires UpstreamsUpserted(db, ups[..i], mid, ids)
    requires UpstreamUpserted(mid, ups[i], next, id)
    ensures UpstreamsUpserted(db, ups[..i + 1], next, ids[ups[i].id := id])
  {
    var u := ups[i];
    PrefixStep(ups, i);
    UpsertedUpstreamIsNew(db, ups, i, mid, ids, next, id);
    ValuesOfUpdate(ids, u.id, id);
    UpstreamsFrameStep(db, mid, ids.Values, u, next, id);
    UpsertedUpstreamPlaced(db, ups, i, mid, ids, next, id);
    OthersPlaced(db, ups[..i], mid, ids, next, id);
    OldNodesStep(db, mid, ids.Values, u, next, id);
    ExtendUpserted(db, ups, i, ids, next, id);
  }

  lemma OldNodesStep(db: Db, mid: Db, changed: set<Id>, u: UpstreamDto, next: Db, id: Id)
    requires NodesHaveUpstreams(db) && UpstreamsFrame(db, mid, changed) && OldNodesGone(db, mid, changed)
    requires UpstreamUpserted(mid, u, next, id) && id !in changed
    ensures OldNodesGone(db, next, changed + {id})
  {
    forall n | n in db.nodes && db.nodes[n].upstreamId in changed + {id}
      ensures n in next.nodes && next.nodes[n] == db.nodes[n].(deleted := true)
    {
      if db.nodes[n].upstreamId == id { assert mid.nodes[n] == db.nodes[n] && id in mid.upstreams; }
    }
  }

  lemma ExtendUpserted(db: Db, ups: seq<UpstreamDto>, i: nat, ids: map<Id, Id>, next: Db, id: Id)
    requires i < |ups| && ids.Keys == UpstreamKeys(ups[..i]) && ups[i].id !in ids
    requires UpstreamsFrame(db, next, ids[ups[i].id := id].Values)
    requires OldNodesGone(db, next, ids[ups[i].id := id].Values)
    requires forall v :: v in ups[..i] ==> UpstreamPlaced(db, v, next, ids[v.id])
    requires UpstreamPlaced(db, ups[i], next, id)
    ensures UpstreamsUpserted(db, ups[..i + 1], next, ids[ups[i].id := id])
  {
    var ids' := ids[ups[i].id := id];
    PrefixStep(ups, i);
    forall v | v in ups[..i + 1] ensures UpstreamPlaced(db, v, next, ids'[v.id]) {
      if v in ups[..i] { assert v.id in UpstreamKeys(ups[..i]) && ids'[v.id] == ids[v.id]; }
    }
    assert ids'.Keys == UpstreamKeys(ups[..i + 1]);
  }

  lemma ValuesOfUpdate(m: map<Id, Id>, k: Id, v: Id)
    requires k !in m
    ensures m[k := v].Values == m.Values + {v}
  {
    var m' := m[k := v];
    assert m'[k] == v;
    forall x | x in m.Values ensures x in m'.Values {
      var j :| j in m && m[j] == x;
      assert m'[j] == x;
    }
  }

  lemma OthersPlaced(db: Db, ups: seq<UpstreamDto>, mid: Db, ids: map<Id, Id>, next: Db, id: Id)
    requires UpstreamKeys(ups) <= ids.Keys && forall v :: v in ups ==> UpstreamPlaced(db, v, mid, ids[v.id])
    requires id in next.upstreams && next.upstreams == mid.upstreams[id := next.upstreams[id]]
    requires NodesFrame(mid, next, {id}) && id !in ids.Values
    ensures forall v :: v in ups ==> UpstreamPlaced(db, v, next, ids[v.id])
  {
    forall v | v in ups ensures UpstreamPlaced(db, v, next, ids[v.id]) {
      var at := ids[v.id];
      NodesAreFramed(mid, next, {id}, at, if at in db.upstreams then v.nodes else []);
    }
  }

  lemma UpsertedUpstreamIsNew(
    db: Db, ups: seq<UpstreamDto>, i: nat, mid: Db, ids: map<Id, Id>, next: Db, id: Id)
    requires i < |ups| && DistinctUpstreams(ups)
    requires UpstreamsUpserted(db, ups[..i], mid, ids)
    requires UpstreamUpserted(mid, ups[i], next, id)
    ensures id !in ids.Values
  {
    forall v | v in ups[..i] ensures ids[v.id] != id {
      assert UpstreamPlaced(db, v, mid, ids[v.id]) && v.name != ups[i].name;
    }
  }

  lemma UpsertedUpstreamPlaced(db: Db, ups: seq<UpstreamDto>, i: nat, mid: Db, ids: map<Id, Id>, next: Db, id: Id)
    requires i < |ups| && NodesHaveUpstreams(db) && DistinctUpstreams(ups)
    requires UpstreamsUpserted(db, ups[..i], mid, ids)
    requires UpstreamUpserted(mid, ups[i], next, id)
    requires id !in ids.Values
    ensures UpstreamPlaced(db, ups[i], next, id)
  {
    var u := ups[i];
    if id in mid.upstreams {
      assert mid.upstreams[id] == db.upstreams[id];
    } else {
      forall k ensures !NamedUpstream(db, k, u.name) {
        if NamedUpstream(db, k, u.name) {
          if k !in ids.Values { assert ActiveUpstream(mid, k); }
        }
      }
      assert NodesListed(next, id, [], []) by {
        forall n | ActiveNode(next, n) ensures next.nodes[n].upstreamId != id {
          assert n in mid.nodes;
          assert n in db.nodes || mid.nodes[n].upstreamId in ids.Values;
        }
      }
    }
  }

  // ---------- phase 2: prune ----------

  ghost predicate UpstreamsPruned(db: Db, names: set<string>, db': Db) {
    && db' == db.(upstreams := db'.upstreams, nodes := db'.nodes)
    && db'.upstreams.Keys == db.upstreams.Keys && db'.nodes.Keys == db.nodes.Keys
    && (forall k :: k in db.upstreams ==>
          db'.upstreams[k] == db.upstreams[k].(deleted := db.upstreams[k].deleted || Unnamed(db, names, k)))
    && (forall n :: n in db.nodes ==>
          db'.nodes[n] == db.nodes[n].(deleted := db.nodes[n].deleted || Unnamed(db, names, db.nodes[n].upstreamId)))
  }

  predicate Unnamed(db: Db, names: set<string>, k: Id) {
    k in db.upstreams && !db.upstreams[k].deleted && db.upstreams[k].name !in names
  }

  /** The upstream rows once those not in `todo` have been looked at. */
  ghost predicate RowsPruned(db: Db, names: set<string>, todo: set<Id>, rows: map<Id, Upstream>) {
    && rows.Keys == db.upstreams.Keys
    && forall k :: k in db.upstreams ==>
         rows[k] == db.upstreams[k].(deleted := db.upstreams[k].deleted || (Unnamed(db, names, k) && k !in todo))
  }

  /** Likewise the node rows. */
  ghost predicate NodesPruned(db: Db, names: set<string>, todo: set<Id>, rows: map<Id, Node>) {
    && rows.Keys == db.nodes.Keys
    && forall n :: n in db.nodes ==>
         var up := db.nodes[n].upstreamId;
         rows[n] == db.nodes[n].(deleted := db.nodes[n].deleted || (Unnamed(db, names, up) && up !in todo))
  }

  lemma RowDeleted(db: Db, names: set<string>, todo: set<Id>, rows: map<Id, Upstream>, k: Id)
    requires RowsPruned(db, names, todo, rows) && k in todo && Unnamed(db, names, k)
    ensures RowsPruned(db, names, todo - {k}, rows[k := rows[k].(deleted := true)])
  {
  }

  lemma NodesDeleted(db: Db, names: set<string>, todo: set<Id>, rows: map<Id, Node>, k: Id)
    requires NodesPruned(db, names, todo, rows) && k in todo && Unnamed(db, names, k)
    ensures NodesPruned(db, names, todo - {k}, SoftDeleteNodes(rows, k))
  {
  }

  lemma RowsKept(db: Db, names: set<string>, todo: set<Id>, ups: map<Id, Upstream>, nodes: map<Id, Node>, k: Id)
    requires RowsPruned(db, names, todo, ups) && NodesPruned(db, names, todo, nodes) && !Unnamed(db, names, k)
    ensures RowsPruned(db, names, todo - {k}, ups) && NodesPruned(db, names, todo - {k}, nodes)
  {
  }

  method PruneUpstreams(db: Db, names: set<string>) returns (db': Db)
    ensures UpstreamsPruned(db, names, db')
  {
    var ups, nodes := db.upstreams, db.nodes;
    var todo := set k | k in db.upstreams && !db.upstreams[k].deleted;
    while todo != {}
      invariant forall k :: k in todo ==> k in db.upstreams && !db.upstreams[k].deleted
      invariant RowsPruned(db, names, todo, ups) && NodesPruned(db, names, todo, nodes)
    {
      var k :| k in todo;
      if db.upstreams[k].name !in names {
        RowDeleted(db, names, todo, ups, k);
        NodesDeleted(db, names, todo, nodes, k);
        ups, nodes := ups[k := ups[k].(deleted := true)], SoftDeleteNodes(nodes, k);
      } else {
        RowsKept(db, names, todo, ups, nodes, k);
      }
      todo := todo - {k};
    }
    db' := db.(upstreams := ups, nodes := nodes);
  }

  // ---------- phases 1 and 2 together ----------

  function NamesOf(ups: seq<UpstreamDto>): set<string> { set u | u in ups :: u.name }

  lemma ValueIsPlaced(db: Db, ups: seq<UpstreamDto>, db': Db, ids: map<Id, Id>, id: Id)
    requires UpstreamsUpserted(db, ups, db', ids) && id in ids.Values
    ensures exists u :: u in ups && ids[u.id] == id && UpstreamPlaced(db, u, db', id)
  {
    var k :| k in ids && ids[k] == id;
    var u :| u in ups && u.id == k;
    assert UpstreamPlaced(db, u, db', ids[u.id]);
  }

  /** The live upstream rows at the end are the ones the snapshot was placed in. */
  lemma LiveIsPlaced(db: Db, ups: seq<UpstreamDto>, mid: Db, ids: map<Id, Id>, db': Db, id: Id)
    requires UniqueUpstreamNames(db) && UpstreamsUpserted(db, ups, mid, ids) && UpstreamsPruned(mid, NamesOf(ups), db')
    requires ActiveUpstream(db', id)
    ensures exists u ::
              u in ups && ids[u.id] == id && UpstreamPlaced(db, u, mid, id) && db'.upstreams[id] == UpstreamRow(u)
  {
    if id in ids.Values {
      ValueIsPlaced(db, ups, mid, ids, id);
    } else {
      assert !Unnamed(mid, NamesOf(ups), id);
      var u :| u in ups && u.name == mid.upstreams[id].name;
      assert UpstreamPlaced(db, u, mid, ids[u.id]) && NamedUpstream(db, id, u.name);
      assert false;
    }
  }

  lemma PlacedIsLive(db: Db, ups: seq<UpstreamDto>, mid: Db, ids: map<Id, Id>, db': Db, u: UpstreamDto)
    requires UpstreamsUpserted(db, ups, mid, ids) && UpstreamsPruned(mid, NamesOf(ups), db') && u in ups
    ensures ids[u.id] in db'.upstreams && db'.upstreams[ids[u.id]] == UpstreamRow(u)
  {
    assert UpstreamPlaced(db, u, mid, ids[u.id]);
    assert u.name in NamesOf(ups);
  }

  lemma PlacedNodesKept(db: Db, u: UpstreamDto, mid: Db, names: set<string>, db': Db, id: Id)
    requires UpstreamPlaced(db, u, mid, id) && UpstreamsPruned(mid, names, db') && u.name in names
    ensures NodesOutcome(db, u, db', id)
  {
    var dropped := set k | k in mid.upstreams && Unnamed(mid, names, k);
    assert NodesFrame(mid, db', dropped);
    NodesAreFramed(mid, db', dropped, id, if id in db.upstreams then u.nodes else []);
  }

  lemma NodesComeBack(db: Db, ups: seq<UpstreamDto>, mid: Db, ids: map<Id, Id>, db': Db, u: UpstreamDto, id: Id)
    requires UniqueUpstreamNames(db) && DistinctUpstreams(ups)
    requires UpstreamsUpserted(db, ups, mid, ids) && UpstreamsPruned(mid, NamesOf(ups), db')
    requires u in ups && NamedUpstream(db', id, u.name)
    ensures NodesOutcome(db, u, db', id)
  {
    LiveIsPlaced(db, ups, mid, ids, db', id);
    var v :| v in ups && ids[v.id] == id && UpstreamPlaced(db, v, mid, id) && db'.upstreams[id] == UpstreamRow(v);
    assert v == u;
    PlacedNodesKept(db, u, mid, NamesOf(ups), db', id);
  }

  lemma NamesStayUnique(db: Db, ups: seq<UpstreamDto>, mid: Db, ids: map<Id, Id>, db': Db)
    requires UniqueUpstreamNames(db) && DistinctUpstreams(ups)
    requires UpstreamsUpserted(db, ups, mid, ids) && UpstreamsPruned(mid, NamesOf(ups), db')
    ensures UniqueUpstreamNames(db')
  {
    forall i, j | ActiveUpstream(db', i) && ActiveUpstream(db', j) && db'.upstreams[i].name == db'.upstreams[j].name
      ensures i == j
    {
      LiveIsPlaced(db, ups, mid, ids, db', i);
      LiveIsPlaced(db, ups, mid, ids, db', j);
    }
  }

  lemma NodesKeepUpstreams(db: Db, ups: seq<UpstreamDto>, mid: Db, ids: map<Id, Id>, names: set<string>, db': Db)
    requires NodesHaveUpstreams(db) && UpstreamsUpserted(db, ups, mid, ids) && UpstreamsPruned(mid, names, db')
    ensures NodesHaveUpstreams(db')
  {
    forall n | n in db'.nodes ensures db'.nodes[n].upstreamId in db'.upstreams {
      assert n in db.nodes || mid.nodes[n].upstreamId in ids.Values;
    }
  }

  // ---------- what becomes of every row ----------

  /** A live upstream with a snapshot name is where that upstream was placed. */
  lemma NamedIsPlaced(db: Db, ups: seq<UpstreamDto>, mid: Db, ids: map<Id, Id>, id: Id, u: UpstreamDto)
    requires UniqueUpstreamNames(db) && UpstreamsUpserted(db, ups, mid, ids)
    requires u in ups && NamedUpstream(db, id, u.name)
    ensures id == ids[u.id]
  {
    assert UpstreamPlaced(db, u, mid, ids[u.id]);
  }

  lemma PlacedWasNamed(db: Db, ups: seq<UpstreamDto>, mid: Db, ids: map<Id, Id>, id: Id)
    requires UpstreamsUpserted(db, ups, mid, ids) && id in db.upstreams && id in ids.Values
    ensures !db.upstreams[id].deleted && exists u :: u in ups && u.name == db.upstreams[id].name
  {
    ValueIsPlaced(db, ups, mid, ids, id);
  }

  lemma UpstreamsFate(db: Db, s: Snapshot, mid: Db, ids: map<Id, Id>, db': Db, id: Id)
    requires UniqueUpstreamNames(db) && UpstreamsUpserted(db, s.upstreams, mid, ids)
    requires UpstreamsPruned(mid, NamesOf(s.upstreams), db') && id in db.upstreams
    ensures UpstreamFate(db, s, id, db')
  {
    if id in ids.Values { PlacedWasNamed(db, s.upstreams, mid, ids, id); }
    if !db.upstreams[id].deleted && NamesUpstream(s, db.upstreams[id].name) {
      var u :| u in s.upstreams && u.name == db.upstreams[id].name;
      NamedIsPlaced(db, s.upstreams, mid, ids, id, u);
      PlacedIsLive(db, s.upstreams, mid, ids, db', u);
    }
  }

  lemma NodesFate(db: Db, s: Snapshot, mid: Db, ids: map<Id, Id>, db': Db, n: Id)
    requires UniqueUpstreamNames(db) && NodesHaveUpstreams(db) && UpstreamsUpserted(db, s.upstreams, mid, ids)
    requires UpstreamsPruned(mid, NamesOf(s.upstreams), db') && n in db.nodes
    ensures NodeFate(db, n, db')
  {
    var up := db.nodes[n].upstreamId;
    if up in ids.Values {
      PlacedWasNamed(db, s.upstreams, mid, ids, up);
    } else if ActiveUpstream(db, up) {
      if u :| u in s.upstreams && u.name == db.upstreams[up].name {
        NamedIsPlaced(db, s.upstreams, mid, ids, up, u);
        assert false;
      }
      assert Unnamed(mid, NamesOf(s.upstreams), up);
    }
  }
}
