/**
 The four business tables that a configuration rollback rewrites, the snapshot it
 rewrites them from, and what it means for the one to restore the other.

 A table maps primary keys to rows. A row is never removed: deletion sets `deleted`
 (the program stamps `deleted_at`). Creation and update times carry no meaning here
 and are not modelled.
 */
module ConfigTables {
  import opened Common

  type Id = nat
  type Json = string

  datatype Algorithm = RoundRobin | WeightedRoundRobin | LeastConnections | ConsistentHash

  // The small-integer codes under which the tables store the two enumerations.
  function ProtocolCode(p: Protocol): int {
    match p case Http => 1 case WebSocket => 2 case TcpTunnel => 3
  }

  function ProtocolOf(code: int): Protocol {
    if code == 2 then WebSocket else if code == 3 then TcpTunnel else Http
  }

  function AlgorithmCode(a: Algorithm): int {
    match a case RoundRobin => 1 case WeightedRoundRobin => 2 case LeastConnections => 3 case ConsistentHash => 4
  }

  function AlgorithmOf(code: int): Algorithm {
    if code == 2 then WeightedRoundRobin
    else if code == 3 then LeastConnections
    else if code == 4 then ConsistentHash
    else RoundRobin
  }

  // ---------- rows ----------

  datatype Upstream = Upstream(name: string, algorithm: int, retryEnabled: bool, deleted: bool)

  datatype Node = Node(upstreamId: Id, address: string, weight: int, enabled: bool, deleted: bool)

  datatype Route = Route(
    name: string, protocol: int, conditions: Json, priority: int, upstreamId: Option<Id>,
    hostHeader: Option<string>, allowRetryNonIdempotent: bool, wsStripSensitiveHeaders: bool,
    enabled: bool, deleted: bool)

  datatype Binding = Binding(
    routeId: Id, plugin: string, config: Json, order: int, blocking: bool, enabled: bool, deleted: bool)

  datatype Db = Db(
    upstreams: map<Id, Upstream>, nodes: map<Id, Node>, routes: map<Id, Route>, bindings: map<Id, Binding>)

  // ---------- snapshot ----------

  datatype NodeDto = NodeDto(address: string, weight: int, enabled: bool)

  datatype UpstreamDto = UpstreamDto(
    id: Id, name: string, algorithm: Algorithm, retryEnabled: bool, nodes: seq<NodeDto>)

  datatype RouteDto = RouteDto(
    id: Id, name: string, protocol: Protocol, conditions: Json, priority: int, upstreamId: Option<Id>,
    hostHeader: Option<string>, allowRetryNonIdempotent: bool, wsStripSensitiveHeaders: bool, enabled: bool)

  datatype BindingDto = BindingDto(
    routeId: Id, plugin: string, config: Json, order: int, blocking: bool, enabled: bool)

  datatype Snapshot = Snapshot(
    routes: seq<RouteDto>, upstreams: seq<UpstreamDto>, bindings: seq<BindingDto>)

  // ---------- active rows ----------

  ghost predicate ActiveUpstream(db: Db, id: Id) { id in db.upstreams && !db.upstreams[id].deleted }

  ghost predicate ActiveNode(db: Db, id: Id) { id in db.nodes && !db.nodes[id].deleted }

  ghost predicate ActiveRoute(db: Db, id: Id) { id in db.routes && !db.routes[id].deleted }

  ghost predicate ActiveBinding(db: Db, id: Id) { id in db.bindings && !db.bindings[id].deleted }

  /** The live nodes of upstream `up` are `ids`, and their rows hold `nodes`. */
  ghost predicate NodesHeld(db: Db, up: Id, nodes: seq<NodeDto>, ids: seq<Id>) {
    && |ids| == |nodes|
    && (forall i, j :: 0 <= i < j < |ids| ==> ids[i] != ids[j])
    && (forall i :: 0 <= i < |ids| ==>
          ids[i] in db.nodes &&
          db.nodes[ids[i]] == Node(up, nodes[i].address, nodes[i].weight, nodes[i].enabled, false))
    && (forall id :: ActiveNode(db, id) && db.nodes[id].upstreamId == up ==> id in ids)
  }

  /** A query for the nodes of `up` may answer with `nodes`; it promises no order. */
  ghost predicate HasNodes(db: Db, up: Id, nodes: seq<NodeDto>) { exists ids :: NodesHeld(db, up, nodes, ids) }

  /** Besides, the keys are in increasing order. */
  ghost predicate NodesListed(db: Db, up: Id, nodes: seq<NodeDto>, ids: seq<Id>) {
    NodesHeld(db, up, nodes, ids) && forall i, j :: 0 <= i < j < |ids| ==> ids[i] < ids[j]
  }

  ghost predicate NodesAre(db: Db, up: Id, nodes: seq<NodeDto>) {
    exists ids :: NodesListed(db, up, nodes, ids)
  }

  // ---------- hypotheses ----------

  /** Active names and active (route, plugin) pairs are unique, and the foreign keys resolve. */
  ghost predicate Consistent(db: Db) {
    && UniqueUpstreamNames(db) && UniqueRouteNames(db) && UniqueBindings(db)
    && NodesHaveUpstreams(db) && BindingsHaveRoutes(db)
  }

  ghost predicate UniqueUpstreamNames(db: Db) {
    forall i, j ::
      ActiveUpstream(db, i) && ActiveUpstream(db, j) && db.upstreams[i].name == db.upstreams[j].name ==> i == j
  }

  ghost predicate UniqueRouteNames(db: Db) {
    forall i, j :: ActiveRoute(db, i) && ActiveRoute(db, j) && db.routes[i].name == db.routes[j].name ==> i == j
  }

  ghost predicate UniqueBindings(db: Db) {
    forall i, j :: (ActiveBinding(db, i) && ActiveBinding(db, j) && SameKey(db.bindings[i], db.bindings[j])) ==> i == j
  }

  predicate SameKey(x: Binding, y: Binding) {
    x.routeId == y.routeId && x.plugin == y.plugin
  }

  ghost predicate NodesHaveUpstreams(db: Db) {
    forall id :: id in db.nodes ==> db.nodes[id].upstreamId in db.upstreams
  }

  ghost predicate BindingsHaveRoutes(db: Db) {
    forall id :: id in db.bindings ==> db.bindings[id].routeId in db.routes
  }

  ghost predicate DistinctUpstreams(ups: seq<UpstreamDto>) {
    forall i, j :: 0 <= i < j < |ups| ==> ups[i].name != ups[j].name && ups[i].id != ups[j].id
  }

  ghost predicate DistinctRoutes(routes: seq<RouteDto>) {
    forall i, j :: 0 <= i < j < |routes| ==> routes[i].name != routes[j].name && routes[i].id != routes[j].id
  }

  ghost predicate DistinctBindings(bs: seq<BindingDto>) {
    forall i, j :: 0 <= i < j < |bs| ==> bs[i].routeId != bs[j].routeId || bs[i].plugin != bs[j].plugin
  }

  /** Names and keys do not repeat and every binding's route is there: what applying a snapshot needs. */
  ghost predicate Applicable(s: Snapshot) {
    && DistinctUpstreams(s.upstreams) && DistinctRoutes(s.routes) && DistinctBindings(s.bindings)
    && (forall b :: b in s.bindings ==> exists r :: r in s.routes && r.id == b.routeId)
  }

  ghost predicate ListsUpstream(s: Snapshot, sid: Id) { exists u :: u in s.upstreams && u.id == sid }

  /** Besides, every route's upstream is there. */
  ghost predicate SelfContained(s: Snapshot) {
    Applicable(s) && forall r :: r in s.routes && r.upstreamId.Some? ==> ListsUpstream(s, r.upstreamId.value)
  }

  // ---------- what restoring means ----------

  function UpstreamRow(u: UpstreamDto): Upstream {
    Upstream(u.name, AlgorithmCode(u.algorithm), u.retryEnabled, false)
  }

  function RouteRow(r: RouteDto, upstreamId: Option<Id>): Route {
    Route(r.name, ProtocolCode(r.protocol), r.conditions, r.priority, upstreamId, r.hostHeader,
          r.allowRetryNonIdempotent, r.wsStripSensitiveHeaders, r.enabled, false)
  }

  function BindingRow(b: BindingDto, routeId: Id): Binding {
    Binding(routeId, b.plugin, b.config, b.order, b.blocking, b.enabled, false)
  }

  /** Reference `up` is to the live upstream with the name that `sid` has in `s`. */
  ghost predicate PointsAt(db: Db, up: Option<Id>, s: Snapshot, sid: Id) {
    exists u, a ::
      u in s.upstreams && u.id == sid && up == Some(a) && ActiveUpstream(db, a) && db.upstreams[a].name == u.name
  }

  /** Row `id` holds route `r` of `s` field for field, and points at the live upstream of the same name; a
      route whose upstream the snapshot lacks points at none. */
  ghost predicate HoldsRoute(db: Db, id: Id, s: Snapshot, r: RouteDto) {
    && id in db.routes
    && db.routes[id] == RouteRow(r, db.routes[id].upstreamId)
    && if r.upstreamId.Some? && ListsUpstream(s, r.upstreamId.value)
       then PointsAt(db, db.routes[id].upstreamId, s, r.upstreamId.value)
       else db.routes[id].upstreamId == None
  }

  ghost predicate RoutesRestored(s: Snapshot, db: Db) {
    && (forall r :: r in s.routes ==> exists id :: HoldsRoute(db, id, s, r))
    && (forall id :: ActiveRoute(db, id) && db.routes[id].enabled ==>
          exists r :: r in s.routes && r.enabled && HoldsRoute(db, id, s, r))
  }

  ghost predicate UpstreamsRestored(s: Snapshot, db: Db) {
    && (forall u :: u in s.upstreams ==> exists id :: id in db.upstreams && db.upstreams[id] == UpstreamRow(u))
    && (forall id :: ActiveUpstream(db, id) ==>
          exists u :: u in s.upstreams && db.upstreams[id] == UpstreamRow(u))
  }

  ghost predicate BindingsRestored(s: Snapshot, db: Db) {
    forall r, id :: r in s.routes && HoldsRoute(db, id, s, r) ==> BindingsOfRoute(s, db, r, id)
  }

  /** The live bindings of row `id` are exactly those the snapshot lists for route `r`. */
  ghost predicate BindingsOfRoute(s: Snapshot, db: Db, r: RouteDto, id: Id) {
    && (forall b :: b in s.bindings && b.routeId == r.id ==>
          exists k :: k in db.bindings && db.bindings[k] == BindingRow(b, id))
    && (forall k :: ActiveBinding(db, k) && db.bindings[k].routeId == id ==>
          exists b :: b in s.bindings && b.routeId == r.id && db.bindings[k] == BindingRow(b, id))
  }

  ghost predicate NamedUpstream(db: Db, id: Id, name: string) {
    ActiveUpstream(db, id) && db.upstreams[id].name == name
  }

  ghost predicate NodesRestored(before: Db, s: Snapshot, db: Db) {
    forall u, id :: u in s.upstreams && NamedUpstream(db, id, u.name) ==> NodesOutcome(before, u, db, id)
  }

  /** An upstream that was live before keeps its key and gets the snapshot's node list;
      one that had to be created has no live node at all. */
  ghost predicate NodesOutcome(before: Db, u: UpstreamDto, db: Db, id: Id) {
    if exists k :: NamedUpstream(before, k, u.name)
    then NamedUpstream(before, id, u.name) && NodesAre(db, id, u.nodes)
    else id !in before.upstreams && NodesAre(db, id, [])
  }

  /** Active routes that the snapshot does not name and that are disabled are left alone. */
  ghost predicate DisabledRoutesKept(before: Db, s: Snapshot, db: Db) {
    forall id :: ActiveRoute(before, id) && !before.routes[id].enabled && !NamesRoute(s, before.routes[id].name) ==>
      id in db.routes && db.routes[id] == before.routes[id]
  }

  ghost predicate NamesRoute(s: Snapshot, name: string) {
    exists r :: r in s.routes && r.name == name
  }

  // ---------- what becomes of every row ----------

  /** A dead upstream stays as it is; a live one takes the snapshot's values or goes. */
  ghost predicate UpstreamFate(before: Db, s: Snapshot, id: Id, db: Db) {
    && id in before.upstreams && id in db.upstreams
    && if before.upstreams[id].deleted then db.upstreams[id] == before.upstreams[id]
       else if NamesUpstream(s, before.upstreams[id].name) then
         exists u :: u in s.upstreams && u.name == before.upstreams[id].name && db.upstreams[id] == UpstreamRow(u)
       else db.upstreams[id] == before.upstreams[id].(deleted := true)
  }

  ghost predicate NamesUpstream(s: Snapshot, name: string) { exists u :: u in s.upstreams && u.name == name }

  /** The nodes of a live upstream go, to be replaced or not; those of a dead one stay as they are. */
  ghost predicate NodeFate(before: Db, n: Id, db: Db) {
    && n in before.nodes && n in db.nodes
    && db.nodes[n] == if ActiveUpstream(before, before.nodes[n].upstreamId) then before.nodes[n].(deleted := true)
                      else before.nodes[n]
  }

  /** A dead route stays as it is; a live one takes the snapshot's values, or goes if it was enabled, or stays. */
  ghost predicate RouteFate(before: Db, s: Snapshot, id: Id, db: Db) {
    && id in before.routes && id in db.routes
    && if before.routes[id].deleted then db.routes[id] == before.routes[id]
       else if NamesRoute(s, before.routes[id].name) then
         exists r :: r in s.routes && r.name == before.routes[id].name && HoldsRoute(db, id, s, r)
       else db.routes[id] == before.routes[id].(deleted := before.routes[id].enabled)
  }

  /** The snapshot has binding `b` of `plugin` on the route named `route`. */
  ghost predicate ListsBinding(s: Snapshot, route: string, plugin: string, b: BindingDto) {
    b in s.bindings && b.plugin == plugin && exists r :: r in s.routes && r.id == b.routeId && r.name == route
  }

  /** A dead binding, or one on a dead route, stays as it is. A live one on a route the snapshot names takes
      the snapshot's values or goes; one on another route goes if the route was enabled, and stays if not. */
  ghost predicate BindingFate(before: Db, s: Snapshot, k: Id, db: Db) {
    && k in before.bindings && k in db.bindings
    && var row := before.bindings[k];
       if row.deleted || !ActiveRoute(before, row.routeId) then db.bindings[k] == row
       else if NamesRoute(s, before.routes[row.routeId].name) then
         ListedOrGone(s, before.routes[row.routeId].name, row, db.bindings[k])
       else db.bindings[k] == row.(deleted := before.routes[row.routeId].enabled)
  }

  ghost predicate ListedOrGone(s: Snapshot, route: string, row: Binding, after: Binding) {
    if exists b :: ListsBinding(s, route, row.plugin, b)
    then exists b :: ListsBinding(s, route, row.plugin, b) && after == BindingRow(b, row.routeId)
    else after == row.(deleted := true)
  }

  /** New rows hold what the snapshot lists. */
  ghost predicate NewRows(before: Db, s: Snapshot, db: Db) {
    && (forall id :: id in db.upstreams && id !in before.upstreams ==>
          exists u :: u in s.upstreams && db.upstreams[id] == UpstreamRow(u))
    && (forall id :: id in db.routes && id !in before.routes ==> exists r :: r in s.routes && HoldsRoute(db, id, s, r))
    && (forall k :: k in db.bindings && k !in before.bindings ==>
          exists b :: b in s.bindings && db.bindings[k] == BindingRow(b, db.bindings[k].routeId))
  }

  ghost predicate RowsAccounted(before: Db, s: Snapshot, db: Db) {
    && (forall id :: id in before.upstreams ==> UpstreamFate(before, s, id, db))
    && (forall n :: n in before.nodes ==> NodeFate(before, n, db))
    && (forall id :: id in before.routes ==> RouteFate(before, s, id, db))
    && (forall k :: k in before.bindings ==> BindingFate(before, s, k, db))
    && NewRows(before, s, db)
  }

  ghost predicate Restored(before: Db, s: Snapshot, db: Db) {
    && RoutesRestored(s, db) && UpstreamsRestored(s, db) && BindingsRestored(s, db)
    && NodesRestored(before, s, db) && DisabledRoutesKept(before, s, db) && RowsAccounted(before, s, db)
  }

  /** What applying a snapshot can make of the tables: nothing, exactly if a binding's route is missing. */
  ghost predicate MayApply(db: Db, s: Snapshot, after: Option<Db>) {
    && (after.None? <==> exists b :: b in s.bindings && forall r :: r in s.routes ==> r.id != b.routeId)
    && (Consistent(db) && Applicable(s) ==>
          after.Some? && Restored(db, s, after.value) && Consistent(after.value))
  }
}
