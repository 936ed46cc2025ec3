/**
 The route table: enabled routes whose expressions compile, grouped by protocol, sorted by
 priority and id, looked up by first match, with request headers parsed only on demand.
 */
module RouteTable {
  import opened Common
  import opened RouteMatch
  import opened Filtering
  import Sorting

  datatype Route = Route(id: nat, protocol: Protocol, upstreamId: Option<nat>, hostHeader: Option<Bytes>,
                         allowRetryNonIdempotent: bool, wsStripSensitiveHeaders: bool,
                         conditions: Conditions, priority: int, enabled: bool)

  datatype Binding = Binding(id: nat, routeId: nat, pluginName: Bytes, order: int, blocking: bool, enabled: bool)

  datatype Snapshot = Snapshot(id: nat, protocol: Protocol, upstreamId: Option<nat>, hostHeader: Option<Bytes>,
                               allowRetryNonIdempotent: bool, wsStripSensitiveHeaders: bool,
                               pluginChain: seq<Binding>, requiresBody: bool)

  datatype Entry = Entry(snapshot: Snapshot, conditions: Conditions, priority: int, compiled: Compiled)

  /** What a table is loaded from. */
  datatype Source = Source(rx: Engine, routes: seq<Route>, bindings: seq<Binding>, bodyPlugins: set<Bytes>)

  // ---------- what is loaded ----------

  predicate Loadable(rx: Engine, r: Route) { r.enabled && Compilable(rx, r.conditions) }

  /** The enabled bindings of a route, in order. */
  function BindingsOf(bindings: seq<Binding>, id: nat): (r: seq<Binding>)
    ensures forall b :: b in r <==> b in bindings && b.enabled && b.routeId == id
  {
    if bindings == [] then []
    else
      var b, rest := bindings[|bindings| - 1], BindingsOf(bindings[..|bindings| - 1], id);
      assert bindings == bindings[..|bindings| - 1] + [b];
      if b.enabled && b.routeId == id then rest + [b] else rest
  }

  /** The bindings route number `i` gets: its own, unless an earlier loaded route with its id took them. */
  function ChainAt(src: Source, i: nat): seq<Binding>
    requires i < |src.routes|
  {
    if Taken(src, i, src.routes[i].id) then [] else BindingsOf(src.bindings, src.routes[i].id)
  }

  predicate Taken(src: Source, n: nat, id: nat)
    requires n <= |src.routes|
  {
    exists j :: 0 <= j < n && Loadable(src.rx, src.routes[j]) && src.routes[j].id == id
  }

  function EntryOf(src: Source, r: Route, chain: seq<Binding>): Entry {
    var needsBody := exists b :: b in chain && b.pluginName in src.bodyPlugins;
    Entry(Snapshot(r.id, r.protocol, r.upstreamId, r.hostHeader, r.allowRetryNonIdempotent, r.wsStripSensitiveHeaders,
                   chain, needsBody),
          r.conditions, r.priority, Compile(src.rx, r.conditions))
  }

  /** The entries of one protocol from the first `n` routes, in list order. */
  function EntriesFor(src: Source, p: Protocol, n: nat): (es: seq<Entry>)
    requires n <= |src.routes|
    ensures forall e :: e in es ==> Aligned(e.conditions, e.compiled)
  {
    if n == 0 then []
    else
      var es, r := EntriesFor(src, p, n - 1), src.routes[n - 1];
      if Loadable(src.rx, r) && r.protocol == p then es + [EntryOf(src, r, ChainAt(src, n - 1))] else es
  }

  // ---------- sorting ----------

  /** Higher priority first, then smaller id. */
  predicate NotAfter(a: Entry, b: Entry) {
    a.priority > b.priority || (a.priority == b.priority && a.snapshot.id <= b.snapshot.id)
  }

  ghost predicate Sorted(es: seq<Entry>) { Sorting.Sorted(NotAfter, es) }

  function Sort(es: seq<Entry>): (r: seq<Entry>)
    ensures forall x :: x in r <==> x in es
  {
    Sorting.SortKeepsMembers(NotAfter, es);
    Sorting.Sort(NotAfter, es)
  }

  lemma SortSorts(es: seq<Entry>)
    ensures Sorted(Sort(es))
  {
    Sorting.SortSorts(NotAfter, es);
  }

  // ---------- lookup ----------

  function FirstMatch(rx: Engine, es: seq<Entry>, info: Info): (r: Option<Entry>)
    requires forall e :: e in es ==> Aligned(e.conditions, e.compiled)
  {
    if es == [] then None
    else if Matches(rx, es[0].conditions, es[0].compiled, info) then Some(es[0])
    else FirstMatch(rx, es[1..], info)
  }

  lemma {:induction false} FirstMatchIs(rx: Engine, es: seq<Entry>, info: Info)
    requires (forall e :: e in es ==> Aligned(e.conditions, e.compiled)) && Sorted(es)
    ensures FirstMatch(rx, es, info).None? <==> forall e :: e in es ==> !Matches(rx, e.conditions, e.compiled, info)
    ensures FirstMatch(rx, es, info).Some? ==>
              var m := FirstMatch(rx, es, info).value;
              && m in es && Matches(rx, m.conditions, m.compiled, info)
              && forall e :: e in es && Matches(rx, e.conditions, e.compiled, info) ==> NotAfter(m, e)
  {
    if es != [] {
      assert es == [es[0]] + es[1..];
      FirstMatchIs(rx, es[1..], info);
    }
  }

  // ---------- the table ----------

  datatype Table = Table(routes: map<Protocol, seq<Entry>>, needsHeaders: map<Protocol, bool>)

  function Group(routes: map<Protocol, seq<Entry>>, p: Protocol): seq<Entry> { if p in routes then routes[p] else [] }

  /** The table holds exactly the loadable routes of the source, sorted, and knows where headers matter. */
  ghost predicate Loaded(src: Source, t: Table) {
    && (forall p :: Group(t.routes, p) == Sort(EntriesFor(src, p, |src.routes|)))
    && (forall p :: p in t.needsHeaders ==> t.needsHeaders[p] == NeedsHeaders(Group(t.routes, p)))
    && t.needsHeaders.Keys == t.routes.Keys
  }

  predicate NeedsHeaders(es: seq<Entry>) { exists e :: e in es && e.conditions.headers != [] }

  /** An HTTP request with its headers and query as they would be parsed. */
  datatype Request = Request(path: Bytes, method_: Bytes, host: Option<Bytes>, headers: seq<Field>, query: seq<Field>)

  function InfoOf(req: Request, includeHeaders: bool): Info {
    Info(req.path, Some(req.method_), req.host, if includeHeaders then req.headers else [], req.query)
  }

  class RouteMatcher {
    var table: Table

    constructor ()
      ensures table == Table(map[], map[])
    {
      table := Table(map[], map[]);
    }

    /** The new table is built aside and put in place as a whole. */
    method LoadWithBindings(src: Source)
      modifies this
      ensures Loaded(src, table)
    {
      var routes := Grouped(src);
      var sorted := SortGroups(routes);
      var needs: map<Protocol, bool> := map p | p in sorted :: NeedsHeaders(sorted[p]);
      table := Table(sorted, needs);
    }

    method MatchRoute(ghost src: Source, rx: Engine, p: Protocol, info: Info) returns (r: Option<Snapshot>)
      requires Loaded(src, table) && rx == src.rx
      ensures r == Found(FirstMatch(rx, Sort(EntriesFor(src, p, |src.routes|)), info))
      ensures Answers(src, p, info, r)
    {
      LookupAnswers(src, p, info);
      if p !in table.routes { return None; }
      var es := table.routes[p];
      assert es == Group(table.routes, p);
      for i := 0 to |es|
        invariant FirstMatch(rx, es, info) == FirstMatch(rx, es[i..], info)
      {
        assert es[i] in es;
        if RouteMatch.Matches(rx, es[i].conditions, es[i].compiled, info) { return Some(es[i].snapshot); }
        assert es[i..][1..] == es[i + 1..];
      }
      r := None;
    }

    /** Headers are parsed only if some loaded HTTP route has a header condition. */
    method MatchHttpRequest(ghost src: Source, rx: Engine, req: Request) returns (r: Option<Snapshot>, info: Info)
      requires Loaded(src, table) && rx == src.rx
      ensures r == Found(FirstMatch(rx, Sort(EntriesFor(src, Http, |src.routes|)), info))
      ensures info == InfoOf(req, NeedsHeaders(Sort(EntriesFor(src, Http, |src.routes|))))
      ensures r == Found(FirstMatch(rx, Sort(EntriesFor(src, Http, |src.routes|)), InfoOf(req, true)))
      ensures Answers(src, Http, Info(req.path, Some(req.method_), req.host, req.headers, req.query), r)
    {
      LookupAnswers(src, Http, InfoOf(req, true));
      HeadersOnDemand(rx, Sort(EntriesFor(src, Http, |src.routes|)), req);
      assert Group(table.routes, Http) == Sort(EntriesFor(src, Http, |src.routes|));
      var needs := Http in table.needsHeaders && table.needsHeaders[Http];
      info := InfoOf(req, needs);
      r := MatchRoute(src, rx, Http, info);
    }
  }

  // ---------- building ----------

  function Found(e: Option<Entry>): Option<Snapshot> { if e.Some? then Some(e.value.snapshot) else None }

  function Chain(m: map<nat, seq<Binding>>, id: nat): seq<Binding> { if id in m then m[id] else [] }

  /** Bindings by route id, only the enabled ones. */
  method GroupBindings(bindings: seq<Binding>) returns (m: map<nat, seq<Binding>>)
    ensures forall id: nat :: Chain(m, id) == BindingsOf(bindings, id)
  {
    m := map[];
    for i := 0 to |bindings|
      invariant forall id: nat :: Chain(m, id) == BindingsOf(bindings[..i], id)
    {
      var b := bindings[i];
      assert bindings[..i + 1][..i] == bindings[..i];
      if b.enabled { m := m[b.routeId := Chain(m, b.routeId) + [b]]; }
    }
    assert bindings[..|bindings|] == bindings;
  }

  /** What is left of the bindings after the first `n` routes took theirs. */
  ghost predicate Unclaimed(src: Source, bound: map<nat, seq<Binding>>, n: nat)
    requires n <= |src.routes|
  {
    forall id: nat :: Chain(bound, id) == if Taken(src, n, id) then [] else BindingsOf(src.bindings, id)
  }

  lemma TakenStep(src: Source, n: nat, id: nat)
    requires n < |src.routes|
    ensures Taken(src, n + 1, id) <==> Taken(src, n, id) || (Loadable(src.rx, src.routes[n]) && src.routes[n].id == id)
  {
  }

  lemma UnclaimedStep(src: Source, bound: map<nat, seq<Binding>>, n: nat)
    requires n < |src.routes| && Unclaimed(src, bound, n)
    ensures Unclaimed(src, if Loadable(src.rx, src.routes[n]) then bound - {src.routes[n].id} else bound, n + 1)
  {
    var next := if Loadable(src.rx, src.routes[n]) then bound - {src.routes[n].id} else bound;
    forall id: nat ensures Chain(next, id) == if Taken(src, n + 1, id) then [] else BindingsOf(src.bindings, id) {
      TakenStep(src, n, id);
      assert Chain(bound, id) == if Taken(src, n, id) then [] else BindingsOf(src.bindings, id);
    }
  }

  method Grouped(src: Source) returns (routes: map<Protocol, seq<Entry>>)
    ensures forall p :: Group(routes, p) == EntriesFor(src, p, |src.routes|)
  {
    var bound := GroupBindings(src.bindings);
    assert Unclaimed(src, bound, 0);
    routes := map[];
    for i := 0 to |src.routes|
      invariant forall p :: Group(routes, p) == EntriesFor(src, p, i)
      invariant Unclaimed(src, bound, i)
    {
      var r := src.routes[i];
      UnclaimedStep(src, bound, i);
      if Loadable(src.rx, r) {
        var chain := Chain(bound, r.id);
        assert chain == ChainAt(src, i);
        bound := bound - {r.id};
        routes := routes[r.protocol := Group(routes, r.protocol) + [EntryOf(src, r, chain)]];
      }
    }
  }

  method SortGroups(routes: map<Protocol, seq<Entry>>) returns (sorted: map<Protocol, seq<Entry>>)
    ensures forall p :: Group(sorted, p) == Sort(Group(routes, p))
  {
    sorted := routes;
    var todo := routes.Keys;
    while todo != {}
      invariant todo <= routes.Keys && sorted.Keys == routes.Keys
      invariant forall p :: p in routes ==> sorted[p] == if p in todo then routes[p] else Sort(routes[p])
    {
      var p :| p in todo;
      sorted := sorted[p := Sort(sorted[p])];
      todo := todo - {p};
    }
  }

  // ---------- lookup is best match ----------

  /** Entry `e` is what route number `i` is loaded as. */
  ghost predicate LoadedAs(src: Source, p: Protocol, i: nat, e: Entry) {
    && i < |src.routes| && Loadable(src.rx, src.routes[i]) && src.routes[i].protocol == p
    && e == EntryOf(src, src.routes[i], ChainAt(src, i))
  }

  lemma {:induction false} EntriesAreRoutes(src: Source, p: Protocol, n: nat, e: Entry)
    requires n <= |src.routes|
    ensures e in EntriesFor(src, p, n) <==> exists i: nat :: i < n && LoadedAs(src, p, i, e)
  {
    if n > 0 {
      EntriesAreRoutes(src, p, n - 1, e);
      assert LoadedAs(src, p, n - 1, e) ==> e in EntriesFor(src, p, n);
    }
  }

  /** Route number `i` can be found for this protocol and holds of this request. */
  ghost predicate Candidate(src: Source, p: Protocol, info: Info, i: nat) {
    && i < |src.routes| && src.routes[i].enabled && Compilable(src.rx, src.routes[i].conditions)
    && src.routes[i].protocol == p && Holds(src.rx, src.routes[i].conditions, info)
  }

  predicate RouteNotAfter(a: Route, b: Route) { a.priority > b.priority || (a.priority == b.priority && a.id <= b.id) }

  /** Candidate `i` is not beaten by any other in priority or, at equal priority, in id. */
  ghost predicate Best(src: Source, p: Protocol, info: Info, i: nat) {
    && Candidate(src, p, info, i)
    && forall j: nat :: Candidate(src, p, info, j) ==> RouteNotAfter(src.routes[i], src.routes[j])
  }

  /** Lookup finds nothing exactly when no route is a candidate; otherwise it finds a best one. */
  lemma LookupIsBest(src: Source, p: Protocol, info: Info, r: Option<Entry>)
    requires r == FirstMatch(src.rx, Sort(EntriesFor(src, p, |src.routes|)), info)
    ensures r.None? <==> forall i: nat :: !Candidate(src, p, info, i)
    ensures r.Some? ==>
              exists i: nat :: Best(src, p, info, i) && r.value == EntryOf(src, src.routes[i], ChainAt(src, i))
  {
    SortSorts(EntriesFor(src, p, |src.routes|));
    FirstMatchIs(src.rx, Sort(EntriesFor(src, p, |src.routes|)), info);
    forall j: nat | Candidate(src, p, info, j) ensures r.Some? { CandidateIsEntry(src, p, info, j); }
    if r.Some? {
      var i := EntryIsCandidate(src, p, info, r.value);
      forall j: nat | Candidate(src, p, info, j) ensures RouteNotAfter(src.routes[i], src.routes[j]) {
        CandidateIsEntry(src, p, info, j);
        assert NotAfter(r.value, EntryOf(src, src.routes[j], ChainAt(src, j)));
      }
      assert Best(src, p, info, i);
    }
  }

  function OnRoute(id: nat): Binding -> bool { (b: Binding) => b.enabled && b.routeId == id }

  lemma {:induction false} BindingsOfKept(bindings: seq<Binding>, id: nat, keep: Binding -> bool)
    requires forall b :: keep(b) <==> b.enabled && b.routeId == id
    ensures BindingsOf(bindings, id) == Kept(keep, bindings)
  {
    if bindings != [] {
      var front, b := bindings[..|bindings| - 1], bindings[|bindings| - 1];
      BindingsOfKept(front, id, keep);
      assert front + [b] == bindings;
      KeptAppend(keep, front, b);
    }
  }

  /** Each enabled binding of the route once for each time it is listed, in order. */
  lemma BindingsOfIsKept(bindings: seq<Binding>, id: nat)
    ensures IsKept(OnRoute(id), bindings, BindingsOf(bindings, id))
  {
    KeptIs(OnRoute(id), bindings);
    BindingsOfKept(bindings, id, OnRoute(id));
  }

  /** What is found carries the route's own fields, its enabled bindings in order unless an earlier loaded route
      with its id took them, and asks for the body exactly when one of those needs it. */
  ghost predicate Carries(src: Source, i: nat, found: Snapshot) {
    && i < |src.routes| && found.id == src.routes[i].id && found.protocol == src.routes[i].protocol
    && found.upstreamId == src.routes[i].upstreamId && found.hostHeader == src.routes[i].hostHeader
    && found.allowRetryNonIdempotent == src.routes[i].allowRetryNonIdempotent
    && found.wsStripSensitiveHeaders == src.routes[i].wsStripSensitiveHeaders
    && (if Taken(src, i, src.routes[i].id) then found.pluginChain == []
        else IsKept(OnRoute(src.routes[i].id), src.bindings, found.pluginChain))
    && (found.requiresBody <==> exists b :: b in found.pluginChain && b.pluginName in src.bodyPlugins)
  }

  /** An answer to a request: nothing exactly when no route is a candidate, otherwise a best one. */
  ghost predicate Answers(src: Source, p: Protocol, info: Info, r: Option<Snapshot>) {
    && (r.None? <==> forall i: nat :: !Candidate(src, p, info, i))
    && (r.Some? ==> exists i: nat :: Best(src, p, info, i) && Carries(src, i, r.value))
  }

  lemma LookupAnswers(src: Source, p: Protocol, info: Info)
    ensures Answers(src, p, info, Found(FirstMatch(src.rx, Sort(EntriesFor(src, p, |src.routes|)), info)))
  {
    var e := FirstMatch(src.rx, Sort(EntriesFor(src, p, |src.routes|)), info);
    LookupIsBest(src, p, info, e);
    if e.Some? {
      var i: nat :| Best(src, p, info, i) && e.value == EntryOf(src, src.routes[i], ChainAt(src, i));
      BindingsOfIsKept(src.bindings, src.routes[i].id);
      assert Carries(src, i, e.value.snapshot);
    }
  }

  lemma CandidateIsEntry(src: Source, p: Protocol, info: Info, i: nat)
    requires Candidate(src, p, info, i)
    ensures var e := EntryOf(src, src.routes[i], ChainAt(src, i));
            e in Sort(EntriesFor(src, p, |src.routes|)) && RouteMatch.Matches(src.rx, e.conditions, e.compiled, info)
  {
    var e := EntryOf(src, src.routes[i], ChainAt(src, i));
    assert LoadedAs(src, p, i, e);
    EntriesAreRoutes(src, p, |src.routes|, e);
    CompiledAgrees(src.rx, e.conditions, info);
  }

  lemma EntryIsCandidate(src: Source, p: Protocol, info: Info, e: Entry) returns (i: nat)
    requires e in Sort(EntriesFor(src, p, |src.routes|)) && RouteMatch.Matches(src.rx, e.conditions, e.compiled, info)
    ensures Candidate(src, p, info, i) && e == EntryOf(src, src.routes[i], ChainAt(src, i))
  {
    EntriesAreRoutes(src, p, |src.routes|, e);
    i :| i < |src.routes| && LoadedAs(src, p, i, e);
    CompiledAgrees(src.rx, e.conditions, info);
  }

  /** With distinct ids, the route found carries exactly its own enabled bindings, in order, and asks for the
      body exactly when one of them needs it. */
  lemma ChainIsOwn(src: Source, i: nat)
    requires i < |src.routes| && forall j, k :: 0 <= j < k < |src.routes| ==> src.routes[j].id != src.routes[k].id
    ensures IsKept(OnRoute(src.routes[i].id), src.bindings, ChainAt(src, i))
    ensures EntryOf(src, src.routes[i], ChainAt(src, i)).snapshot.requiresBody <==>
              exists b ::
                b in src.bindings && b.enabled && b.routeId == src.routes[i].id && b.pluginName in src.bodyPlugins
  {
    BindingsOfIsKept(src.bindings, src.routes[i].id);
  }

  /** Leaving the headers unparsed when no loaded route looks at them never changes the answer. */
  lemma {:induction false} HeadersOnDemand(rx: Engine, es: seq<Entry>, req: Request)
    requires forall e :: e in es ==> Aligned(e.conditions, e.compiled)
    ensures FirstMatch(rx, es, InfoOf(req, NeedsHeaders(es))) == FirstMatch(rx, es, InfoOf(req, true))
  {
    if !NeedsHeaders(es) { SameWithoutHeaders(rx, es, req); }
  }

  lemma {:induction false} SameWithoutHeaders(rx: Engine, es: seq<Entry>, req: Request)
    requires (forall e :: e in es ==> Aligned(e.conditions, e.compiled)) && !NeedsHeaders(es)
    ensures FirstMatch(rx, es, InfoOf(req, false)) == FirstMatch(rx, es, InfoOf(req, true))
  {
    if es != [] {
      assert es[0] in es;
      HeadersDoNotMatter(rx, es[0].conditions, es[0].compiled, InfoOf(req, false), req.headers);
      SameWithoutHeaders(rx, es[1..], req);
    }
  }
}
