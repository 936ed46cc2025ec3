/**
 Fairness of the weighted balancer as its callers see it: the lists they pass, disabled and
 weightless nodes included, and the nodes they get back.
 */
module FairSelect {
  import opened Signatures
  import opened SmoothWeights
  import opened WeightTable
  import opened WeightedRoundRobin
  import opened Filtering

  /** One call of `Select`: the list passed, the place picked among its eligible nodes, and the answer. */
  datatype Query = Query(given: seq<Node>, pick: nat, answer: Node)

  ghost predicate Answered(t: Table, q: Query, t': Table) {
    NoBars(q.given) && Served(t, Eligible(q.given), q.pick, q.answer, t')
  }

  /** `ts` are the tables along a run of answered calls on a new balancer. */
  ghost predicate IsSelection(ts: seq<Table>, qs: seq<Query>) {
    && |ts| == |qs| + 1 && ts[0] == map[]
    && forall k :: 0 <= k < |qs| ==> AnsweredAt(ts, qs, k)
  }

  ghost predicate AnsweredAt(ts: seq<Table>, qs: seq<Query>, k: int)
    requires |ts| == |qs| + 1 && 0 <= k < |qs|
  {
    Answered(ts[k], qs[k], ts[k + 1])
  }

  // ---------- what each node is due ----------

  function Due(n: Node): int { if n.enabled && n.weight > 0 then n.weight else 0 }

  /** The weight of `x` in a list: its own, once for each time it is listed enabled and with a weight. */
  function Share(given: seq<Node>, x: Node): int {
    if given == [] then 0
    else Share(given[..|given| - 1], x) + if given[|given| - 1] == x then Due(x) else 0
  }

  function TotalWeight(given: seq<Node>): int {
    if given == [] then 0 else TotalWeight(given[..|given| - 1]) + Due(given[|given| - 1])
  }

  lemma ShareAppend(given: seq<Node>, n: Node, x: Node)
    ensures Share(given + [n], x) == Share(given, x) + if n == x then Due(x) else 0
    ensures TotalWeight(given + [n]) == TotalWeight(given) + Due(n)
  {
    assert (given + [n])[..|given|] == given;
  }

  lemma {:induction false} ShareOfKept(given: seq<Node>, x: Node, r: seq<Node>)
    requires r == Kept(CanServe, given)
    ensures Share(r, x) == Share(given, x) && TotalWeight(r) == TotalWeight(given)
  {
    if given != [] {
      var front, n := given[..|given| - 1], given[|given| - 1];
      assert front + [n] == given;
      var r' := Kept(CanServe, front);
      ShareOfKept(front, x, r');
      KeptAppend(CanServe, front, n);
      ShareAppend(front, n, x);
      ShareAppend(r', n, x);
    }
  }

  lemma {:induction false} SumAppend(s: seq<int>, y: int)
    ensures Sum(s + [y]) == Sum(s) + y
  {
    if s == [] {
      assert s + [y] == [y];
    } else {
      assert (s + [y])[1..] == s[1..] + [y];
      SumAppend(s[1..], y);
    }
  }

  lemma {:induction false} TotalIsSum(nodes: seq<Node>)
    requires forall k :: 0 <= k < |nodes| ==> CanServe(nodes[k])
    ensures Sum(Weights(nodes)) == TotalWeight(nodes)
  {
    if nodes != [] {
      var front, n := nodes[..|nodes| - 1], nodes[|nodes| - 1];
      TotalIsSum(front);
      assert Weights(nodes) == Weights(front) + [n.weight];
      SumAppend(Weights(front), n.weight);
    }
  }

  // ---------- from places to nodes ----------

  function Named(nodes: seq<Node>, ps: seq<nat>): (r: seq<Node>)
    requires forall k :: 0 <= k < |ps| ==> ps[k] < |nodes|
    ensures |r| == |ps| && forall k :: 0 <= k < |ps| ==> r[k] == nodes[ps[k]]
  {
    seq(|ps|, k requires 0 <= k < |ps| => nodes[ps[k]])
  }

  /** The sum of `f` over the first `n` places that hold `x`. */
  function SumAt(nodes: seq<Node>, x: Node, f: seq<int>, n: nat): int
    requires n <= |nodes| == |f|
  {
    if n == 0 then 0 else SumAt(nodes, x, f, n - 1) + if nodes[n - 1] == x then f[n - 1] else 0
  }

  lemma {:induction false} SumAtUpdate(nodes: seq<Node>, x: Node, f: seq<int>, p: nat, n: nat)
    requires n <= |nodes| == |f| && p < |f|
    ensures SumAt(nodes, x, f[p := f[p] + 1], n) == SumAt(nodes, x, f, n) + if p < n && nodes[p] == x then 1 else 0
  {
    if n > 0 { SumAtUpdate(nodes, x, f, p, n - 1); }
  }

  lemma {:induction false} SumAtSame(nodes: seq<Node>, x: Node, f: seq<int>, n: nat)
    requires n <= |nodes| == |f| && forall j :: 0 <= j < n ==> CanServe(nodes[j]) && f[j] == nodes[j].weight
    ensures SumAt(nodes, x, f, n) == Share(nodes[..n], x)
  {
    if n > 0 {
      SumAtSame(nodes, x, f, n - 1);
      assert nodes[..n][..n - 1] == nodes[..n - 1];
    }
  }

  lemma {:induction false} SumAtZero(nodes: seq<Node>, x: Node, f: seq<int>, n: nat)
    requires n <= |nodes| == |f| && forall j :: 0 <= j < |f| ==> f[j] == 0
    ensures SumAt(nodes, x, f, n) == 0
  {
    if n > 0 { SumAtZero(nodes, x, f, n - 1); }
  }

  /** How often each place occurs in `ps`. */
  function Tally(ps: seq<nat>, n: nat): (r: seq<int>)
    ensures |r| == n && forall j: nat :: j < n ==> r[j] == multiset(ps)[j]
  {
    seq(n, j requires 0 <= j < n => multiset(ps)[j])
  }

  lemma TallyAppend(ps: seq<nat>, p: nat, n: nat)
    requires p < n
    ensures Tally(ps + [p], n) == Tally(ps, n)[p := Tally(ps, n)[p] + 1]
  {
    var f, g := Tally(ps, n), Tally(ps + [p], n);
    forall j: nat | j < n ensures g[j] == f[p := f[p] + 1][j] {
      assert multiset(ps + [p])[j] == multiset(ps)[j] + if j == p then 1 else 0;
    }
  }

  lemma {:induction false} CountNamed(nodes: seq<Node>, ps: seq<nat>, x: Node)
    requires forall k :: 0 <= k < |ps| ==> ps[k] < |nodes|
    ensures multiset(Named(nodes, ps))[x] == SumAt(nodes, x, Tally(ps, |nodes|), |nodes|)
  {
    if ps == [] {
      SumAtZero(nodes, x, Tally(ps, |nodes|), |nodes|);
    } else {
      var front, p := ps[..|ps| - 1], ps[|ps| - 1];
      CountNamed(nodes, front, x);
      assert ps == front + [p];
      TallyAppend(front, p, |nodes|);
      SumAtUpdate(nodes, x, Tally(front, |nodes|), p, |nodes|);
      assert Named(nodes, ps) == Named(nodes, front) + [nodes[p]];
    }
  }

  // ---------- the run behind the calls ----------

  function ListOf(q: Query): seq<Node> { Eligible(q.given) }

  function ServiceOf(qs: seq<Query>): (rs: seq<Request>)
    ensures |rs| == |qs| && forall k :: 0 <= k < |qs| ==> rs[k] == Request(ListOf(qs[k]), qs[k].pick)
  {
    seq(|qs|, k requires 0 <= k < |qs| => Request(ListOf(qs[k]), qs[k].pick))
  }

  lemma AnsweredIsServed(t: Table, q: Query, t': Table)
    requires Answered(t, q, t')
    ensures Good(ListOf(q)) && ServedRequest(t, Request(ListOf(q), q.pick), t')
  {
  }

  lemma SelectionIsService(ts: seq<Table>, qs: seq<Query>)
    requires IsSelection(ts, qs)
    ensures IsService(ts, ServiceOf(qs))
  {
    var rs := ServiceOf(qs);
    forall k | 0 <= k < |rs| ensures Good(rs[k].nodes) && ServedRequest(ts[k], rs[k], ts[k + 1]) {
      assert AnsweredAt(ts, qs, k);
      AnsweredIsServed(ts[k], qs[k], ts[k + 1]);
    }
  }

  // ---------- answers are picks ----------

  /** The answers given under `key`, in the order of the calls. */
  function GivenOut(keys: seq<string>, answers: seq<Node>, key: string): seq<Node>
    requires |keys| == |answers|
  {
    if keys == [] then []
    else
      var n := |keys| - 1;
      GivenOut(keys[..n], answers[..n], key) + if keys[n] == key then [answers[n]] else []
  }

  ghost predicate AllBelow(ps: seq<nat>, n: nat) { forall k :: 0 <= k < |ps| ==> ps[k] < n }

  /** The call `c` under key `k` was answered with `n`, from `nodes` if it is the key in question. */
  ghost predicate Matches(k: string, n: Node, c: Call, key: string, nodes: seq<Node>) {
    c.key == k && (k == key ==> c.pick < |nodes| && n == nodes[c.pick])
  }

  lemma {:induction false} AnswersArePicks(
    keys: seq<string>, answers: seq<Node>, calls: seq<Call>, key: string, nodes: seq<Node>, ps: seq<nat>)
    requires |calls| == |keys| == |answers| && ps == PicksFor(calls, key)
    requires forall k :: 0 <= k < |keys| ==> Matches(keys[k], answers[k], calls[k], key, nodes)
    ensures AllBelow(ps, |nodes|) && GivenOut(keys, answers, key) == Named(nodes, ps)
  {
    if keys != [] {
      var n := |keys| - 1;
      AnswersArePicks(keys[..n], answers[..n], calls[..n], key, nodes, PicksFor(calls[..n], key));
      assert Matches(keys[n], answers[n], calls[n], key, nodes);
    }
  }

  // ---------- the theorem ----------

  function KeyOf(given: seq<Node>): string { Signature(Parts(Eligible(given))) }

  function Keys(qs: seq<Query>): (r: seq<string>)
    ensures |r| == |qs| && forall k :: 0 <= k < |qs| ==> r[k] == KeyOf(qs[k].given)
  {
    seq(|qs|, k requires 0 <= k < |qs| => KeyOf(qs[k].given))
  }

  function Answers(qs: seq<Query>): (r: seq<Node>)
    ensures |r| == |qs| && forall k :: 0 <= k < |qs| ==> r[k] == qs[k].answer
  {
    seq(|qs|, k requires 0 <= k < |qs| => qs[k].answer)
  }

  /** The nodes given out for this list, in the order of the calls. */
  function AnswersTo(qs: seq<Query>, given: seq<Node>): seq<Node> { GivenOut(Keys(qs), Answers(qs), KeyOf(given)) }

  /** At most this many different signatures occur. */
  ghost predicate FewLists(qs: seq<Query>) { |set k | k in Keys(qs)| <= MAX_STATES }

  /** The list with this signature always has the same eligible nodes in the same order. */
  ghost predicate KeepsOrder(qs: seq<Query>, key: string, nodes: seq<Node>) {
    forall k :: 0 <= k < |qs| ==> InOrderAt(qs, key, nodes, k)
  }

  ghost predicate InOrderAt(qs: seq<Query>, key: string, nodes: seq<Node>, k: int)
    requires 0 <= k < |qs|
  {
    KeyOf(qs[k].given) == key ==> ListOf(qs[k]) == nodes
  }

  lemma CallsMatch(ts: seq<Table>, qs: seq<Query>, key: string, nodes: seq<Node>, calls: seq<Call>, k: nat)
    requires IsSelection(ts, qs) && KeepsOrder(qs, key, nodes) && calls == CallsOf(ServiceOf(qs)) && k < |qs|
    ensures Matches(Keys(qs)[k], Answers(qs)[k], calls[k], key, nodes)
    ensures calls[k].key == key ==> calls[k].weights == Weights(nodes)
  {
    assert AnsweredAt(ts, qs, k) && InOrderAt(qs, key, nodes, k);
  }

  lemma SameKeys(keys: seq<string>, calls: seq<Call>)
    requires |keys| == |calls| && forall k :: 0 <= k < |keys| ==> calls[k].key == keys[k]
    ensures KeysOf(calls) == set k | k in keys
  {
    forall key ensures key in KeysOf(calls) <==> key in keys {
      if key in keys {
        var k :| 0 <= k < |keys| && keys[k] == key;
        assert calls[k] in calls;
      }
    }
  }

  lemma NeverDisturbed(ts: seq<Table>, qs: seq<Query>, key: string, nodes: seq<Node>, calls: seq<Call>)
    requires IsSelection(ts, qs) && KeepsOrder(qs, key, nodes) && FewLists(qs) && calls == CallsOf(ServiceOf(qs))
    ensures Undisturbed(ts, calls, key, Weights(nodes))
  {
    SelectionIsService(ts, qs);
    ServiceIsHistory(ts, ServiceOf(qs));
    SameKeys(Keys(qs), calls);
    forall k | 0 <= k < |calls|
      ensures Cleared(ts[k], calls[k].key) == ts[k] && (calls[k].key == key ==> calls[k].weights == Weights(nodes))
    {
      FewKeysNeverClear(ShapeOf, ts, calls, k);
      CallsMatch(ts, qs, key, nodes, calls, k);
    }
  }

  ghost predicate AllServe(nodes: seq<Node>) { forall k :: 0 <= k < |nodes| ==> CanServe(nodes[k]) }

  /** A window in which each place was picked as often as its weight gives each node its share. */
  lemma SharedOut(nodes: seq<Node>, weights: seq<int>, ps: seq<nat>, x: Node)
    requires AllServe(nodes) && weights == Weights(nodes) && AllBelow(ps, |nodes|) && ByWeight(weights, ps)
    ensures multiset(Named(nodes, ps))[x] == Share(nodes, x)
  {
    CountNamed(nodes, ps, x);
    var f := Tally(ps, |nodes|);
    forall j: nat | j < |nodes| ensures f[j] == nodes[j].weight { assert weights[j] == nodes[j].weight; }
    SumAtSame(nodes, x, f, |nodes|);
    assert nodes[..|nodes|] == nodes;
  }

  lemma EligibleShares(given: seq<Node>, nodes: seq<Node>, x: Node)
    requires nodes == Eligible(given)
    ensures AllServe(nodes) && Share(nodes, x) == Share(given, x) && Sum(Weights(nodes)) == TotalWeight(given)
  {
    ShareOfKept(given, x, nodes);
    forall j | 0 <= j < |nodes| ensures CanServe(nodes[j]) { assert nodes[j] in nodes; }
    TotalIsSum(nodes);
  }

  /** Each place was picked as often as its weight. */
  ghost predicate ByWeight(w: seq<int>, ps: seq<nat>) {
    forall j: nat {:trigger w[j]} :: j < |w| ==> multiset(ps)[j] == w[j]
  }

  lemma AllByWeight(w: seq<int>, cs: seq<seq<int>>, ps: seq<nat>, i: nat, j: nat, window: seq<nat>)
    requires Positive(w) && IsRun(w, cs, ps) && j == i + Sum(w) && i <= j <= |ps| && window == ps[i..j]
    ensures ByWeight(w, window)
  {
    forall k: nat | k < |w| ensures multiset(window)[k] == w[k] { ExactlyFair(w, cs, ps, i, k); }
  }

  lemma FairPlaces(ts: seq<Table>, calls: seq<Call>, w: seq<int>, key: string, i: nat, j: nat, ps: seq<nat>,
                   window: seq<nat>)
    requires IsHistory(ShapeOf, ts, calls) && Undisturbed(ts, calls, key, w) && Positive(w)
    requires ps == PicksFor(calls, key) && j == i + Sum(w) && i <= j <= |ps| && window == ps[i..j]
    ensures ByWeight(w, window)
  {
    var cs := HistoryIsRun(ShapeOf, ts, calls, key, w);
    AllByWeight(w, cs, ps, i, j, window);
  }

  lemma WindowOfNamed(nodes: seq<Node>, ps: seq<nat>, i: nat, j: nat, window: seq<nat>)
    requires AllBelow(ps, |nodes|) && i <= j <= |ps| && window == ps[i..j]
    ensures AllBelow(window, |nodes|) && Named(nodes, ps)[i..j] == Named(nodes, window)
  {
  }

  /** Exact fairness: on a new balancer asked about at most `MAX_STATES` different lists, among any
      `TotalWeight` consecutive answers for one list that keeps its order, each node is given out as often as
      its weight says, whatever other lists are served in between. */
  lemma FairSelect(ts: seq<Table>, qs: seq<Query>, given: seq<Node>, i: nat, j: int, x: Node)
    requires IsSelection(ts, qs) && FewLists(qs) && KeepsOrder(qs, KeyOf(given), Eligible(given))
    requires NoBars(given) && Eligible(given) != [] && j == i + TotalWeight(given) && j <= |AnswersTo(qs, given)|
    ensures i < j && multiset(AnswersTo(qs, given)[i..j])[x] == Share(given, x)
  {
    var nodes, key := Eligible(given), KeyOf(given);
    EligibleShares(given, nodes, x);
    assert Good(nodes);
    FairAnswers(ts, qs, nodes, key, i, j, x, AnswersTo(qs, given));
  }

  lemma FairAnswers(ts: seq<Table>, qs: seq<Query>, nodes: seq<Node>, key: string, i: nat, j: int, x: Node,
                    answers: seq<Node>)
    requires IsSelection(ts, qs) && FewLists(qs) && KeepsOrder(qs, key, nodes)
    requires Good(nodes) && AllServe(nodes) && j == i + Sum(Weights(nodes))
    requires answers == GivenOut(Keys(qs), Answers(qs), key) && j <= |answers|
    ensures i < j && multiset(answers[i..j])[x] == Share(nodes, x)
  {
    var calls, ps := PicksBehind(ts, qs, nodes, key, answers);
    FairNames(ts, calls, nodes, Weights(nodes), key, i, j, ps, answers, x);
  }

  /** A window of answers gives each node its share. */
  lemma FairNames(ts: seq<Table>, calls: seq<Call>, nodes: seq<Node>, w: seq<int>, key: string, i: nat, j: int,
                  ps: seq<nat>, answers: seq<Node>, x: Node)
    requires IsHistory(ShapeOf, ts, calls) && Undisturbed(ts, calls, key, w) && ps == PicksFor(calls, key)
    requires Good(nodes) && AllServe(nodes) && w == Weights(nodes) && j == i + Sum(w) && j <= |ps|
    requires AllBelow(ps, |nodes|) && answers == Named(nodes, ps)
    ensures i < j && multiset(answers[i..j])[x] == Share(nodes, x)
  {
    GoodIsPositive(nodes, w);
    EntryBelowTotal(w, 0);
    FairPlaces(ts, calls, w, key, i, j, ps, ps[i..j]);
    WindowShares(nodes, w, ps, answers, i, j, ps[i..j], x);
  }

  lemma WindowShares(nodes: seq<Node>, w: seq<int>, ps: seq<nat>, answers: seq<Node>, i: nat, j: nat,
                     window: seq<nat>, x: Node)
    requires AllServe(nodes) && w == Weights(nodes) && AllBelow(ps, |nodes|) && answers == Named(nodes, ps)
    requires i <= j <= |ps| && window == ps[i..j] && ByWeight(w, window)
    ensures multiset(answers[i..j])[x] == Share(nodes, x)
  {
    WindowOfNamed(nodes, ps, i, j, window);
    SharedOut(nodes, w, window, x);
  }

  lemma PicksBehind(ts: seq<Table>, qs: seq<Query>, nodes: seq<Node>, key: string, answers: seq<Node>)
    returns (calls: seq<Call>, ps: seq<nat>)
    requires IsSelection(ts, qs) && FewLists(qs) && KeepsOrder(qs, key, nodes)
    requires answers == GivenOut(Keys(qs), Answers(qs), key)
    ensures IsHistory(ShapeOf, ts, calls) && Undisturbed(ts, calls, key, Weights(nodes)) && ps == PicksFor(calls, key)
    ensures AllBelow(ps, |nodes|) && answers == Named(nodes, ps)
  {
    calls := CallsOf(ServiceOf(qs));
    ps := PicksFor(calls, key);
    NeverDisturbed(ts, qs, key, nodes, calls);
    AnswersAre(ts, qs, key, nodes, calls, ps, answers);
    SelectionIsHistory(ts, qs, calls);
  }

  lemma SelectionIsHistory(ts: seq<Table>, qs: seq<Query>, calls: seq<Call>)
    requires IsSelection(ts, qs) && calls == CallsOf(ServiceOf(qs))
    ensures IsHistory(ShapeOf, ts, calls)
  {
    SelectionIsService(ts, qs);
    ServiceIsHistory(ts, ServiceOf(qs));
  }

  lemma AnswersAre(ts: seq<Table>, qs: seq<Query>, key: string, nodes: seq<Node>, calls: seq<Call>, ps: seq<nat>,
                   answers: seq<Node>)
    requires IsSelection(ts, qs) && KeepsOrder(qs, key, nodes) && calls == CallsOf(ServiceOf(qs))
    requires ps == PicksFor(calls, key) && answers == GivenOut(Keys(qs), Answers(qs), key)
    ensures AllBelow(ps, |nodes|) && answers == Named(nodes, ps)
  {
    forall k | 0 <= k < |qs| ensures Matches(Keys(qs)[k], Answers(qs)[k], calls[k], key, nodes) {
      CallsMatch(ts, qs, key, nodes, calls, k);
    }
    AnswersArePicks(Keys(qs), Answers(qs), calls, key, nodes, ps);
  }
}
