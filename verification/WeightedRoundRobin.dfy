/**
 The weighted balancer: one weight vector per node list, kept under the list's signature
 in a table of bounded size, advanced in place by every selection.
 */
module WeightedRoundRobin {
  import opened Common
  import opened Signatures
  import opened SmoothWeights
  import opened WeightTable
  import opened Filtering

  datatype Failure = NoEnabledWeightedNodes

  function Part(n: Node): string { n.address + [':'] + Signed(n.weight) }

  function Parts(nodes: seq<Node>): (r: seq<string>)
    ensures |r| == |nodes| && forall i :: 0 <= i < |nodes| ==> r[i] == Part(nodes[i])
  {
    seq(|nodes|, i requires 0 <= i < |nodes| => Part(nodes[i]))
  }

  function Weights(nodes: seq<Node>): (r: seq<int>)
    ensures |r| == |nodes| && forall i :: 0 <= i < |nodes| ==> r[i] == nodes[i].weight
  {
    seq(|nodes|, i requires 0 <= i < |nodes| => nodes[i].weight)
  }

  predicate CanServe(n: Node) { n.enabled && n.weight > 0 }

  /** The nodes to choose from: every enabled one with a weight, once for each time it is listed, in order. */
  function Eligible(nodes: seq<Node>): (r: seq<Node>)
    ensures forall n :: n in r <==> n in nodes && n.enabled && n.weight > 0
  {
    Kept(CanServe, nodes)
  }

  lemma EligibleIsKept(nodes: seq<Node>)
    ensures IsKept(CanServe, nodes, Eligible(nodes))
  {
    KeptIs(CanServe, nodes);
  }

  ghost predicate NoBars(nodes: seq<Node>) { forall n :: n in nodes ==> '|' !in n.address }

  /** A list the balancer can be asked about: what `Eligible` leaves, with separator-free addresses. */
  ghost predicate Good(nodes: seq<Node>) {
    |nodes| > 0 && NoBars(nodes) && forall n :: n in nodes ==> n.weight > 0
  }

  // ---------- lists that share a signature ----------

  lemma PartInjective(m: Node, n: Node)
    requires Part(m) == Part(n)
    ensures m.address == n.address && m.weight == n.weight
  {
    SplitAtLast(m.address, ':', Signed(m.weight), n.address, Signed(n.weight));
    SignedInjective(m.weight, n.weight);
  }

  lemma GoodPartsBarFree(nodes: seq<Node>)
    requires NoBars(nodes)
    ensures BarFree(Parts(nodes))
  {
  }

  lemma SamePartsSameSum(a: seq<Node>, b: seq<Node>)
    requires multiset(Parts(a)) == multiset(Parts(b))
    ensures |a| == |b| && Sum(Weights(a)) == Sum(Weights(b))
  {
    forall i, j | 0 <= i < |a| && 0 <= j < |b| && Parts(a)[i] == Parts(b)[j] ensures Weights(a)[i] == Weights(b)[j] {
      PartInjective(a[i], b[j]);
    }
    SumByKey(Parts(a), Weights(a), Parts(b), Weights(b));
  }

  /** The same key has the same value in both. */
  ghost predicate Agree(ks: seq<string>, vs: seq<int>, ks': seq<string>, vs': seq<int>)
    requires |ks| == |vs| && |ks'| == |vs'|
  {
    forall i, j :: 0 <= i < |ks| && 0 <= j < |ks'| && ks[i] == ks'[j] ==> vs[i] == vs'[j]
  }

  lemma AgreeWithout(ks: seq<string>, vs: seq<int>, ks': seq<string>, vs': seq<int>, m: nat, n: nat)
    requires |ks| == |vs| && |ks'| == |vs'| && Agree(ks, vs, ks', vs') && m < |ks| && n < |ks'|
    ensures Agree(ks[..m] + ks[m + 1..], vs[..m] + vs[m + 1..], ks'[..n] + ks'[n + 1..], vs'[..n] + vs'[n + 1..])
  {
  }

  /** Values determined by keys have the same sum over any two arrangements of the same keys. */
  lemma {:induction false} SumByKey(ks: seq<string>, vs: seq<int>, ks': seq<string>, vs': seq<int>)
    requires |ks| == |vs| && |ks'| == |vs'| && multiset(ks) == multiset(ks') && Agree(ks, vs, ks', vs')
    ensures |ks| == |ks'| && Sum(vs) == Sum(vs')
  {
    assert |ks| == |multiset(ks)| && |ks'| == |multiset(ks')|;
    if ks != [] {
      assert ks[0] in multiset(ks');
      var j :| 0 <= j < |ks'| && ks'[j] == ks[0];
      MultisetOfPick(ks, 0);
      MultisetOfPick(ks', j);
      var r, r' := ks[..0] + ks[1..], ks'[..j] + ks'[j + 1..];
      CancelOne(multiset(r), multiset(r'), ks[0]);
      SumOfPick(vs, 0);
      SumOfPick(vs', j);
      AgreeWithout(ks, vs, ks', vs', 0, j);
      SumByKey(r, vs[..0] + vs[1..], r', vs'[..j] + vs'[j + 1..]);
    }
  }

  lemma CancelOne(x: multiset<string>, y: multiset<string>, p: string)
    requires x + multiset{p} == y + multiset{p}
    ensures x == y
  {
    assert x == x + multiset{p} - multiset{p};
    assert y == y + multiset{p} - multiset{p};
  }

  lemma {:induction false} SumOfPick(s: seq<int>, j: nat)
    requires j < |s|
    ensures Sum(s) == s[j] + Sum(s[..j] + s[j + 1..])
  {
    var r := s[..j] + s[j + 1..];
    if j == 0 {
      assert r == s[1..];
    } else {
      SumOfPick(s[1..], j - 1);
      assert r[0] == s[0] && r[1..] == s[1..][..j - 1] + s[1..][j..];
    }
  }

  /** Good lists share a signature exactly when they are the same (address, weight) pairs in some order,
      and then they have the same length and total weight. */
  lemma SameSignature(a: seq<Node>, b: seq<Node>)
    requires Good(a) && Good(b)
    ensures Signature(Parts(a)) == Signature(Parts(b)) <==> multiset(Parts(a)) == multiset(Parts(b))
    ensures Signature(Parts(a)) == Signature(Parts(b)) ==> |a| == |b| && Sum(Weights(a)) == Sum(Weights(b))
  {
    GoodPartsBarFree(a);
    GoodPartsBarFree(b);
    SignatureIff(Parts(a), Parts(b));
    if multiset(Parts(a)) == multiset(Parts(b)) { SamePartsSameSum(a, b); }
  }

  /** The length and total weight that all good lists with signature `key` have. */
  ghost function ShapeOf(key: string): (r: Shape)
    ensures (exists nodes :: HasKey(nodes, key)) ==>
              exists nodes :: HasKey(nodes, key) && r == Shape(|nodes|, Sum(Weights(nodes)))
  {
    if exists nodes :: HasKey(nodes, key) then
      var nodes :| HasKey(nodes, key);
      Shape(|nodes|, Sum(Weights(nodes)))
    else Shape(0, 0)
  }

  ghost predicate HasKey(nodes: seq<Node>, key: string) { Good(nodes) && Signature(Parts(nodes)) == key }

  lemma GoodFits(nodes: seq<Node>, key: string)
    requires HasKey(nodes, key)
    ensures Fits(ShapeOf, key, Weights(nodes))
  {
    var other :| HasKey(other, key) && ShapeOf(key) == Shape(|other|, Sum(Weights(other)));
    assert HasKey(other, key);
    SameSignature(other, nodes);
    assert Positive(Weights(nodes));
  }

  method SignatureOf(nodes: seq<Node>) returns (sig: string)
    requires Good(nodes)
    ensures sig == Signature(Parts(nodes)) && Fits(ShapeOf, sig, Weights(nodes))
  {
    sig := Signature(Parts(nodes));
    GoodFits(nodes, sig);
  }

  // ---------- the balancer ----------

  class Balancer {
    var states: Table

    constructor ()
      ensures states == map[] && TableOk(ShapeOf, states)
    {
      states := map[];
    }

    /** One selection. The picked node is the last of those with the greatest weight after growth;
        only the vector of this list changes, unless a full table is cleared first. */
    method Select(nodes: seq<Node>) returns (r: Result<Node, Failure>)
      requires TableOk(ShapeOf, states) && NoBars(nodes)
      modifies this
      ensures TableOk(ShapeOf, states)
      ensures r.Err? <==> forall n :: n in nodes ==> !n.enabled || n.weight <= 0
      ensures r.Ok? ==> r.value in nodes && r.value.enabled && r.value.weight > 0
      ensures r.Err? ==> states == old(states)
      ensures r.Ok? ==> exists p: nat :: Served(old(states), Eligible(nodes), p, r.value, states)
    {
      var enabled := Eligible(nodes);
      if enabled == [] {
        assert forall n :: n in nodes ==> n !in enabled;
        return Err(NoEnabledWeightedNodes);
      }
      var sig := SignatureOf(enabled);
      var weights := Weights(enabled);
      ghost var before := states;
      VectorFits(ShapeOf, states, sig, weights);
      if |states| >= MAX_STATES && sig !in states {
        states := map[];
      }
      var current := if sig in states then states[sig] else Zeros(|enabled|);
      ghost var start := current;
      assert start == VectorFor(before, sig, |weights|);
      var p;
      current, p := Advance(enabled, current);
      NextTableOk(ShapeOf, before, sig, weights, p);
      states := states[sig := current];
      assert enabled[p] in enabled;
      r := Ok(enabled[p]);
      assert Served(before, enabled, p, r.value, states);
    }
  }

  /** `t'` is `t` after serving `nodes`: node `p` is picked and its list's vector is advanced. */
  ghost predicate Served(t: Table, nodes: seq<Node>, p: nat, picked: Node, t': Table) {
    var key := Signature(Parts(nodes));
    && p < |nodes| == |VectorFor(t, key, |nodes|)| && picked == nodes[p]
    && Picked(Weights(nodes), VectorFor(t, key, |nodes|), p)
    && t' == NextTable(t, key, Weights(nodes), p)
  }

  /** The three passes over the current weights: grow, find the greatest, pay. */
  method Advance(enabled: seq<Node>, start: seq<int>) returns (current: seq<int>, p: nat)
    requires |start| == |enabled| > 0
    ensures Picked(Weights(enabled), start, p) && current == Paid(Weights(enabled), start, p)
  {
    var total := TotalOf(Weights(enabled));
    current := start;
    for i := 0 to |enabled|
      invariant |current| == |enabled|
      invariant forall j :: 0 <= j < |enabled| ==> current[j] == start[j] + if j < i then enabled[j].weight else 0
    {
      current := current[i := current[i] + enabled[i].weight];
    }
    p := LastGreatest(current);
    current := current[p := current[p] - total];
  }

  method TotalOf(weights: seq<int>) returns (total: int)
    ensures total == Sum(weights)
  {
    total := 0;
    var i := |weights|;
    while i > 0
      invariant 0 <= i <= |weights|
      invariant total == Sum(weights[i..])
    {
      i := i - 1;
      assert weights[i..][1..] == weights[i + 1..];
      total := total + weights[i];
    }
  }

  /** The index `max_by_key` returns: the last of the greatest. */
  method LastGreatest(c: seq<int>) returns (p: nat)
    requires |c| > 0
    ensures p < |c| && (forall j :: 0 <= j < |c| ==> c[j] <= c[p]) && (forall j :: p < j < |c| ==> c[j] < c[p])
  {
    p := 0;
    for i := 1 to |c|
      invariant p < i
      invariant forall j :: 0 <= j < i ==> c[j] <= c[p]
      invariant forall j :: p < j < i ==> c[j] < c[p]
    {
      if c[p] <= c[i] { p := i; }
    }
  }

  // ---------- whole runs over node lists ----------

  datatype Request = Request(nodes: seq<Node>, pick: nat)

  ghost function CallsOf(rs: seq<Request>): (calls: seq<Call>)
    ensures |calls| == |rs|
    ensures forall k :: 0 <= k < |rs| ==>
              calls[k] == Call(Signature(Parts(rs[k].nodes)), Weights(rs[k].nodes), rs[k].pick)
  {
    seq(|rs|, k requires 0 <= k < |rs| => Call(Signature(Parts(rs[k].nodes)), Weights(rs[k].nodes), rs[k].pick))
  }

  /** `ts` are the tables along a run of selections, each for some good list. */
  ghost predicate IsService(ts: seq<Table>, rs: seq<Request>) {
    && |ts| == |rs| + 1 && ts[0] == map[]
    && (forall k {:trigger rs[k]} :: 0 <= k < |rs| ==>
          Good(rs[k].nodes) && ServedRequest(ts[k], rs[k], ts[k + 1]))
  }

  ghost predicate ServedRequest(t: Table, r: Request, t': Table) {
    r.pick < |r.nodes| && Served(t, r.nodes, r.pick, r.nodes[r.pick], t')
  }

  lemma ServiceIsHistory(ts: seq<Table>, rs: seq<Request>)
    requires IsService(ts, rs)
    ensures IsHistory(ShapeOf, ts, CallsOf(rs))
  {
    var calls := CallsOf(rs);
    forall k | 0 <= k < |calls| ensures Selects(ShapeOf, ts[k], calls[k], ts[k + 1]) {
      assert ServedRequest(ts[k], rs[k], ts[k + 1]);
      GoodFits(rs[k].nodes, calls[k].key);
    }
  }

  /** Every table along every service is in order, although lists that share a vector may be permuted. */
  lemma ServiceKeepsTableOk(ts: seq<Table>, rs: seq<Request>, k: nat)
    requires IsService(ts, rs) && k < |ts|
    ensures TableOk(ShapeOf, ts[k])
  {
    ServiceIsHistory(ts, rs);
    HistoryKeepsTableOk(ShapeOf, ts, CallsOf(rs), k);
  }

  /** No number the balancer computes for a request leaves the 32-bit range, and no index is out of range. */
  lemma ServiceNeverOverflows(ts: seq<Table>, rs: seq<Request>, k: nat, i: nat)
    requires IsService(ts, rs) && k < |rs| && i < |rs[k].nodes|
    requires |rs[k].nodes| * Sum(Weights(rs[k].nodes)) <= I32_MAX
    ensures var w := Weights(rs[k].nodes);
            var c := VectorFor(ts[k], Signature(Parts(rs[k].nodes)), |w|);
            && |c| == |w| && rs[k].pick < |w| && Sum(w) <= I32_MAX && -I32_MAX < c[i] <= I32_MAX
            && -I32_MAX < c[i] + w[i] <= I32_MAX && -I32_MAX < Paid(w, c, rs[k].pick)[i] <= I32_MAX
  {
    var key, w := Signature(Parts(rs[k].nodes)), Weights(rs[k].nodes);
    ServiceKeepsTableOk(ts, rs, k);
    GoodFits(rs[k].nodes, key);
    VectorFits(ShapeOf, ts[k], key, w);
    assert ServedRequest(ts[k], rs[k], ts[k + 1]);
    NoOverflow(w, VectorFor(ts[k], key, |w|), rs[k].pick, i);
  }

  /** In any service, from the beginning or from the last time the table was cleared, if this list always
      arrives in this order, any `Sum` consecutive selections for it choose each node as often as its weight
      says. */
  lemma FairService(
    ts: seq<Table>, rs: seq<Request>, calls: seq<Call>, m: nat, nodes: seq<Node>, key: string, w: seq<int>, k: nat,
    i: nat)
    requires IsService(ts, rs) && calls == CallsOf(rs)
    requires Good(nodes) && key == Signature(Parts(nodes)) && w == Weights(nodes) && i < |w|
    requires m < |calls| && Restarts(ts, calls, m) && Undisturbed(Since(ts, m), calls[m..], key, w)
    requires k + Sum(w) <= |PicksFor(calls[m..], key)|
    ensures Sum(w) > 0 && multiset(PicksFor(calls[m..], key)[k..k + Sum(w)])[i] == nodes[i].weight
  {
    ServiceIsHistory(ts, rs);
    GoodIsPositive(nodes, w);
    FairInService(ShapeOf, ts, calls, m, key, w, k, i);
  }

  lemma GoodIsPositive(nodes: seq<Node>, w: seq<int>)
    requires Good(nodes) && w == Weights(nodes)
    ensures Positive(w)
  {
  }
}
