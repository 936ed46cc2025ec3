/**
 The table of weight vectors, one per key, with the size bound and the reset. A key stands
 for a set of node lists of one length and total weight (its shape), so a vector stored
 under it fits whichever of those lists comes next.
 */
module WeightTable {
  import opened SmoothWeights

  const MAX_STATES: nat := 1024

  type Table = map<string, seq<int>>

  datatype Shape = Shape(length: nat, total: int)

  ghost predicate Fits(shape: string -> Shape, key: string, w: seq<int>) {
    Positive(w) && shape(key) == Shape(|w|, Sum(w))
  }

  ghost predicate TableOk(shape: string -> Shape, t: Table) {
    |t| <= MAX_STATES && forall key :: key in t ==> Balanced(t[key], shape(key).length, shape(key).total)
  }

  function Cleared(t: Table, key: string): Table { if |t| >= MAX_STATES && key !in t then map[] else t }

  function VectorFor(t: Table, key: string, n: nat): seq<int> {
    if key in Cleared(t, key) then Cleared(t, key)[key] else Zeros(n)
  }

  /** The vector a selection starts from fits the weights it is used with, in whatever order they arrive. */
  lemma VectorFits(shape: string -> Shape, t: Table, key: string, w: seq<int>)
    requires TableOk(shape, t) && Fits(shape, key, w)
    ensures Balanced(VectorFor(t, key, |w|), |w|, Sum(w))
  {
    FreshBalanced(w);
  }

  function NextTable(t: Table, key: string, w: seq<int>, p: nat): Table
    requires p < |w| == |VectorFor(t, key, |w|)|
  {
    Cleared(t, key)[key := Paid(w, VectorFor(t, key, |w|), p)]
  }

  lemma NextTableOk(shape: string -> Shape, t: Table, key: string, w: seq<int>, p: nat)
    requires TableOk(shape, t) && Fits(shape, key, w) && |VectorFor(t, key, |w|)| == |w|
    requires Picked(w, VectorFor(t, key, |w|), p)
    ensures TableOk(shape, NextTable(t, key, w, p))
  {
    VectorFits(shape, t, key, w);
    PaidBalanced(w, VectorFor(t, key, |w|), p);
    var t' := NextTable(t, key, w, p);
    assert t'.Keys == Cleared(t, key).Keys + {key};
  }

  // ---------- whole runs ----------

  /** One selection: the key and weights of the list it was asked about, and the index it picked. */
  datatype Call = Call(key: string, weights: seq<int>, pick: nat)

  ghost predicate Selects(shape: string -> Shape, t: Table, call: Call, t': Table) {
    && Fits(shape, call.key, call.weights)
    && |VectorFor(t, call.key, |call.weights|)| == |call.weights|
    && Picked(call.weights, VectorFor(t, call.key, |call.weights|), call.pick)
    && t' == NextTable(t, call.key, call.weights, call.pick)
  }

  /** `ts` are the tables along a run of selections from the empty table. */
  ghost predicate IsHistory(shape: string -> Shape, ts: seq<Table>, calls: seq<Call>) {
    && |ts| == |calls| + 1 && ts[0] == map[]
    && (forall k {:trigger calls[k]} :: 0 <= k < |calls| ==> Selects(shape, ts[k], calls[k], ts[k + 1]))
  }

  /** Every table along every run is in order: vectors balanced, at most MAX_STATES of them. */
  lemma {:induction false} HistoryKeepsTableOk(shape: string -> Shape, ts: seq<Table>, calls: seq<Call>, k: nat)
    requires IsHistory(shape, ts, calls) && k < |ts|
    ensures TableOk(shape, ts[k])
  {
    if k > 0 {
      HistoryKeepsTableOk(shape, ts, calls, k - 1);
      var c := calls[k - 1];
      NextTableOk(shape, ts[k - 1], c.key, c.weights, c.pick);
    }
  }

  /** The picks made for one key, in order. */
  function PicksFor(calls: seq<Call>, key: string): seq<nat> {
    if calls == [] then []
    else PicksFor(calls[..|calls| - 1], key)
         + if calls[|calls| - 1].key == key then [calls[|calls| - 1].pick] else []
  }

  /** No clearing, and the list behind `key` always came in the order that gives weights `w`. */
  ghost predicate Undisturbed(ts: seq<Table>, calls: seq<Call>, key: string, w: seq<int>)
    requires |ts| == |calls| + 1
  {
    forall k {:trigger calls[k]} :: 0 <= k < |calls| ==>
      Cleared(ts[k], calls[k].key) == ts[k] && (calls[k].key == key ==> calls[k].weights == w)
  }

  ghost predicate Tracks(t: Table, key: string, cs: seq<seq<int>>, n: nat)
    requires |cs| > 0
  {
    if key in t then t[key] == cs[|cs| - 1] else cs == [Zeros(n)]
  }

  /** Whatever other lists are served in between, the picks for one list form a run of its own. */
  lemma {:induction false} HistoryIsRun(
    shape: string -> Shape, ts: seq<Table>, calls: seq<Call>, key: string, w: seq<int>)
    returns (cs: seq<seq<int>>)
    requires IsHistory(shape, ts, calls) && Undisturbed(ts, calls, key, w) && |w| > 0
    ensures IsRun(w, cs, PicksFor(calls, key)) && Tracks(ts[|calls|], key, cs, |w|)
  {
    if calls == [] {
      cs := [Zeros(|w|)];
    } else {
      var k := |calls| - 1;
      cs := HistoryIsRun(shape, ts[..k + 1], calls[..k], key, w);
      assert Selects(shape, ts[k], calls[k], ts[k + 1]) && Cleared(ts[k], calls[k].key) == ts[k];
      if calls[k].key == key {
        cs := ExtendRun(w, cs, PicksFor(calls[..k], key), calls[k].pick);
      }
    }
  }

  lemma ExtendRun(w: seq<int>, cs: seq<seq<int>>, ps: seq<nat>, p: nat) returns (cs': seq<seq<int>>)
    requires IsRun(w, cs, ps) && Picked(w, cs[|cs| - 1], p)
    ensures IsRun(w, cs', ps + [p]) && cs'[|cs'| - 1] == Paid(w, cs[|cs| - 1], p) && |cs'| > 1
  {
    cs' := cs + [Paid(w, cs[|cs| - 1], p)];
    forall k | 0 <= k < |ps + [p]|
      ensures Picked(w, cs'[k], (ps + [p])[k]) && cs'[k + 1] == Paid(w, cs'[k], (ps + [p])[k])
    {
      if k < |ps| { assert (ps + [p])[k] == ps[k] && cs'[k] == cs[k] && cs'[k + 1] == cs[k + 1]; }
    }
  }

  /** The run begins, or its call `m` finds the table full and clears it. */
  ghost predicate Restarts(ts: seq<Table>, calls: seq<Call>, m: nat)
    requires |ts| == |calls| + 1 && m < |calls|
  {
    m == 0 || Cleared(ts[m], calls[m].key) == map[]
  }

  /** The tables from call `m` on, as if the run began there. */
  function Since(ts: seq<Table>, m: nat): (r: seq<Table>)
    requires m < |ts|
    ensures |r| == |ts| - m
  {
    [map[]] + ts[m + 1..]
  }

  /** A run is a run again from each of its restarts on. */
  lemma HistorySince(shape: string -> Shape, ts: seq<Table>, calls: seq<Call>, m: nat)
    requires IsHistory(shape, ts, calls) && m < |calls| && Restarts(ts, calls, m)
    ensures IsHistory(shape, Since(ts, m), calls[m..])
  {
    var us, ds := Since(ts, m), calls[m..];
    forall k | 0 <= k < |ds| ensures Selects(shape, us[k], ds[k], us[k + 1]) {
      assert Selects(shape, ts[m + k], calls[m + k], ts[m + k + 1]);
      if k == 0 { SameFromEmpty(shape, ts[m], calls[m], ts[m + 1]); }
    }
  }

  lemma SameFromEmpty(shape: string -> Shape, t: Table, call: Call, t': Table)
    requires Selects(shape, t, call, t') && Cleared(t, call.key) == map[]
    ensures Selects(shape, map[], call, t')
  {
    assert Cleared(map[], call.key) == map[];
  }

  /** Exact fairness in service: from the last restart on, among any `Sum(w)` consecutive selections for one
      list, each node is chosen as often as its weight says, no matter how many other lists are served in
      between. */
  lemma FairInService(
    shape: string -> Shape, ts: seq<Table>, calls: seq<Call>, m: nat, key: string, w: seq<int>, k: nat, i: nat)
    requires IsHistory(shape, ts, calls) && m < |calls| && Restarts(ts, calls, m)
    requires Undisturbed(Since(ts, m), calls[m..], key, w) && Positive(w)
    requires k + Sum(w) <= |PicksFor(calls[m..], key)| && i < |w|
    ensures Sum(w) > 0 && multiset(PicksFor(calls[m..], key)[k..k + Sum(w)])[i] == w[i]
  {
    HistorySince(shape, ts, calls, m);
    FairFromStart(shape, Since(ts, m), calls[m..], key, w, PicksFor(calls[m..], key), k, i);
  }

  lemma FairFromStart(shape: string -> Shape, ts: seq<Table>, calls: seq<Call>, key: string, w: seq<int>, ps: seq<nat>,
                      k: nat, i: nat)
    requires IsHistory(shape, ts, calls) && Undisturbed(ts, calls, key, w) && Positive(w)
    requires ps == PicksFor(calls, key) && k + Sum(w) <= |ps| && i < |w|
    ensures Sum(w) > 0 && multiset(ps[k..k + Sum(w)])[i] == w[i]
  {
    var cs := HistoryIsRun(shape, ts, calls, key, w);
    ExactlyFair(w, cs, ps, k, i);
  }

  // ---------- when nothing is cleared ----------

  function KeysOf(calls: seq<Call>): set<string> { set c | c in calls :: c.key }

  lemma KeysAppend(calls: seq<Call>, n: nat)
    requires n < |calls|
    ensures KeysOf(calls[..n + 1]) == KeysOf(calls[..n]) + {calls[n].key} && KeysOf(calls[..n + 1]) <= KeysOf(calls)
  {
    assert calls[..n + 1] == calls[..n] + [calls[n]];
  }

  lemma {:induction false} Fewer(a: set<string>, b: set<string>)
    requires a <= b
    ensures |a| <= |b|
  {
    if a != {} {
      var k :| k in a;
      Fewer(a - {k}, b - {k});
    }
  }

  lemma NotFull(t: Table, key: string, keys: set<string>)
    requires t.Keys + {key} <= keys && |keys| <= MAX_STATES
    ensures Cleared(t, key) == t
  {
    Fewer(t.Keys + {key}, keys);
    if key !in t { assert |t.Keys + {key}| == |t| + 1; }
  }

  lemma SelectsAddsKey(shape: string -> Shape, t: Table, call: Call, t': Table, all: set<string>)
    requires Selects(shape, t, call, t') && t.Keys + {call.key} <= all && |all| <= MAX_STATES
    ensures t'.Keys == t.Keys + {call.key}
  {
    NotFull(t, call.key, all);
  }

  lemma {:induction false} TableKeys(
    shape: string -> Shape, ts: seq<Table>, calls: seq<Call>, n: nat, keys: set<string>)
    requires IsHistory(shape, ts, calls) && |KeysOf(calls)| <= MAX_STATES && n <= |calls| && keys == KeysOf(calls[..n])
    ensures ts[n].Keys == keys
  {
    if n > 0 {
      var before, call := KeysOf(calls[..n - 1]), calls[n - 1];
      TableKeys(shape, ts, calls, n - 1, before);
      KeysAppend(calls, n - 1);
      assert Selects(shape, ts[n - 1], call, ts[n]);
      SelectsAddsKey(shape, ts[n - 1], call, ts[n], KeysOf(calls));
    }
  }

  /** A history of at most `MAX_STATES` different keys never clears the table. */
  lemma FewKeysNeverClear(shape: string -> Shape, ts: seq<Table>, calls: seq<Call>, n: nat)
    requires IsHistory(shape, ts, calls) && |KeysOf(calls)| <= MAX_STATES && n < |calls|
    ensures Cleared(ts[n], calls[n].key) == ts[n]
  {
    TableKeys(shape, ts, calls, n, KeysOf(calls[..n]));
    KeysAppend(calls, n);
    NotFull(ts[n], calls[n].key, KeysOf(calls));
  }
}
