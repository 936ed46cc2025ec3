/**
 Whose weight vector is whose. The balancer is one for all upstreams and keeps a vector per
 signature; the signature names addresses and weights, not the upstream, and joins them with
 a separator that an address may contain.
 */
module SharedVectors {
  import opened Signatures
  import opened SmoothWeights
  import opened WeightTable
  import opened WeightedRoundRobin
  import opened ListOrder

  // ---------- separate state ----------

  function KeyOf(nodes: seq<Node>): string { Signature(Parts(nodes)) }

  /** Serving `b`, short of clearing the whole table, never changes the vector that `a` is served from. */
  ghost predicate LeavesAlone(b: seq<Node>, a: seq<Node>) {
    forall t: Table, p: nat, n, t': Table :: Cleared(t, KeyOf(b)) == t && Served(t, b, p, n, t') ==>
      VectorFor(t', KeyOf(a), |a|) == VectorFor(t, KeyOf(a), |a|)
  }

  lemma OtherKeyStays(t: Table, b: seq<Node>, p: nat, n: Node, t': Table, key: string, size: nat)
    requires Cleared(t, KeyOf(b)) == t && Served(t, b, p, n, t') && key != KeyOf(b)
    ensures VectorFor(t', key, size) == VectorFor(t, key, size)
  {
  }

  /** From an empty table, a list of two nodes or more moves its vector. */
  lemma OwnKeyMoves(b: seq<Node>) returns (t: Table, p: nat, n: Node, t': Table)
    requires Good(b) && |b| > 1
    ensures Cleared(t, KeyOf(b)) == t && Served(t, b, p, n, t')
    ensures VectorFor(t', KeyOf(b), |b|) != VectorFor(t, KeyOf(b), |b|)
  {
    t := map[];
    var w := Weights(b);
    p := LastMax(w);
    n := b[p];
    t' := NextTable(t, KeyOf(b), w, p);
    var j := if p == 0 then 1 else 0;
    assert b[j] in b;
    assert t'[KeyOf(b)][j] == w[j] > 0;
  }

  lemma OneEntryStays(t: Table, b: seq<Node>, p: nat, n: Node, t': Table)
    requires |b| == 1 && Cleared(t, KeyOf(b)) == t && Served(t, b, p, n, t')
    ensures VectorFor(t', KeyOf(b), 1) == VectorFor(t, KeyOf(b), 1)
  {
    var w := Weights(b);
    assert w == [w[0]] && Sum(w[1..]) == 0;
    assert Paid(w, VectorFor(t, KeyOf(b), 1), 0) == VectorFor(t, KeyOf(b), 1);
  }

  /** Two upstreams have separate state if and only if their (address, weight) pairs differ, or there is only
      one node to choose from. */
  lemma LeavesAloneIff(b: seq<Node>, a: seq<Node>)
    requires Good(a) && Good(b)
    ensures LeavesAlone(b, a) <==> multiset(Parts(a)) != multiset(Parts(b)) || |b| == 1
  {
    SameSignature(a, b);
    if KeyOf(a) != KeyOf(b) {
      forall t: Table, p: nat, n, t': Table | Cleared(t, KeyOf(b)) == t && Served(t, b, p, n, t')
        ensures VectorFor(t', KeyOf(a), |a|) == VectorFor(t, KeyOf(a), |a|)
      {
        OtherKeyStays(t, b, p, n, t', KeyOf(a), |a|);
      }
    } else if |b| == 1 {
      forall t: Table, p: nat, n, t': Table | Cleared(t, KeyOf(b)) == t && Served(t, b, p, n, t')
        ensures VectorFor(t', KeyOf(a), |a|) == VectorFor(t, KeyOf(a), |a|)
      {
        OneEntryStays(t, b, p, n, t');
      }
    } else {
      var t, p, n, t' := OwnKeyMoves(b);
    }
  }

  // ---------- two upstreams with one vector ----------

  /** The lists of two upstreams, in turn. */
  function InTurns(x: seq<Node>, y: seq<Node>, k: nat): seq<Node> { if k % 2 == 0 then x else y }

  function EvenState(w: int, k: nat): seq<int> { if k % 2 == 0 then [0, 0] else [w, -w] }

  /** One request for two nodes of weight `w`, on the table alone. */
  ghost predicate EvenServed(t: Table, key: string, w: int, p: nat, t': Table) {
    && p < |VectorFor(t, key, 2)| == 2 && Picked([w, w], VectorFor(t, key, 2), p)
    && t' == NextTable(t, key, [w, w], p)
  }

  lemma EvenStep(t: Table, key: string, w: int, k: nat, p: nat, t': Table)
    requires w > 0 && EvenServed(t, key, w, p, t') && VectorFor(t, key, 2) == EvenState(w, k)
    ensures p == 1 - k % 2 && VectorFor(t', key, 2) == EvenState(w, k + 1)
  {
    ServedIsStep(t, key, [w, w], p, t');
    assert Sum([w, w]) == w + Sum([w, w][1..]) && [w, w][1..] == [w] && Sum([w]) == w + Sum([w][1..]);
    var c := VectorFor(t, key, 2);
    assert c[0] + w <= c[p] + w && (p == 0 ==> c[1] < c[0]);
    assert VectorFor(t', key, 2) == Paid([w, w], c, p);
  }

  lemma {:induction false} EvenRun(ts: seq<Table>, rs: seq<Request>, key: string, w: int, k: nat)
    requires w > 0 && |ts| == |rs| + 1 && ts[0] == map[] && k <= |rs|
    requires forall j {:trigger rs[j]} :: 0 <= j < |rs| ==> EvenServed(ts[j], key, w, rs[j].pick, ts[j + 1])
    ensures VectorFor(ts[k], key, 2) == EvenState(w, k)
  {
    if k > 0 {
      EvenRun(ts, rs, key, w, k - 1);
      assert EvenServed(ts[k - 1], key, w, rs[k - 1].pick, ts[k]);
      EvenStep(ts[k - 1], key, w, k - 1, rs[k - 1].pick, ts[k]);
    }
  }

  /** Two upstreams with the same two addresses of equal weight, called in turn: the first always gets its
      second node and the second its first. */
  lemma SharedVectorStarves(x: seq<Node>, y: seq<Node>, w: int, ts: seq<Table>, rs: seq<Request>, k: nat)
    requires Good(x) && Good(y) && |x| == |y| == 2 && Parts(x) == Parts(y) && Weights(x) == Weights(y) == [w, w]
    requires IsService(ts, rs) && k < |rs| && forall j :: 0 <= j < |rs| ==> rs[j].nodes == InTurns(x, y, j)
    ensures rs[k].pick == 1 - k % 2
  {
    var key := KeyOf(x);
    assert x[0] in x && Weights(x)[0] == w;
    forall j | 0 <= j < |rs| ensures EvenServed(ts[j], key, w, rs[j].pick, ts[j + 1]) {
      assert ServedRequest(ts[j], rs[j], ts[j + 1]);
      assert rs[j].nodes == x || rs[j].nodes == y;
    }
    EvenRun(ts, rs, key, w, k);
    EvenStep(ts[k], key, w, k, rs[k].pick, ts[k + 1]);
  }

  // ---------- an address with the separator ----------

  /** One node whose address holds a whole part and the separator passes for two nodes. */
  lemma BarredNode(m: Node, n: Node, x: Node)
    requires x.address == Part(m) + ['|'] + n.address && x.weight == n.weight && Leq(Part(m), Part(n))
    ensures KeyOf([x]) == KeyOf([m, n])
  {
    assert Part(x) == Part(m) + ['|'] + Part(n);
    assert Parts([x]) == [Part(x)] && Parts([m, n]) == [Part(m), Part(n)];
    BarCollides(Part(m), Part(n));
  }

  /** Then, once the one node has been served, the two nodes meet a vector of one entry: the update of the
      second entry is out of range. */
  lemma BarredVectorTooShort(m: Node, n: Node, x: Node, t: Table, t': Table)
    requires x.address == Part(m) + ['|'] + n.address && x.weight == n.weight && Leq(Part(m), Part(n))
    requires Served(t, [x], 0, x, t')
    ensures |VectorFor(t', KeyOf([m, n]), 2)| == 1
  {
    BarredNode(m, n, x);
    assert KeyOf([x]) in t' && Cleared(t', KeyOf([x])) == t';
  }
}
