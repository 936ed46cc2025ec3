/**
 What the order of a node list does to the weighted balancer. Lists of the same nodes in
 different orders share one weight vector, whose entries belong to positions, not to nodes.
 */
module ListOrder {
  import opened Signatures
  import opened SmoothWeights
  import opened WeightTable
  import opened WeightedRoundRobin

  /** Every request is for these nodes, in some order. */
  ghost predicate Arrives(rs: seq<Request>, nodes: seq<Node>) {
    forall k :: 0 <= k < |rs| ==> multiset(rs[k].nodes) == multiset(nodes)
  }

  predicate GoesTo(r: Request, x: Node) { r.pick < |r.nodes| && r.nodes[r.pick] == x }

  /** How many of the requests went to `x`. */
  function ServedTo(rs: seq<Request>, x: Node): nat {
    if rs == [] then 0 else ServedTo(rs[..|rs| - 1], x) + if GoesTo(rs[|rs| - 1], x) then 1 else 0
  }

  /** The weight `x` has in the list, in all its places. */
  function WeightOf(nodes: seq<Node>, x: Node): int {
    if nodes == [] then 0 else (if nodes[0] == x then nodes[0].weight else 0) + WeightOf(nodes[1..], x)
  }

  ghost predicate FairWindow(rs: seq<Request>, i: nat, nodes: seq<Node>, x: Node) {
    i <= i + Sum(Weights(nodes)) <= |rs| ==>
      ServedTo(rs[i..i + Sum(Weights(nodes))], x) == WeightOf(nodes, x)
  }

  /** In whatever orders the list arrives, any `Sum` consecutive requests go to each node by its weight. */
  ghost predicate FairInAnyOrder(nodes: seq<Node>) {
    forall ts, rs, i: nat, x :: IsService(ts, rs) && Arrives(rs, nodes) ==> FairWindow(rs, i, nodes, x)
  }

  // ---------- one request ----------

  lemma {:induction false} LastMax(c: seq<int>) returns (p: nat)
    requires |c| > 0
    ensures p < |c| && (forall j :: 0 <= j < |c| ==> c[j] <= c[p]) && (forall j :: p < j < |c| ==> c[j] < c[p])
  {
    p := |c| - 1;
    if p > 0 {
      var q := LastMax(c[..p]);
      if c[p] < c[q] { p := q; }
    }
  }

  function Swapped<T>(s: seq<T>, p: nat, q: nat): (r: seq<T>)
    requires p < |s| && q < |s|
    ensures |r| == |s|
  {
    s[p := s[q]][q := s[p]]
  }

  lemma SwappedMultiset<T>(s: seq<T>, p: nat, q: nat)
    requires p < |s| && q < |s|
    ensures multiset(Swapped(s, p, q)) == multiset(s)
  {
  }

  lemma SwappedShares(nodes: seq<Node>, p: nat, q: nat)
    requires Good(nodes) && p < |nodes| && q < |nodes|
    ensures var arr := Swapped(nodes, p, q);
            multiset(arr) == multiset(nodes) && Good(arr) && Signature(Parts(arr)) == Signature(Parts(nodes))
  {
    var arr := Swapped(nodes, p, q);
    SwappedMultiset(nodes, p, q);
    forall n | n in arr ensures n in nodes { assert n in multiset(arr); }
    assert Parts(arr) == Swapped(Parts(nodes), p, q);
    SwappedMultiset(Parts(nodes), p, q);
    SameSignature(arr, nodes);
  }

  predicate Heaviest(nodes: seq<Node>, q: nat) {
    q < |nodes| && forall j :: 0 <= j < |nodes| ==> nodes[j].weight <= nodes[q].weight
  }

  /** Whatever the vector, with the heaviest node in the place of its last greatest entry that node is picked. */
  lemma HeaviestIsPicked(nodes: seq<Node>, q: nat, c: seq<int>) returns (p: nat)
    requires Heaviest(nodes, q) && |c| == |nodes|
    ensures p < |nodes| && Picked(Weights(Swapped(nodes, p, q)), c, p)
  {
    p := LastMax(c);
  }

  // ---------- whole services ----------

  lemma ServiceAppended(ts: seq<Table>, rs: seq<Request>, r: Request, t: Table)
    requires IsService(ts, rs) && Good(r.nodes) && ServedRequest(ts[|rs|], r, t)
    ensures IsService(ts + [t], rs + [r])
  {
    var us, ss := ts + [t], rs + [r];
    forall k | 0 <= k < |ss| ensures Good(ss[k].nodes) && ServedRequest(us[k], ss[k], us[k + 1]) {
      if k < |rs| { assert ServedRequest(ts[k], rs[k], ts[k + 1]); }
    }
  }

  lemma VectorLength(ts: seq<Table>, rs: seq<Request>, nodes: seq<Node>, key: string)
    requires IsService(ts, rs) && HasKey(nodes, key)
    ensures |VectorFor(ts[|rs|], key, |nodes|)| == |nodes|
  {
    ServiceKeepsTableOk(ts, rs, |rs|);
    GoodFits(nodes, key);
    VectorFits(ShapeOf, ts[|rs|], key, Weights(nodes));
  }

  lemma ServeHeaviest(ts: seq<Table>, rs: seq<Request>, nodes: seq<Node>, q: nat) returns (r: Request, t: Table)
    requires IsService(ts, rs) && Good(nodes) && Heaviest(nodes, q)
    ensures Good(r.nodes) && ServedRequest(ts[|rs|], r, t)
    ensures multiset(r.nodes) == multiset(nodes) && GoesTo(r, nodes[q])
  {
    var key := Signature(Parts(nodes));
    VectorLength(ts, rs, nodes, key);
    var p := HeaviestIsPicked(nodes, q, VectorFor(ts[|rs|], key, |nodes|));
    var arr := Swapped(nodes, p, q);
    SwappedShares(nodes, p, q);
    r, t := Request(arr, p), NextTable(ts[|rs|], key, Weights(arr), p);
  }

  ghost predicate AllGoTo(rs: seq<Request>, y: Node) { forall k :: 0 <= k < |rs| ==> GoesTo(rs[k], y) }

  lemma AnotherArrives(rs: seq<Request>, r: Request, nodes: seq<Node>, y: Node)
    requires Arrives(rs, nodes) && AllGoTo(rs, y) && multiset(r.nodes) == multiset(nodes) && GoesTo(r, y)
    ensures Arrives(rs + [r], nodes) && AllGoTo(rs + [r], y)
  {
  }

  lemma ServeAnother(ts: seq<Table>, rs: seq<Request>, nodes: seq<Node>, q: nat)
    returns (us: seq<Table>, ss: seq<Request>)
    requires Good(nodes) && Heaviest(nodes, q)
    requires IsService(ts, rs) && Arrives(rs, nodes) && AllGoTo(rs, nodes[q])
    ensures IsService(us, ss) && Arrives(ss, nodes) && AllGoTo(ss, nodes[q]) && |ss| == |rs| + 1
  {
    var r, t := ServeHeaviest(ts, rs, nodes, q);
    ServiceAppended(ts, rs, r, t);
    AnotherArrives(rs, r, nodes, nodes[q]);
    us, ss := ts + [t], rs + [r];
  }

  /** There is a service of any length in which the list arrives in such orders that every request goes to
      its heaviest node. */
  lemma {:induction false} HeaviestTakesAll(nodes: seq<Node>, q: nat, n: nat)
    returns (ts: seq<Table>, rs: seq<Request>)
    requires Good(nodes) && Heaviest(nodes, q)
    ensures IsService(ts, rs) && |rs| == n && Arrives(rs, nodes) && AllGoTo(rs, nodes[q])
  {
    if n == 0 {
      ts, rs := [map[]], [];
    } else {
      ts, rs := HeaviestTakesAll(nodes, q, n - 1);
      ts, rs := ServeAnother(ts, rs, nodes, q);
    }
  }

  // ---------- when the order does not matter ----------

  predicate Only(nodes: seq<Node>, y: Node) { forall i :: 0 <= i < |nodes| ==> nodes[i] == y }

  ghost predicate AllWeigh(nodes: seq<Node>) { forall n :: n in nodes ==> n.weight > 0 }

  lemma {:induction false} WeightOfPart(nodes: seq<Node>, x: Node)
    requires AllWeigh(nodes)
    ensures 0 <= WeightOf(nodes, x) <= Sum(Weights(nodes))
  {
    if nodes != [] {
      assert Weights(nodes)[1..] == Weights(nodes[1..]) && nodes[0] in nodes;
      WeightOfPart(nodes[1..], x);
    }
  }

  /** A node is not the whole list if another is in it. */
  lemma {:induction false} WeightOfOne(nodes: seq<Node>, x: Node, y: Node)
    requires AllWeigh(nodes) && y in nodes && x != y
    ensures WeightOf(nodes, x) < Sum(Weights(nodes))
  {
    assert Weights(nodes)[1..] == Weights(nodes[1..]) && nodes[0] in nodes;
    if nodes[0] == y { WeightOfPart(nodes[1..], x); } else { WeightOfOne(nodes[1..], x, y); }
  }

  lemma {:induction false} WeightOfAlike(nodes: seq<Node>, y: Node, x: Node)
    requires Only(nodes, y)
    ensures WeightOf(nodes, x) == if x == y then Sum(Weights(nodes)) else 0
  {
    if nodes != [] {
      assert Weights(nodes)[1..] == Weights(nodes[1..]) && nodes[0] in nodes;
      WeightOfAlike(nodes[1..], y, x);
    }
  }

  lemma {:induction false} AllServedTo(rs: seq<Request>, y: Node, x: Node)
    requires AllGoTo(rs, y)
    ensures ServedTo(rs, x) == if x == y then |rs| else 0
  {
    if rs != [] { AllServedTo(rs[..|rs| - 1], y, x); }
  }

  lemma FindHeaviest(nodes: seq<Node>) returns (q: nat)
    requires nodes != []
    ensures Heaviest(nodes, q)
  {
    q := LastMax(Weights(nodes));
  }

  ghost predicate AllAlike(nodes: seq<Node>) {
    forall i, j :: 0 <= i < |nodes| && 0 <= j < |nodes| ==> nodes[i] == nodes[j]
  }

  lemma AlikeGoes(nodes: seq<Node>, y: Node, ts: seq<Table>, rs: seq<Request>, k: nat)
    requires Only(nodes, y) && IsService(ts, rs) && Arrives(rs, nodes) && k < |rs|
    ensures GoesTo(rs[k], y)
  {
    assert ServedRequest(ts[k], rs[k], ts[k + 1]);
    assert rs[k].nodes[rs[k].pick] in multiset(nodes);
  }

  lemma AlikeWindow(nodes: seq<Node>, y: Node, rs: seq<Request>, i: nat, x: Node)
    requires Only(nodes, y) && AllGoTo(rs, y)
    ensures FairWindow(rs, i, nodes, x)
  {
    var total := Sum(Weights(nodes));
    if i <= i + total <= |rs| {
      AllServedTo(rs[i..i + total], y, x);
      WeightOfAlike(nodes, y, x);
    }
  }

  lemma AlikeIsFair(nodes: seq<Node>, y: Node, ts: seq<Table>, rs: seq<Request>, i: nat, x: Node)
    requires Only(nodes, y) && IsService(ts, rs) && Arrives(rs, nodes)
    ensures FairWindow(rs, i, nodes, x)
  {
    forall k | 0 <= k < |rs| ensures GoesTo(rs[k], y) { AlikeGoes(nodes, y, ts, rs, k); }
    AlikeWindow(nodes, y, rs, i, x);
  }

  lemma AllToOneIsUnfair(nodes: seq<Node>, rs: seq<Request>, x: Node, y: Node)
    requires AllWeigh(nodes) && y in nodes && x != y && AllGoTo(rs, x) && |rs| == Sum(Weights(nodes))
    ensures !FairWindow(rs, 0, nodes, x)
  {
    WeightOfOne(nodes, x, y);
    AllServedTo(rs, x, x);
    assert rs[0..0 + Sum(Weights(nodes))] == rs;
  }

  lemma UnlikeIsUnfair(nodes: seq<Node>, q: nat, y: Node)
    requires Good(nodes) && Heaviest(nodes, q) && y in nodes && y != nodes[q]
    ensures !FairInAnyOrder(nodes)
  {
    WeightOfPart(nodes, nodes[q]);
    var ts, rs := HeaviestTakesAll(nodes, q, Sum(Weights(nodes)));
    AllToOneIsUnfair(nodes, rs, nodes[q], y);
  }

  /** A list is served fairly in whatever orders it arrives if and only if its nodes are all the same. */
  lemma FairInAnyOrderIff(nodes: seq<Node>)
    requires Good(nodes)
    ensures FairInAnyOrder(nodes) <==> AllAlike(nodes)
  {
    if AllAlike(nodes) {
      forall ts, rs, i: nat, x | IsService(ts, rs) && Arrives(rs, nodes) ensures FairWindow(rs, i, nodes, x) {
        AlikeIsFair(nodes, nodes[0], ts, rs, i, x);
      }
    } else {
      var i, j :| 0 <= i < |nodes| && 0 <= j < |nodes| && nodes[i] != nodes[j];
      var q := FindHeaviest(nodes);
      UnlikeIsUnfair(nodes, q, if nodes[i] == nodes[q] then nodes[j] else nodes[i]);
    }
  }

  // ---------- a list that arrives in alternating order ----------

  /** The list of two nodes, the other way round at every second request. */
  function Turned(a: Node, b: Node, k: nat): seq<Node> { if k % 2 == 0 then [a, b] else [b, a] }

  lemma PartBarFree(n: Node)
    requires '|' !in n.address
    ensures '|' !in Part(n)
  {
  }

  lemma SwappedKey(a: Node, b: Node)
    requires '|' !in a.address && '|' !in b.address
    ensures Signature(Parts([a, b])) == Signature(Parts([b, a]))
  {
    PartBarFree(a);
    PartBarFree(b);
    var x, y := Part(a), Part(b);
    assert Parts([a, b]) == [x, y] && Parts([b, a]) == [y, x];
    SwappedParts(x, y);
  }

  /** Every request's list has the same signature. */
  ghost predicate SharesKey(rs: seq<Request>, key: string) {
    forall j :: 0 <= j < |rs| ==> Signature(Parts(rs[j].nodes)) == key
  }

  /** Node `a` has weight 2 and node `b` weight 1. If their list arrives in alternating order, both orders
      share one signature and one vector, and however many requests there are, every one of them goes to
      `a`. */
  lemma AlternatingStarves(a: Node, b: Node, ts: seq<Table>, rs: seq<Request>, k: nat)
    requires a.weight == 2 && b.weight == 1 && '|' !in a.address && '|' !in b.address
    requires IsService(ts, rs) && k < |rs| && forall j :: 0 <= j < |rs| ==> rs[j].nodes == Turned(a, b, j)
    ensures rs[k].pick < 2 && rs[k].nodes[rs[k].pick] == a
  {
    var key := TurnedKey(a, b, rs);
    PickInTurn(a, b, ts, rs, key, k);
  }

  lemma TurnedKey(a: Node, b: Node, rs: seq<Request>) returns (key: string)
    requires '|' !in a.address && '|' !in b.address
    requires forall j :: 0 <= j < |rs| ==> rs[j].nodes == Turned(a, b, j)
    ensures SharesKey(rs, key)
  {
    key := Signature(Parts([a, b]));
    SwappedKey(a, b);
    forall j | 0 <= j < |rs| ensures Signature(Parts(rs[j].nodes)) == key {
      assert rs[j].nodes == [a, b] || rs[j].nodes == [b, a];
    }
  }

  /** One request of the alternating service, on the table alone. */
  ghost predicate TurnServed(t: Table, key: string, k: nat, p: nat, t': Table) {
    && p < |VectorFor(t, key, 2)| == 2 && Picked(InTurn(k), VectorFor(t, key, 2), p)
    && t' == NextTable(t, key, InTurn(k), p)
  }

  lemma PickInTurn(a: Node, b: Node, ts: seq<Table>, rs: seq<Request>, key: string, k: nat)
    requires a.weight == 2 && b.weight == 1 && SharesKey(rs, key)
    requires IsService(ts, rs) && k < |rs| && forall j :: 0 <= j < |rs| ==> rs[j].nodes == Turned(a, b, j)
    ensures rs[k].pick == k % 2
  {
    forall j | 0 <= j < |rs| ensures TurnServed(ts[j], key, j, rs[j].pick, ts[j + 1]) {
      assert ServedRequest(ts[j], rs[j], ts[j + 1]);
      assert Weights(Turned(a, b, j)) == InTurn(j);
    }
    TurnedState(ts, rs, key, k);
    TurnedStep(ts[k], key, k, rs[k].pick, ts[k + 1]);
  }

  lemma {:induction false} TurnedState(ts: seq<Table>, rs: seq<Request>, key: string, k: nat)
    requires |ts| == |rs| + 1 && ts[0] == map[] && k <= |rs|
    requires forall j {:trigger rs[j]} :: 0 <= j < |rs| ==> TurnServed(ts[j], key, j, rs[j].pick, ts[j + 1])
    ensures VectorFor(ts[k], key, 2) == StateInTurn(k)
  {
    if k > 0 {
      TurnedState(ts, rs, key, k - 1);
      assert TurnServed(ts[k - 1], key, k - 1, rs[k - 1].pick, ts[k]);
      TurnedStep(ts[k - 1], key, k - 1, rs[k - 1].pick, ts[k]);
    }
  }

  lemma TurnedStep(t: Table, key: string, k: nat, p: nat, t': Table)
    requires TurnServed(t, key, k, p, t') && VectorFor(t, key, 2) == StateInTurn(k)
    ensures p == k % 2 && VectorFor(t', key, 2) == StateInTurn(k + 1)
  {
    ServedIsStep(t, key, InTurn(k), p, t');
    Turn(k, StateInTurn(k), p, VectorFor(t', key, 2));
  }

  lemma ServedIsStep(t: Table, key: string, w: seq<int>, p: nat, t': Table)
    requires p < |w| == |VectorFor(t, key, |w|)| && Picked(w, VectorFor(t, key, |w|), p)
    requires t' == NextTable(t, key, w, p)
    ensures IsStep(w, VectorFor(t, key, |w|), p, VectorFor(t', key, |w|))
  {
    assert key in t' && Cleared(t', key) == t';
  }
}
