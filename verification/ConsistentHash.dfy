/**
 The hash ring: every node owns a number of points in proportion to its weight, a key goes
 to the first point clockwise, and a point claimed twice belongs to the later node.

 The hash function is a parameter; it may collide.
 */
module ConsistentHash {
  import opened Signatures
  import opened HashRing
  import Division

  // ---------- points ----------

  function AtLeastOne(w: int): (r: nat)
    ensures r >= 1
  {
    if w < 1 then 1 else w
  }

  function PointKey(n: Node, i: nat): string { n.address + "#" + Decimal(n.id) + "#" + Decimal(i) }

  /** Points of a node of weight `w` when the heaviest node has weight `heaviest`. */
  function PointCount(vnodes: nat, w: int, heaviest: nat): (r: nat)
    requires heaviest >= 1
    ensures r >= 1
  {
    AtLeastOne(vnodes * AtLeastOne(w) / heaviest)
  }

  function Heaviest(nodes: seq<Node>): (m: nat)
    ensures m >= 1
    ensures forall n :: n in nodes ==> AtLeastOne(n.weight) <= m
  {
    if nodes == [] then 1
    else
      var m := Heaviest(nodes[1..]);
      if m < AtLeastOne(nodes[0].weight) then AtLeastOne(nodes[0].weight) else m
  }

  /** Configuration of one balancer: its hash function and base number of points. */
  datatype Params = Params(hash: string -> nat, vnodes: nat)

  /** The first `count` points of a node. */
  function Points(p: Params, n: Node, count: nat): set<nat> {
    if count == 0 then {} else Points(p, n, count - 1) + {p.hash(PointKey(n, count - 1))}
  }

  /** How many points each node has. */
  function Counts(vnodes: nat, nodes: seq<Node>, heaviest: nat): (counts: seq<nat>)
    requires heaviest >= 1
    ensures |counts| == |nodes|
    ensures forall j :: 0 <= j < |nodes| ==> counts[j] == PointCount(vnodes, nodes[j].weight, heaviest)
  {
    if nodes == [] then [] else [PointCount(vnodes, nodes[0].weight, heaviest)] + Counts(vnodes, nodes[1..], heaviest)
  }

  function CountsOf(vnodes: nat, nodes: seq<Node>): seq<nat> { Counts(vnodes, nodes, Heaviest(nodes)) }

  /** The points each node claims. */
  function ClaimsFor(p: Params, nodes: seq<Node>, counts: seq<nat>): (claims: seq<set<nat>>)
    requires |counts| == |nodes|
    ensures |claims| == |nodes| && forall j :: 0 <= j < |nodes| ==> claims[j] == Points(p, nodes[j], counts[j])
  {
    if nodes == [] then [] else [Points(p, nodes[0], counts[0])] + ClaimsFor(p, nodes[1..], counts[1..])
  }

  function Claims(p: Params, nodes: seq<Node>): seq<set<nat>> { ClaimsFor(p, nodes, CountsOf(p.vnodes, nodes)) }

  // ---------- building ----------

  method InsertPoints(p: Params, n: Node, idx: nat, count: nat, before: Ring) returns (ring: Ring)
    ensures Inserted(before, Points(p, n, count), idx, ring)
    ensures count > 0 ==> ring != map[]
  {
    ring := before;
    for i := 0 to count
      invariant Inserted(before, Points(p, n, i), idx, ring)
      invariant i > 0 ==> ring != map[]
    {
      ring := ring[p.hash(PointKey(n, i)) := idx];
      assert p.hash(PointKey(n, i)) in ring;
    }
  }

  lemma ClaimAt(p: Params, nodes: seq<Node>, idx: nat, claims: seq<set<nat>>)
    requires idx < |nodes| && claims == Claims(p, nodes)
    ensures |claims| == |nodes|
    ensures claims[idx] == Points(p, nodes[idx], PointCount(p.vnodes, nodes[idx].weight, Heaviest(nodes)))
  {
  }

  /** Nested insertion: node by node, point by point, later insertions overwriting. */
  method BuildRing(p: Params, nodes: seq<Node>) returns (ring: Ring)
    ensures IsRing(Claims(p, nodes), ring)
    ensures nodes != [] ==> ring != map[]
  {
    ring := map[];
    var heaviest := Heaviest(nodes);
    ghost var claims := Claims(p, nodes);
    for idx := 0 to |nodes|
      invariant IsRing(claims[..idx], ring)
      invariant idx > 0 ==> ring != map[]
    {
      var count := PointCount(p.vnodes, nodes[idx].weight, heaviest);
      var before := ring;
      ring := InsertPoints(p, nodes[idx], idx, count, before);
      ClaimAt(p, nodes, idx, claims);
      RingExtends(claims, idx, before, ring);
    }
    assert claims[..|nodes|] == claims;
  }

  // ---------- how many points ----------

  /** Points follow weight: no fewer for a heavier node, the full number for the heaviest, and otherwise the
      node's share of it rounded down, but at least one. */
  lemma PointsFollowWeight(vnodes: nat, w: int, w': int, heaviest: nat)
    requires w <= w' && AtLeastOne(w') <= heaviest
    ensures PointCount(vnodes, w, heaviest) <= PointCount(vnodes, w', heaviest) <= AtLeastOne(vnodes)
    ensures PointCount(vnodes, heaviest, heaviest) == AtLeastOne(vnodes)
    ensures PointCount(vnodes, w, heaviest) == 1 || PointCount(vnodes, w, heaviest) * heaviest <= vnodes * AtLeastOne(w)
    ensures vnodes * AtLeastOne(w) < (PointCount(vnodes, w, heaviest) + 1) * heaviest
  {
    Count(vnodes, AtLeastOne(w), AtLeastOne(w'), heaviest);
    Count(vnodes, AtLeastOne(w'), heaviest, heaviest);
    Division.Exact(vnodes, heaviest);
    Division.Bounds(vnodes * AtLeastOne(w), heaviest);
    var share := vnodes * AtLeastOne(w) / heaviest;
    if share < 1 { Division.Larger(share + 1, 2, heaviest); }
  }

  lemma Count(vnodes: nat, v: nat, w: nat, heaviest: nat)
    requires v <= w && heaviest >= 1
    ensures vnodes * v / heaviest <= vnodes * w / heaviest
  {
    Division.Larger(v, w, vnodes);
    Division.Commute(v, vnodes);
    Division.Commute(w, vnodes);
    Division.Grows(vnodes * v, vnodes * w, heaviest);
  }

  // ---------- removing and adding a node ----------

  /** Node `i` has as many points with `j` gone. */
  predicate KeepsCount(vnodes: nat, nodes: seq<Node>, j: nat, i: nat)
    requires j < |nodes| && i < |nodes|
  {
    SameCount(vnodes, nodes[i].weight, Heaviest(nodes), Heaviest(Without(nodes, j)))
  }

  predicate SameCount(vnodes: nat, w: int, before: nat, after: nat)
    requires before >= 1 && after >= 1
  {
    PointCount(vnodes, w, before) == PointCount(vnodes, w, after)
  }

  ghost predicate KeepsCounts(vnodes: nat, nodes: seq<Node>, j: nat)
    requires j < |nodes|
  {
    forall i :: 0 <= i < |nodes| && i != j ==> KeepsCount(vnodes, nodes, j, i)
  }

  /** The greatest weight staying the same is enough. */
  lemma SameHeaviestKeepsCounts(vnodes: nat, nodes: seq<Node>, j: nat)
    requires j < |nodes| && Heaviest(Without(nodes, j)) == Heaviest(nodes)
    ensures KeepsCounts(vnodes, nodes, j)
  {
  }

  /** Removing node `j`, or read backwards adding it, moves only the keys of `j`: every other key keeps
      its node, as long as every staying node keeps its number of points. */
  lemma NodeLeaves(p: Params, nodes: seq<Node>, j: nat, h: nat, i: nat, i': nat)
    requires j < |nodes| && KeepsCounts(p.vnodes, nodes, j)
    requires Chosen(Claims(p, nodes), h, i) && Chosen(Claims(p, Without(nodes, j)), h, i')
    ensures i < |nodes| && i' < |nodes| - 1
    ensures i == j || Without(nodes, j)[i'] == nodes[i]
  {
    CountsWithout(p.vnodes, nodes, j);
    CountedLeaves(p, nodes, CountsOf(p.vnodes, nodes), j, h, i, i');
  }

  lemma CountedLeaves(p: Params, nodes: seq<Node>, counts: seq<nat>, j: nat, h: nat, i: nat, i': nat)
    requires j < |nodes| == |counts|
    requires Chosen(ClaimsFor(p, nodes, counts), h, i)
    requires Chosen(ClaimsFor(p, Without(nodes, j), Without(counts, j)), h, i')
    ensures i < |nodes| && i' < |nodes| - 1
    ensures i == j || Without(nodes, j)[i'] == nodes[i]
  {
    var claims, fewer := ClaimsFor(p, nodes, counts), ClaimsFor(p, Without(nodes, j), Without(counts, j));
    ClaimsWithout(p, nodes, counts, j, claims, fewer);
    ClaimedLeaves(nodes, claims, fewer, j, h, i, i');
  }

  lemma ClaimsWithout(
    p: Params, nodes: seq<Node>, counts: seq<nat>, j: nat, claims: seq<set<nat>>, fewer: seq<set<nat>>)
    requires j < |nodes| == |counts| && claims == ClaimsFor(p, nodes, counts)
    requires fewer == ClaimsFor(p, Without(nodes, j), Without(counts, j))
    ensures fewer == Without(claims, j)
  {
  }

  lemma ClaimedLeaves(nodes: seq<Node>, claims: seq<set<nat>>, fewer: seq<set<nat>>, j: nat, h: nat, i: nat, i': nat)
    requires j < |nodes| == |claims| && fewer == Without(claims, j) && Chosen(claims, h, i) && Chosen(fewer, h, i')
    ensures i < |nodes| && i' < |nodes| - 1
    ensures i == j || Without(nodes, j)[i'] == nodes[i]
  {
    ChosenUnique(claims, h, i, i);
    ChosenUnique(fewer, h, i', i');
    MinimalDisruption(claims, j, h, i, i');
    if i != j { WithoutShifted(nodes, j, i); }
  }

  lemma CountsWithout(vnodes: nat, nodes: seq<Node>, j: nat)
    requires j < |nodes| && KeepsCounts(vnodes, nodes, j)
    ensures CountsOf(vnodes, Without(nodes, j)) == Without(CountsOf(vnodes, nodes), j)
  {
    var x, counts := CountsOf(vnodes, Without(nodes, j)), CountsOf(vnodes, nodes);
    forall i | 0 <= i < |nodes| && i != j ensures Shifted(i, j) < |x| && x[Shifted(i, j)] == counts[i] {
      CountStays(vnodes, nodes, j, i);
    }
    SameWithout(counts, j, x);
  }

  lemma CountStays(vnodes: nat, nodes: seq<Node>, j: nat, i: nat)
    requires j < |nodes| && i < |nodes| && i != j && KeepsCount(vnodes, nodes, j, i)
    ensures Shifted(i, j) < |nodes| - 1
    ensures CountsOf(vnodes, Without(nodes, j))[Shifted(i, j)] == CountsOf(vnodes, nodes)[i]
  {
    WithoutShifted(nodes, j, i);
  }

  lemma SameWithout(counts: seq<nat>, j: nat, x: seq<nat>)
    requires j < |counts| && |x| == |counts| - 1
    requires forall i :: 0 <= i < |counts| && i != j ==> x[Shifted(i, j)] == counts[i]
    ensures x == Without(counts, j)
  {
    forall k | 0 <= k < |x| ensures x[k] == Without(counts, j)[k] {
      assert Shifted(if k < j then k else k + 1, j) == k;
    }
  }

  // ---------- when a staying node's points change ----------

  lemma PointKeyInjective(m: Node, i: nat, n: Node, k: nat)
    requires PointKey(m, i) == PointKey(n, k)
    ensures m.id == n.id && m.address == n.address && i == k
  {
    SplitAtLast(m.address + "#" + Decimal(m.id), '#', Decimal(i), n.address + "#" + Decimal(n.id), Decimal(k));
    SplitAtLast(m.address, '#', Decimal(m.id), n.address, Decimal(n.id));
    DecimalInjective(i, k);
    DecimalInjective(m.id, n.id);
  }

  lemma {:induction false} PointsHave(p: Params, n: Node, count: nat, i: nat)
    requires i < count
    ensures p.hash(PointKey(n, i)) in Points(p, n, count)
  {
    if i < count - 1 { PointsHave(p, n, count - 1, i); }
  }

  lemma {:induction false} PointsAre(p: Params, n: Node, count: nat, h: nat) returns (i: nat)
    requires h in Points(p, n, count)
    ensures i < count && p.hash(PointKey(n, i)) == h
  {
    if p.hash(PointKey(n, count - 1)) == h { i := count - 1; } else { i := PointsAre(p, n, count - 1, h); }
  }

  /** A hash that singles out one point of node `a` and one of node `b`. */
  function Singling(ka: string, kb: string): string -> nat {
    s => if s == ka then 50 else if s == kb then 60 else 10
  }

  /** Where the singled-out points are claimed, with `count` points for node `n`. */
  lemma SingledPoints(p: Params, n: Node, count: nat, a: Node, c: nat, b: Node)
    requires p.hash == Singling(PointKey(a, c), PointKey(b, 0)) && a.id != b.id && count >= 1
    ensures 50 in Points(p, n, count) ==> n.id == a.id && c < count
    ensures 60 in Points(p, n, count) ==> n.id == b.id
    ensures n == a && c < count ==> 50 in Points(p, n, count)
    ensures n == b ==> 60 in Points(p, n, count)
    ensures forall x :: x in Points(p, n, count) ==> x == 10 || x == 50 || x == 60
  {
    if 50 in Points(p, n, count) {
      var i := PointsAre(p, n, count, 50);
      PointKeyInjective(n, i, a, c);
    }
    if 60 in Points(p, n, count) {
      var i := PointsAre(p, n, count, 60);
      PointKeyInjective(n, i, b, 0);
    }
    if n == a && c < count { PointsHave(p, n, count, c); }
    if n == b { SingledOther(a, c, b); PointsHave(p, n, count, 0); }
    forall x | x in Points(p, n, count) ensures x == 10 || x == 50 || x == 60 { var i := PointsAre(p, n, count, x); }
  }

  lemma SingledOther(a: Node, c: nat, b: Node)
    requires a.id != b.id
    ensures PointKey(a, c) != PointKey(b, 0)
  {
    if PointKey(a, c) == PointKey(b, 0) { PointKeyInjective(a, c, b, 0); }
  }

  /** A key at 40 goes to `a` if `a` has more than `c` points, and to `b` otherwise. */
  lemma SingledChoice(p: Params, nodes: seq<Node>, counts: seq<nat>, c: nat, ia: nat, ib: nat, more: bool)
    requires DistinctIds(nodes) && ia < |nodes| && ib < |nodes| && ia != ib
    requires |counts| == |nodes| && forall n :: n in counts ==> n >= 1
    requires p.hash == Singling(PointKey(nodes[ia], c), PointKey(nodes[ib], 0)) && more == (c < counts[ia])
    ensures Chosen(ClaimsFor(p, nodes, counts), 40, if more then ia else ib)
  {
    var claims := ClaimsFor(p, nodes, counts);
    forall j | 0 <= j < |nodes|
      ensures 50 in claims[j] <==> j == ia && more
      ensures 60 in claims[j] <==> j == ib
      ensures forall x :: x in claims[j] ==> x == 10 || x == 50 || x == 60
    {
      assert counts[j] in counts;
      assert j != ia ==> nodes[j].id != nodes[ia].id;
      assert j != ib ==> nodes[j].id != nodes[ib].id;
      SingledPoints(p, nodes[j], counts[j], nodes[ia], c, nodes[ib]);
    }
    SingledDecides(claims, ia, ib, more);
  }

  lemma {:induction false} HeaviestIs(nodes: seq<Node>, m: nat)
    requires m >= 1 && forall n :: n in nodes ==> AtLeastOne(n.weight) <= m
    ensures Heaviest(nodes) <= m
  {
    if nodes != [] {
      assert nodes[0] in nodes;
      HeaviestIs(nodes[1..], m);
    }
  }

  lemma HeaviestShrinks(nodes: seq<Node>, j: nat)
    requires j < |nodes|
    ensures Heaviest(Without(nodes, j)) <= Heaviest(nodes)
  {
    forall n | n in Without(nodes, j) ensures AtLeastOne(n.weight) <= Heaviest(nodes) { assert n in nodes; }
    HeaviestIs(Without(nodes, j), Heaviest(nodes));
  }

  lemma CountGrows(vnodes: nat, w: int, less: nat, more: nat)
    requires 1 <= less <= more
    ensures PointCount(vnodes, w, more) <= PointCount(vnodes, w, less)
  {
    Division.Shrinks(vnodes * AtLeastOne(w), less, more);
  }

  lemma MorePoints(vnodes: nat, nodes: seq<Node>, j: nat, i: nat, before: seq<nat>, after: seq<nat>)
    requires j < |nodes| && i < |nodes| && i != j && !KeepsCount(vnodes, nodes, j, i)
    requires before == CountsOf(vnodes, nodes) && after == CountsOf(vnodes, Without(nodes, j))
    ensures before[i] < after[Shifted(i, j)]
  {
    WithoutShifted(nodes, j, i);
    HeaviestShrinks(nodes, j);
    CountGrows(vnodes, nodes[i].weight, Heaviest(Without(nodes, j)), Heaviest(nodes));
  }

  /** If a staying node gets more points when `j` leaves, some hash moves a key to it from another staying
      node. */
  lemma HeaviestLeaves(vnodes: nat, nodes: seq<Node>, j: nat, ia: nat, ib: nat) returns (p: Params)
    requires DistinctIds(nodes) && j < |nodes| && ia < |nodes| && ib < |nodes| && ia != ib && ia != j && ib != j
    requires !KeepsCount(vnodes, nodes, j, ia)
    ensures p.vnodes == vnodes && Chosen(Claims(p, nodes), 40, ib)
    ensures Chosen(Claims(p, Without(nodes, j)), 40, Shifted(ia, j)) && Without(nodes, j)[Shifted(ia, j)] != nodes[ib]
  {
    var before, after := CountsOf(vnodes, nodes), CountsOf(vnodes, Without(nodes, j));
    MorePoints(vnodes, nodes, j, ia, before, after);
    CountsPositive(vnodes, nodes);
    CountsPositive(vnodes, Without(nodes, j));
    OtherNode(nodes, j, ia, ib);
    p := Singled(vnodes, nodes, j, before, after, ia, ib);
  }

  lemma OtherNode(nodes: seq<Node>, j: nat, ia: nat, ib: nat)
    requires DistinctIds(nodes) && j < |nodes| && ia < |nodes| && ib < |nodes| && ia != ib && ia != j
    ensures Shifted(ia, j) < |nodes| - 1 && Without(nodes, j)[Shifted(ia, j)] != nodes[ib]
  {
    WithoutShifted(nodes, j, ia);
    assert nodes[ia].id != nodes[ib].id;
  }

  lemma CountsPositive(vnodes: nat, nodes: seq<Node>)
    ensures forall n :: n in CountsOf(vnodes, nodes) ==> n >= 1
  {
    var counts := CountsOf(vnodes, nodes);
    forall i | 0 <= i < |counts| ensures counts[i] >= 1 {
      assert counts[i] == PointCount(vnodes, nodes[i].weight, Heaviest(nodes));
    }
  }

  lemma DistinctWithout(nodes: seq<Node>, j: nat)
    requires j < |nodes| && DistinctIds(nodes)
    ensures DistinctIds(Without(nodes, j))
  {
  }

  lemma Singled(vnodes: nat, nodes: seq<Node>, j: nat, before: seq<nat>, after: seq<nat>, ia: nat, ib: nat)
    returns (p: Params)
    requires DistinctIds(nodes) && j < |nodes| && ia < |nodes| && ib < |nodes| && ia != ib && ia != j && ib != j
    requires |before| == |nodes| && |after| == |nodes| - 1 && before[ia] < after[Shifted(ia, j)]
    requires (forall n :: n in before ==> n >= 1) && (forall n :: n in after ==> n >= 1)
    ensures p.vnodes == vnodes && Chosen(ClaimsFor(p, nodes, before), 40, ib)
    ensures Chosen(ClaimsFor(p, Without(nodes, j), after), 40, Shifted(ia, j))
  {
    var c := before[ia];
    p := Params(Singling(PointKey(nodes[ia], c), PointKey(nodes[ib], 0)), vnodes);
    WithoutShifted(nodes, j, ia);
    WithoutShifted(nodes, j, ib);
    DistinctWithout(nodes, j);
    SingledChoice(p, nodes, before, c, ia, ib, false);
    SingledChoice(p, Without(nodes, j), after, c, Shifted(ia, j), Shifted(ib, j), true);
  }

  /** With these parameters, only the keys of `j` move when `j` leaves. */
  ghost predicate OnlyItsKeysMove(p: Params, nodes: seq<Node>, j: nat)
    requires j < |nodes|
  {
    forall h, i, i' :: Chosen(Claims(p, nodes), h, i) && Chosen(Claims(p, Without(nodes, j)), h, i') ==>
      i == j || SameNode(nodes, i, Without(nodes, j), i')
  }

  predicate SameNode(nodes: seq<Node>, i: nat, others: seq<Node>, i': nat) {
    i < |nodes| && i' < |others| && others[i'] == nodes[i]
  }

  /** Whatever the hash, only the keys of `j` move when it leaves, if and only if every staying node keeps its
      number of points or at most one node stays. */
  lemma OnlyItsKeysMoveIff(vnodes: nat, nodes: seq<Node>, j: nat)
    requires j < |nodes| && DistinctIds(nodes)
    ensures (forall p: Params :: p.vnodes == vnodes ==> OnlyItsKeysMove(p, nodes, j)) <==>
              KeepsCounts(vnodes, nodes, j) || |nodes| <= 2
  {
    if KeepsCounts(vnodes, nodes, j) || |nodes| <= 2 {
      forall p: Params | p.vnodes == vnodes ensures OnlyItsKeysMove(p, nodes, j) { StayingKeysStay(p, nodes, j); }
    } else {
      var ia :| 0 <= ia < |nodes| && ia != j && !KeepsCount(vnodes, nodes, j, ia);
      var ib := if ia != 0 && j != 0 then 0 else if ia != 1 && j != 1 then 1 else 2;
      var p := HeaviestLeaves(vnodes, nodes, j, ia, ib);
      assert !SameNode(nodes, ib, Without(nodes, j), Shifted(ia, j));
      assert !OnlyItsKeysMove(p, nodes, j);
    }
  }

  lemma StayingKeysStay(p: Params, nodes: seq<Node>, j: nat)
    requires j < |nodes| && (KeepsCounts(p.vnodes, nodes, j) || |nodes| <= 2)
    ensures OnlyItsKeysMove(p, nodes, j)
  {
    forall h, i: nat, i': nat | Chosen(Claims(p, nodes), h, i) && Chosen(Claims(p, Without(nodes, j)), h, i')
      ensures i == j || SameNode(nodes, i, Without(nodes, j), i')
    {
      ChosenUnique(Claims(p, nodes), h, i, i);
      ChosenUnique(Claims(p, Without(nodes, j)), h, i', i');
      if KeepsCounts(p.vnodes, nodes, j) { NodeLeaves(p, nodes, j, h, i, i'); }
    }
  }
}
