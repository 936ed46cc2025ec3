/**
 What the order of a node list does to the cached ring. Lists of the same nodes in different
 orders share one signature, while a ring stores positions.
 */
module RingOrder {
  import opened Signatures
  import opened HashRing
  import opened ConsistentHash
  import opened CacheRace
  import opened RingCache

  // ---------- one ring for two orders ----------

  /** The ring of `l` gives every key the position in `m` that the ring of `m` gives it. */
  ghost predicate RoutesAlike(p: Params, l: seq<Node>, m: seq<Node>) {
    forall h, i, i' :: Chosen(Claims(p, l), h, i) && Chosen(Claims(p, m), h, i') ==> i == i'
  }

  lemma Find(l: seq<Node>, n: Node) returns (i: nat)
    requires n in multiset(l)
    ensures i < |l| && l[i] == n
  {
    i :| 0 <= i < |l| && l[i] == n;
  }

  lemma FirstDifference(l: seq<Node>, m: seq<Node>) returns (i: nat)
    requires multiset(l) == multiset(m) && l != m
    ensures i < |l| == |m| && l[i] != m[i]
  {
    assert |l| == |multiset(l)| && |m| == |multiset(m)|;
    i :| 0 <= i < |l| && l[i] != m[i];
  }

  /** Of two nodes whose first points a hash singles out, the key at 40 goes to the first. */
  lemma GoesToFirst(p: Params, nodes: seq<Node>, ia: nat, ib: nat)
    requires DistinctIds(nodes) && ia < |nodes| && ib < |nodes| && ia != ib
    requires p.hash == Singling(PointKey(nodes[ia], 0), PointKey(nodes[ib], 0))
    ensures Chosen(Claims(p, nodes), 40, ia)
  {
    CountsPositive(p.vnodes, nodes);
    var counts := CountsOf(p.vnodes, nodes);
    assert counts[ia] in counts;
    SingledChoice(p, nodes, counts, 0, ia, ib, true);
  }

  /** A reordered list has a hash and a key that its cached ring sends to the wrong node. */
  lemma ReorderedMisroutes(vnodes: nat, l: seq<Node>, m: seq<Node>) returns (p: Params, i: nat, k: nat)
    requires DistinctIds(l) && DistinctIds(m) && multiset(l) == multiset(m) && l != m
    ensures p.vnodes == vnodes && i != k && Chosen(Claims(p, l), 40, i) && Chosen(Claims(p, m), 40, k)
  {
    i := FirstDifference(l, m);
    assert l[i] in multiset(l) && m[i] in multiset(m);
    k := Find(m, l[i]);
    var j := Find(l, m[i]);
    p := Params(Singling(PointKey(l[i], 0), PointKey(m[i], 0)), vnodes);
    GoesToFirst(p, l, i, j);
    GoesToFirst(p, m, k, i);
  }

  /** One list's ring serves another order of it, whatever the hash, if and only if the order is the same. */
  lemma RoutesAlikeIff(vnodes: nat, l: seq<Node>, m: seq<Node>)
    requires DistinctIds(l) && DistinctIds(m) && multiset(l) == multiset(m)
    ensures (forall p: Params :: p.vnodes == vnodes ==> RoutesAlike(p, l, m)) <==> l == m
  {
    if l == m {
      forall p: Params | p.vnodes == vnodes ensures RoutesAlike(p, l, m) {
        forall h, i: nat, i': nat | Chosen(Claims(p, l), h, i) && Chosen(Claims(p, m), h, i') ensures i == i' {
          ChosenUnique(Claims(p, l), h, i, i');
        }
      }
    } else {
      var p, i, k := ReorderedMisroutes(vnodes, l, m);
      assert !RoutesAlike(p, l, m);
    }
  }

  // ---------- all runs of the cache ----------

  /** What the ring sees of a node: its id, address and weight. */
  function Face(n: Node): Node { n.(upstreamId := 0, enabled := true) }

  function Faces(nodes: seq<Node>): (r: seq<Node>)
    ensures |r| == |nodes| && forall i :: 0 <= i < |nodes| ==> r[i] == Face(nodes[i])
  {
    seq(|nodes|, i requires 0 <= i < |nodes| => Face(nodes[i]))
  }

  /** Lists the balancer may be asked about: ids do not repeat within a list, and addresses have no separator.
      Between lists a node may change its address or weight. */
  ghost predicate Known(lists: iset<seq<Node>>) { forall l :: l in lists ==> Askable(l) }

  ghost predicate Askable(l: seq<Node>) { l != [] && DistinctIds(l) && NoBars(l) }

  ghost predicate NoBars(nodes: seq<Node>) { forall n :: n in nodes ==> '|' !in n.address }

  ghost predicate Plain(nodes: seq<Node>) { forall i :: 0 <= i < |nodes| ==> nodes[i] == Face(nodes[i]) }

  /** No two lists have the same ids, addresses and weights in different orders. */
  ghost predicate OneOrder(lists: iset<seq<Node>>) {
    forall l, m :: l in lists && m in lists && multiset(Faces(l)) == multiset(Faces(m)) ==> Faces(l) == Faces(m)
  }

  lemma FacesAskable(l: seq<Node>)
    requires Askable(l)
    ensures Askable(Faces(l)) && Plain(Faces(l)) && Labels(Faces(l)) == Labels(l)
  {
    var f := Faces(l);
    forall n | n in f ensures '|' !in n.address {
      var i :| 0 <= i < |f| && f[i] == n;
      assert l[i] in l;
    }
  }

  lemma {:induction false} HeaviestOfFaces(l: seq<Node>)
    ensures Heaviest(Faces(l)) == Heaviest(l)
  {
    if l != [] {
      assert Faces(l)[1..] == Faces(l[1..]);
      HeaviestOfFaces(l[1..]);
    }
  }

  lemma {:induction false} PointsOfFace(p: Params, n: Node, count: nat)
    ensures Points(p, Face(n), count) == Points(p, n, count)
  {
    if count > 0 { PointsOfFace(p, n, count - 1); }
  }

  lemma ClaimsOfFaces(p: Params, l: seq<Node>)
    ensures Claims(p, Faces(l)) == Claims(p, l)
  {
    HeaviestOfFaces(l);
    var x, y := Claims(p, Faces(l)), Claims(p, l);
    forall j | 0 <= j < |l| ensures x[j] == y[j] {
      PointsOfFace(p, l[j], PointCount(p.vnodes, l[j].weight, Heaviest(l)));
    }
  }

  lemma BarFreeLabels(nodes: seq<Node>)
    requires NoBars(nodes)
    ensures BarFree(Labels(nodes))
  {
    var labels := Labels(nodes);
    forall i | 0 <= i < |labels| ensures '|' !in labels[i] {
      assert nodes[i] in nodes;
      LabelBarFree(nodes[i]);
    }
  }

  ghost predicate Distinct<T>(s: seq<T>) { forall i, j :: 0 <= i < j < |s| ==> s[i] != s[j] }

  lemma {:induction false} OnesOnly<T>(s: seq<T>, x: T)
    requires Distinct(s)
    ensures multiset(s)[x] == if x in s then 1 else 0
  {
    if s != [] {
      assert s == [s[0]] + s[1..];
      OnesOnly(s[1..], x);
    }
  }

  lemma SameMembersSameMultiset<T>(s: seq<T>, t: seq<T>)
    requires Distinct(s) && Distinct(t) && forall x :: x in s <==> x in t
    ensures multiset(s) == multiset(t)
  {
    forall x ensures multiset(s)[x] == multiset(t)[x] {
      OnesOnly(s, x);
      OnesOnly(t, x);
    }
  }

  lemma DistinctLabels(nodes: seq<Node>)
    requires DistinctIds(nodes)
    ensures Distinct(nodes) && Distinct(Labels(nodes))
  {
    var labels := Labels(nodes);
    forall i, j | 0 <= i < j < |labels| ensures labels[i] != labels[j] {
      if labels[i] == labels[j] { LabelDecides(nodes[i], nodes[j]); }
    }
  }

  /** A node with the same label in the other list is the node itself. */
  lemma LabelledIn(l: seq<Node>, m: seq<Node>, n: Node)
    requires Plain(l) && Plain(m) && multiset(Labels(l)) == multiset(Labels(m)) && n in l
    ensures n in m
  {
    var k := SameLabel(l, m, n);
    LabelDecides(k, n);
    var i :| 0 <= i < |l| && l[i] == n;
    var j :| 0 <= j < |m| && m[j] == k;
  }

  lemma LabelKept(l: seq<Node>, m: seq<Node>, part: string)
    requires multiset(l) == multiset(m) && part in Labels(l)
    ensures part in Labels(m)
  {
    var i :| 0 <= i < |l| && Labels(l)[i] == part;
    assert l[i] in multiset(m);
    var j := Find(m, l[i]);
    assert Labels(m)[j] == part;
  }

  /** Lists share a signature exactly when they have the same ids, addresses and weights in some order. */
  lemma SharesSignatureIff(l: seq<Node>, m: seq<Node>)
    requires Askable(l) && Askable(m)
    ensures SignatureFor(l) == SignatureFor(m) <==> multiset(Faces(l)) == multiset(Faces(m))
  {
    FacesAskable(l);
    FacesAskable(m);
    PlainShareIff(Faces(l), Faces(m));
  }

  lemma PlainShareIff(l: seq<Node>, m: seq<Node>)
    requires Askable(l) && Askable(m) && Plain(l) && Plain(m)
    ensures SignatureFor(l) == SignatureFor(m) <==> multiset(l) == multiset(m)
  {
    BarFreeLabels(l);
    BarFreeLabels(m);
    SignatureIff(Labels(l), Labels(m));
    DistinctLabels(l);
    DistinctLabels(m);
    if multiset(Labels(l)) == multiset(Labels(m)) {
      forall n ensures n in l <==> n in m {
        if n in l { LabelledIn(l, m, n); }
        if n in m { LabelledIn(m, l, n); }
      }
      SameMembersSameMultiset(l, m);
    }
    if multiset(l) == multiset(m) {
      forall x ensures x in Labels(l) <==> x in Labels(m) {
        if x in Labels(l) { LabelKept(l, m, x); }
        if x in Labels(m) { LabelKept(m, l, x); }
      }
      SameMembersSameMultiset(Labels(l), Labels(m));
    }
  }

  lemma OtherRing(l: seq<set<nat>>, m: seq<set<nat>>, h: nat, i: nat, k: nat)
    requires Chosen(l, h, i) && Chosen(m, h, k) && i != k
    ensures RingOf(l) != RingOf(m)
  {
    var r: Ring, x: nat :| IsRing(l, r) && IsClockwise(r.Keys, h, x) && r[x] == i;
    var s: Ring, y: nat :| IsRing(m, s) && IsClockwise(s.Keys, h, y) && s[y] == k;
    RingUnique(l, r, RingOf(l));
    RingUnique(m, s, RingOf(m));
    if r == s { ClockwiseUnique(r.Keys, h, x, y); }
  }

  lemma SameFacesSameRing(p: Params, l: seq<Node>, m: seq<Node>)
    requires Faces(l) == Faces(m)
    ensures Claims(p, l) == Claims(p, m)
  {
    ClaimsOfFaces(p, l);
    ClaimsOfFaces(p, m);
  }

  lemma OneOrderSameRing(p: Params, lists: iset<seq<Node>>, l: seq<Node>, m: seq<Node>)
    requires Known(lists) && OneOrder(lists) && l in lists && m in lists && SignatureFor(l) == SignatureFor(m)
    ensures Claims(p, l) == Claims(p, m)
  {
    assert Askable(l) && Askable(m);
    SharesSignatureIff(l, m);
    SameFacesSameRing(p, l, m);
  }

  /** What the cache keeps for a list depends on its claims alone. */
  ghost predicate BuildsRings(p: Params, c: Caching<string, seq<Node>, Ring>) {
    c.sig == SignatureFor && forall l, m :: Claims(p, l) == Claims(p, m) ==> c.build(l) == c.build(m)
  }

  lemma CachingBuildsRings(p: Params)
    ensures BuildsRings(p, RingCaching(p))
  {
  }

  lemma OneOrderDecides(p: Params, c: Caching<string, seq<Node>, Ring>, lists: iset<seq<Node>>)
    requires BuildsRings(p, c) && Known(lists) && OneOrder(lists)
    ensures Decides(c, lists)
  {
    forall l, m | l in lists && m in lists && c.sig(l) == c.sig(m) ensures c.build(l) == c.build(m) {
      OneOrderSameRing(p, lists, l, m);
    }
  }

  lemma OtherOrderOtherRing(vnodes: nat, l: seq<Node>, m: seq<Node>) returns (p: Params)
    requires DistinctIds(l) && DistinctIds(m) && multiset(l) == multiset(m) && l != m
    ensures p.vnodes == vnodes && RingOf(Claims(p, l)) != RingOf(Claims(p, m))
  {
    var i, k;
    p, i, k := ReorderedMisroutes(vnodes, l, m);
    OtherRing(Claims(p, l), Claims(p, m), 40, i, k);
  }

  lemma SharedRingIsStale(p: Params, lists: iset<seq<Node>>, l: seq<Node>, m: seq<Node>)
    requires l in lists && m in lists && SignatureFor(l) == SignatureFor(m)
    requires RingOf(Claims(p, l)) != RingOf(Claims(p, m))
    ensures !AlwaysFresh(RingCaching(p), lists)
  {
    var c := RingCaching(p);
    assert c.sig(l) == c.sig(m) && c.build(l) != c.build(m);
    UndecidedIsStale(c, lists, l, m);
  }

  lemma TwoOrdersGoStale(vnodes: nat, lists: iset<seq<Node>>, l: seq<Node>, m: seq<Node>) returns (p: Params)
    requires Known(lists) && l in lists && m in lists
    requires multiset(Faces(l)) == multiset(Faces(m)) && Faces(l) != Faces(m)
    ensures p.vnodes == vnodes && !AlwaysFresh(RingCaching(p), lists)
  {
    assert Askable(l) && Askable(m);
    SharesSignatureIff(l, m);
    FacesAskable(l);
    FacesAskable(m);
    p := OtherOrderOtherRing(vnodes, Faces(l), Faces(m));
    ClaimsOfFaces(p, l);
    ClaimsOfFaces(p, m);
    SharedRingIsStale(p, lists, l, m);
  }

  /** Whatever the hash, in every run from an empty cache every call gets the ring of its own list, if and only
      if no list comes in two orders. */
  lemma CachedIsFreshIff(vnodes: nat, lists: iset<seq<Node>>)
    requires Known(lists)
    ensures (forall p: Params :: p.vnodes == vnodes ==> AlwaysFresh(RingCaching(p), lists)) <==> OneOrder(lists)
  {
    if OneOrder(lists) {
      forall p: Params | p.vnodes == vnodes ensures AlwaysFresh(RingCaching(p), lists) {
        CachingBuildsRings(p);
        OneOrderDecides(p, RingCaching(p), lists);
        AlwaysFreshIff(RingCaching(p), lists);
      }
    } else {
      var l, m :| l in lists && m in lists && multiset(Faces(l)) == multiset(Faces(m)) && Faces(l) != Faces(m);
      var p := TwoOrdersGoStale(vnodes, lists, l, m);
    }
  }

  // ---------- two nodes, every key ----------

  /** The order matters: two nodes listed the other way round share the signature, and the ring cached for
      one order then sends every key to the node a fresh ring would not choose. */
  lemma ReorderedListMisroutes(p: Params, a: Node, b: Node, x: set<nat>, y: set<nat>, h: nat,
                               cached: nat, ideal: nat)
    requires a != b && '|' !in a.address && '|' !in b.address
    requires Claims(p, [a, b]) == [x, y] && x !! y
    requires Chosen(Claims(p, [a, b]), h, cached) && Chosen(Claims(p, [b, a]), h, ideal)
    ensures SignatureFor([a, b]) == SignatureFor([b, a])
    ensures cached < 2 && ideal < 2 && [b, a][cached] != [b, a][ideal]
  {
    SwappedSignature(a, b);
    SwappedClaims(p, a, b, x, y);
    SwappedRing(x, y, h, cached, ideal);
  }

  lemma SwappedSignature(a: Node, b: Node)
    requires '|' !in a.address && '|' !in b.address
    ensures SignatureFor([a, b]) == SignatureFor([b, a])
  {
    LabelBarFree(a);
    LabelBarFree(b);
    var x, y := Label(a), Label(b);
    assert Labels([a, b]) == [x, y] && Labels([b, a]) == [y, x];
    SwappedParts(x, y);
  }

  lemma SwappedClaims(p: Params, a: Node, b: Node, x: set<nat>, y: set<nat>)
    requires Claims(p, [a, b]) == [x, y]
    ensures Claims(p, [b, a]) == [y, x]
  {
    assert [a, b][1..] == [b] && [b, a][1..] == [a];
    assert Heaviest([a, b]) == Heaviest([b, a]);
  }
}
