/**
 A hash ring over abstract claims: entry `j` of `claims` is the set of points that node `j`
 claims. A point claimed twice belongs to the later node, and a key goes to the first point
 clockwise.
 */
module HashRing {
  import opened Common

  type Ring = map<nat, nat>

  /** `ring` holds exactly the claimed points, each under the last node that claims it. */
  ghost predicate IsRing(claims: seq<set<nat>>, ring: Ring) {
    && (forall h :: h in ring ==> ring[h] < |claims| && h in claims[ring[h]])
    && (forall h, j :: 0 <= j < |claims| && h in claims[j] ==> h in ring && j <= ring[h])
  }

  lemma RingUnique(claims: seq<set<nat>>, r: Ring, s: Ring)
    requires IsRing(claims, r) && IsRing(claims, s)
    ensures r == s
  {
    assert forall h :: h in r ==> h in s && r[h] <= s[h];
    assert forall h :: h in s ==> h in r && s[h] <= r[h];
  }

  /** `ring` is `before` with node `idx` inserted at `points`. */
  ghost predicate Inserted(before: Ring, points: set<nat>, idx: nat, ring: Ring) {
    && (forall h :: h in ring <==> h in before || h in points)
    && (forall h :: h in ring ==> ring[h] == if h in points then idx else before[h])
  }

  lemma RingExtends(claims: seq<set<nat>>, idx: nat, before: Ring, ring: Ring)
    requires idx < |claims| && IsRing(claims[..idx], before) && Inserted(before, claims[idx], idx, ring)
    ensures IsRing(claims[..idx + 1], ring)
  {
    var next := claims[..idx + 1];
    forall h, j | 0 <= j < |next| && h in next[j] ensures h in ring && j <= ring[h] {
      if j < idx { assert h in claims[..idx][j]; }
    }
    forall h | h in ring ensures ring[h] < |next| && h in next[ring[h]] {
      if h !in claims[idx] { assert h in claims[..idx][before[h]]; }
    }
  }

  ghost function WithNode(before: Ring, points: set<nat>, idx: nat): (ring: Ring)
    ensures Inserted(before, points, idx, ring)
  {
    before + map h | h in points :: idx
  }

  /** The ring of `claims`, as a value. */
  ghost function RingOf(claims: seq<set<nat>>): (ring: Ring)
    ensures IsRing(claims, ring)
  {
    if claims == [] then map[]
    else
      var last := |claims| - 1;
      var before := RingOf(claims[..last]);
      var ring := WithNode(before, claims[last], last);
      assert claims[..last + 1] == claims by { assert last + 1 == |claims|; }
      RingExtends(claims, last, before, ring);
      ring
  }

  // ---------- clockwise lookup ----------

  /** `k` is the first point at or after `h`, or the smallest point when there is none. */
  ghost predicate IsClockwise(points: set<nat>, h: nat, k: nat) {
    && k in points
    && if exists x :: x in points && h <= x
       then h <= k && forall x :: x in points && h <= x ==> k <= x
       else forall x :: x in points ==> k <= x
  }

  lemma ClockwiseUnique(points: set<nat>, h: nat, j: nat, k: nat)
    requires IsClockwise(points, h, j) && IsClockwise(points, h, k)
    ensures j == k
  {
  }

  method Lookup(ring: Ring, h: nat) returns (k: nat)
    requires ring != map[]
    ensures IsClockwise(ring.Keys, h, k)
  {
    var todo := ring.Keys;
    var first: Option<nat>, smallest: Option<nat> := None, None;
    while todo != {}
      invariant todo <= ring.Keys
      invariant todo == ring.Keys || smallest.Some?
      invariant smallest.Some? ==> smallest.value in ring
      invariant forall x :: x in ring && x !in todo ==> smallest.Some? && smallest.value <= x
      invariant first.Some? ==> first.value in ring && h <= first.value
      invariant forall x :: x in ring && x !in todo && h <= x ==> first.Some? && first.value <= x
    {
      var x :| x in todo;
      if smallest.None? || x < smallest.value { smallest := Some(x); }
      if h <= x && (first.None? || x < first.value) { first := Some(x); }
      todo := todo - {x};
    }
    k := if first.Some? then first.value else smallest.value;
  }

  /** Node `i` is who a key with hash `h` goes to. */
  ghost predicate Chosen(claims: seq<set<nat>>, h: nat, i: nat) {
    exists ring: Ring, k: nat :: IsRing(claims, ring) && IsClockwise(ring.Keys, h, k) && ring[k] == i
  }

  lemma ChosenUnique(claims: seq<set<nat>>, h: nat, i: nat, j: nat)
    requires Chosen(claims, h, i) && Chosen(claims, h, j)
    ensures i == j && i < |claims|
  {
    var r: Ring, k: nat :| IsRing(claims, r) && IsClockwise(r.Keys, h, k) && r[k] == i;
    var s: Ring, l: nat :| IsRing(claims, s) && IsClockwise(s.Keys, h, l) && s[l] == j;
    RingUnique(claims, r, s);
    ClockwiseUnique(r.Keys, h, k, l);
  }

  // ---------- minimal disruption ----------

  /** With `big`'s points a superset of `small`'s, a key whose point in `big` survives keeps it. */
  lemma SurvivingPoint(small: set<nat>, big: set<nat>, h: nat, k: nat, k': nat)
    requires small <= big && IsClockwise(big, h, k) && k in small && IsClockwise(small, h, k')
    ensures k' == k
  {
    if exists x :: x in big && h <= x { assert h <= k && k in small; }
  }

  function Without<T>(s: seq<T>, j: nat): (r: seq<T>)
    requires j < |s|
    ensures |r| == |s| - 1
    ensures forall i :: 0 <= i < |r| ==> r[i] == if i < j then s[i] else s[i + 1]
  {
    s[..j] + s[j + 1..]
  }

  /** The index a surviving entry has after entry `j` is gone. */
  function Shifted(i: nat, j: nat): nat { if i > j then i - 1 else i }

  lemma PointsShrink(claims: seq<set<nat>>, j: nat, ring: Ring, ring': Ring)
    requires j < |claims| && IsRing(claims, ring) && IsRing(Without(claims, j), ring')
    ensures ring'.Keys <= ring.Keys
  {
    forall h | h in ring' ensures h in ring {
      var i := ring'[h];
      assert h in claims[if i < j then i else i + 1];
    }
  }

  lemma OwnerStays(claims: seq<set<nat>>, j: nat, ring: Ring, ring': Ring, k: nat)
    requires j < |claims| && IsRing(claims, ring) && IsRing(Without(claims, j), ring')
    requires k in ring && ring[k] != j
    ensures k in ring' && ring'[k] == Shifted(ring[k], j)
  {
    assert k in Without(claims, j)[Shifted(ring[k], j)];
    var i := ring'[k];
    assert k in claims[if i < j then i else i + 1];
  }

  /** Taking away entry `j`, or read backwards adding it: a key either belonged to `j` or keeps its node. */
  lemma MinimalDisruption(claims: seq<set<nat>>, j: nat, h: nat, i: nat, i': nat)
    requires j < |claims| && Chosen(claims, h, i) && Chosen(Without(claims, j), h, i')
    ensures i == j || i' == Shifted(i, j)
  {
    var ring: Ring, k: nat :| IsRing(claims, ring) && IsClockwise(ring.Keys, h, k) && ring[k] == i;
    var ring': Ring, k': nat :|
      IsRing(Without(claims, j), ring') && IsClockwise(ring'.Keys, h, k') && ring'[k'] == i';
    if i != j {
      PointsShrink(claims, j, ring, ring');
      OwnerStays(claims, j, ring, ring', k);
      SurvivingPoint(ring'.Keys, ring.Keys, h, k, k');
    }
  }

  /** Listing two nodes the other way round leaves the choice with the same node, at the other position. */
  lemma SwappedRing(a: set<nat>, b: set<nat>, h: nat, i: nat, i': nat)
    requires a !! b && Chosen([a, b], h, i) && Chosen([b, a], h, i')
    ensures i < 2 && i' == 1 - i
  {
    var r: Ring, k: nat :| IsRing([a, b], r) && IsClockwise(r.Keys, h, k) && r[k] == i;
    var s: Ring, l: nat :| IsRing([b, a], s) && IsClockwise(s.Keys, h, l) && s[l] == i';
    SameKeys(a, b, r, s);
    ClockwiseUnique(r.Keys, h, k, l);
    assert k in [a, b][r[k]] && k in [b, a][s[k]];
  }

  lemma SameKeys(a: set<nat>, b: set<nat>, r: Ring, s: Ring)
    requires IsRing([a, b], r) && IsRing([b, a], s)
    ensures r.Keys == s.Keys == a + b
  {
    assert [a, b][0] == a && [a, b][1] == b && [b, a][0] == b && [b, a][1] == a;
    assert r.Keys == a + b;
    assert s.Keys == a + b;
  }

  // ---------- choices ----------

  /** A point that only node `i` claims, with none between `h` and it, decides. */
  lemma FirstPointDecides(claims: seq<set<nat>>, h: nat, k: nat, i: nat)
    requires i < |claims| && k in claims[i] && h <= k
    requires forall j :: 0 <= j < |claims| && j != i ==> k !in claims[j]
    requires forall j, x :: 0 <= j < |claims| && x in claims[j] && h <= x ==> k <= x
    ensures Chosen(claims, h, i)
  {
    var ring := RingOf(claims);
    assert k in ring.Keys && ring[k] == i;
    forall x | x in ring.Keys && h <= x ensures k <= x { assert x in claims[ring[x]]; }
    assert IsClockwise(ring.Keys, h, k);
  }

  /** Three points: 10 anywhere, 60 with node `ib` alone, and 50 with node `ia` alone or nowhere. */
  lemma SingledDecides(claims: seq<set<nat>>, ia: nat, ib: nat, more: bool)
    requires ia < |claims| && ib < |claims|
    requires forall j :: 0 <= j < |claims| ==> (50 in claims[j] <==> j == ia && more)
    requires forall j :: 0 <= j < |claims| ==> (60 in claims[j] <==> j == ib)
    requires forall j, x :: 0 <= j < |claims| && x in claims[j] ==> x == 10 || x == 50 || x == 60
    ensures Chosen(claims, 40, if more then ia else ib)
  {
    FirstPointDecides(claims, 40, if more then 50 else 60, if more then ia else ib);
  }

  lemma WithoutShifted<T>(s: seq<T>, j: nat, i: nat)
    requires j < |s| && i < |s| && i != j
    ensures Shifted(i, j) < |s| - 1 && Without(s, j)[Shifted(i, j)] == s[i]
  {
  }

  lemma LeastExists(points: set<nat>) returns (k: nat)
    requires points != {}
    ensures k in points && forall x :: x in points ==> k <= x
  {
    var first :| first in points;
    var smaller := set x | x in points && x < first;
    assert forall x :: x in smaller <==> x in points && x < first;
    k := first;
    if smaller != {} {
      assert smaller < points by { assert first in points && first !in smaller; }
      k := LeastExists(smaller);
    }
  }

  lemma ClockwiseExists(points: set<nat>, h: nat) returns (k: nat)
    requires points != {}
    ensures IsClockwise(points, h, k)
  {
    var later := set x | x in points && h <= x;
    assert forall x :: x in later <==> x in points && h <= x;
    if later != {} { k := LeastExists(later); } else { k := LeastExists(points); }
  }

  /** Every key has a node as soon as some point is claimed. */
  lemma ChosenExists(claims: seq<set<nat>>, h: nat, j: nat) returns (i: nat)
    requires j < |claims| && claims[j] != {}
    ensures Chosen(claims, h, i)
  {
    var ring := RingOf(claims);
    var p :| p in claims[j];
    assert p in ring.Keys;
    var k := ClockwiseExists(ring.Keys, h);
    i := ring[k];
  }
}
