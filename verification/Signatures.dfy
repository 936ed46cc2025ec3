/**
 The string under which both stateful balancers remember a node list: one part per node,
 sorted, joined with '|'. Two lists get the same signature exactly when they have the same
 parts in some order, provided no part contains the separator.
 */
module Signatures {
  import Sorting

  datatype Node = Node(id: nat, upstreamId: nat, address: string, weight: int, enabled: bool)

  ghost predicate DistinctIds(nodes: seq<Node>) { forall i, j :: 0 <= i < j < |nodes| ==> nodes[i].id != nodes[j].id }

  // ---------- decimal numerals ----------

  function Decimal(n: nat): (s: string)
    ensures |s| > 0 && forall c :: c in s ==> '0' <= c <= '9'
  {
    if n < 10 then ["0123456789"[n]] else Decimal(n / 10) + ["0123456789"[n % 10]]
  }

  /** The number a string of digits denotes. */
  function Value(s: string): int {
    if s == [] then 0 else 10 * Value(s[..|s| - 1]) + (s[|s| - 1] as int - '0' as int)
  }

  /** `Decimal` writes the number it is given, without a leading zero. */
  lemma {:induction false} DecimalReads(n: nat)
    ensures Value(Decimal(n)) == n && (|Decimal(n)| > 1 ==> Decimal(n)[0] != '0')
  {
    DigitReads(n % 10);
    if n < 10 {
      assert Decimal(n)[..0] == [];
    } else {
      DecimalReads(n / 10);
      var front := Decimal(n / 10);
      assert Decimal(n)[..|front|] == front;
      if |front| == 1 { DigitReads(n / 10); }
    }
  }

  lemma DigitReads(d: nat)
    requires d < 10
    ensures "0123456789"[d] as int - '0' as int == d && Decimal(d) == ["0123456789"[d]]
  {
  }

  lemma {:induction false} DecimalInjective(m: nat, n: nat)
    requires Decimal(m) == Decimal(n)
    ensures m == n
  {
    var s := Decimal(m);
    if m >= 10 && n >= 10 {
      assert s[..|s| - 1] == Decimal(m / 10) && s[..|s| - 1] == Decimal(n / 10);
      DecimalInjective(m / 10, n / 10);
      assert s[|s| - 1] == "0123456789"[m % 10] && s[|s| - 1] == "0123456789"[n % 10];
    }
  }

  function Signed(n: int): (s: string)
    ensures forall c :: c in s ==> c == '-' || '0' <= c <= '9'
  {
    if n < 0 then "-" + Decimal(-n) else Decimal(n)
  }

  lemma SignIsFirst(n: int)
    ensures n < 0 <==> Signed(n)[0] == '-'
  {
    if n >= 0 { assert Decimal(n)[0] in Decimal(n); }
  }

  lemma SignedInjective(m: int, n: int)
    requires Signed(m) == Signed(n)
    ensures m == n
  {
    SignIsFirst(m);
    SignIsFirst(n);
    if m < 0 {
      NegativeDigits(m);
      NegativeDigits(n);
      DecimalInjective(-m, -n);
    } else {
      DecimalInjective(m, n);
    }
  }

  lemma NegativeDigits(n: int)
    requires n < 0
    ensures Signed(n)[1..] == Decimal(-n)
  {
  }

  // ---------- splitting at a separator ----------

  lemma SplitAtFirst(x: string, sep: char, r: string, y: string, t: string)
    requires x + [sep] + r == y + [sep] + t && sep !in x && sep !in y
    ensures x == y && r == t
  {
    var s := x + [sep] + r;
    assert s[|x|] == sep && s[|y|] == sep;
    assert |x| == |y|;
    assert s[..|x|] == x && s[..|y|] == y;
    assert s[|x| + 1..] == r && s[|y| + 1..] == t;
  }

  lemma SplitAtLast(x: string, sep: char, d: string, y: string, e: string)
    requires x + [sep] + d == y + [sep] + e && sep !in d && sep !in e
    ensures x == y && d == e
  {
    var s := x + [sep] + d;
    assert s[|x|] == sep && s[|y|] == sep;
    assert |x| == |y|;
    assert s[..|x|] == x && s[..|y|] == y;
    assert s[|x| + 1..] == d && s[|y| + 1..] == e;
  }

  // ---------- sorting strings ----------

  predicate Leq(a: string, b: string) {
    a == [] || (b != [] && (a[0] < b[0] || (a[0] == b[0] && Leq(a[1..], b[1..]))))
  }

  lemma {:induction false} LeqTotal(a: string, b: string)
    ensures Leq(a, b) || Leq(b, a)
  {
    if a != [] && b != [] && a[0] == b[0] { LeqTotal(a[1..], b[1..]); }
  }

  lemma {:induction false} LeqAntisymmetric(a: string, b: string)
    requires Leq(a, b) && Leq(b, a)
    ensures a == b
  {
    if a != [] {
      LeqAntisymmetric(a[1..], b[1..]);
      assert a == [a[0]] + a[1..] && b == [b[0]] + b[1..];
    }
  }

  lemma {:induction false} LeqTransitive(a: string, b: string, c: string)
    requires Leq(a, b) && Leq(b, c)
    ensures Leq(a, c)
  {
    if a != [] && a[0] == b[0] && b[0] == c[0] { LeqTransitive(a[1..], b[1..], c[1..]); }
  }

  ghost predicate Sorted(s: seq<string>) { Sorting.Sorted(Leq, s) }

  function Sort(s: seq<string>): (r: seq<string>)
    ensures multiset(r) == multiset(s) && |r| == |s|
  {
    Sorting.Sort(Leq, s)
  }

  lemma LeqOrders()
    ensures Sorting.TotalOrder(Leq)
  {
    forall a, b ensures Leq(a, b) || Leq(b, a) { LeqTotal(a, b); }
    forall a, b, c | Leq(a, b) && Leq(b, c) ensures Leq(a, c) { LeqTransitive(a, b, c); }
  }

  lemma SortSorts(s: seq<string>)
    ensures Sorted(Sort(s))
  {
    LeqOrders();
    Sorting.SortSorts(Leq, s);
  }

  lemma SameHead(a: seq<string>, b: seq<string>)
    requires Sorted(a) && Sorted(b) && multiset(a) == multiset(b) && a != [] && b != []
    ensures a[0] == b[0]
  {
    HeadIsLeast(a, b);
    HeadIsLeast(b, a);
    if a[0] != b[0] { LeqAntisymmetric(a[0], b[0]); }
  }

  lemma HeadIsLeast(a: seq<string>, b: seq<string>)
    requires Sorted(a) && multiset(a) == multiset(b) && a != [] && b != []
    ensures a[0] == b[0] || Leq(a[0], b[0])
  {
    assert b[0] in multiset(a);
    var i :| 0 <= i < |a| && a[i] == b[0];
  }

  lemma TailMultiset(a: seq<string>)
    requires a != []
    ensures multiset(a) == multiset(a[1..]) + multiset{a[0]}
  {
    assert a == [a[0]] + a[1..];
  }

  lemma SameTail(a: seq<string>, b: seq<string>)
    requires a != [] && b != [] && a[0] == b[0] && multiset(a) == multiset(b)
    ensures multiset(a[1..]) == multiset(b[1..])
  {
    TailMultiset(a);
    TailMultiset(b);
    assert multiset(a[1..]) == multiset(a) - multiset{a[0]} == multiset(b[1..]);
  }

  lemma {:induction false} SortedUnique(a: seq<string>, b: seq<string>)
    requires Sorted(a) && Sorted(b) && multiset(a) == multiset(b)
    ensures a == b
  {
    assert |a| == |multiset(a)| && |b| == |multiset(b)|;
    if a != [] {
      SameHead(a, b);
      SameTail(a, b);
      SortedUnique(a[1..], b[1..]);
      assert a == [a[0]] + a[1..] && b == [b[0]] + b[1..];
    }
  }

  // ---------- joining ----------

  function Join(parts: seq<string>): string {
    if |parts| == 0 then "" else if |parts| == 1 then parts[0] else parts[0] + ['|'] + Join(parts[1..])
  }

  ghost predicate BarFree(parts: seq<string>) { forall p :: p in parts ==> '|' !in p }

  lemma JoinBar(parts: seq<string>)
    requires |parts| > 0 && BarFree(parts)
    ensures '|' in Join(parts) <==> |parts| > 1
  {
    if |parts| > 1 { assert Join(parts)[|parts[0]|] == '|'; }
  }

  lemma {:induction false} JoinInjective(a: seq<string>, b: seq<string>)
    requires |a| > 0 && |b| > 0 && BarFree(a) && BarFree(b) && Join(a) == Join(b)
    ensures a == b
  {
    JoinBar(a);
    JoinBar(b);
    if |a| > 1 && |b| > 1 {
      SplitAtFirst(a[0], '|', Join(a[1..]), b[0], Join(b[1..]));
      JoinInjective(a[1..], b[1..]);
      assert a == [a[0]] + a[1..] && b == [b[0]] + b[1..];
    }
  }

  function Signature(parts: seq<string>): string { Join(Sort(parts)) }

  /** Equal signatures mean the same parts in some order, and conversely. */
  lemma SignatureIff(a: seq<string>, b: seq<string>)
    requires |a| > 0 && |b| > 0 && BarFree(a) && BarFree(b)
    ensures Signature(a) == Signature(b) <==> multiset(a) == multiset(b)
  {
    SortSorts(a);
    SortSorts(b);
    if multiset(a) == multiset(b) {
      SortedUnique(Sort(a), Sort(b));
    }
    if Signature(a) == Signature(b) {
      assert forall p :: p in Sort(a) ==> p in multiset(a);
      assert forall p :: p in Sort(b) ==> p in multiset(b);
      JoinInjective(Sort(a), Sort(b));
    }
  }

  lemma SwappedParts(x: string, y: string)
    requires '|' !in x && '|' !in y
    ensures Signature([x, y]) == Signature([y, x])
  {
    SignatureIff([x, y], [y, x]);
  }

  /** The proviso is needed: a single part that contains the separator passes for the two parts around it. */
  lemma BarCollides(x: string, y: string)
    requires Leq(x, y)
    ensures Signature([x + ['|'] + y]) == Signature([x, y])
  {
    SignatureOfOne(x + ['|'] + y);
    SignatureOfTwo(x, y);
  }

  lemma SignatureOfOne(x: string)
    ensures Signature([x]) == x
  {
    SortOne(x);
  }

  lemma SignatureOfTwo(x: string, y: string)
    requires Leq(x, y)
    ensures Signature([x, y]) == x + ['|'] + y
  {
    SortTwo(x, y);
    JoinTwo(x, y);
  }

  lemma JoinTwo(x: string, y: string)
    ensures Join([x, y]) == x + ['|'] + y
  {
    assert [x, y][1..] == [y];
  }

  lemma SortOne(x: string)
    ensures Sort([x]) == [x]
  {
    assert [x][..0] == [];
    assert Sorting.Sort(Leq, [x]) == Sorting.Insert(Leq, Sorting.Sort(Leq, []), x);
  }

  lemma SortTwo(x: string, y: string)
    requires Leq(x, y)
    ensures Sort([x, y]) == [x, y]
  {
    SortOne(x);
    assert [x, y][..1] == [x];
  }

  // ---------- removing one matching element ----------

  lemma MultisetOfPick<T>(s: seq<T>, j: nat)
    requires j < |s|
    ensures multiset(s) == multiset(s[..j] + s[j + 1..]) + multiset{s[j]}
  {
    assert s == s[..j] + [s[j]] + s[j + 1..];
  }
}
