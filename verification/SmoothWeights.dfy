/**
 The arithmetic of smooth weighted round robin: every entry grows by its weight, the last
 greatest entry is picked and pays back the total.
 */
module SmoothWeights {
  // ---------- sums ----------

  function Sum(s: seq<int>): int { if s == [] then 0 else s[0] + Sum(s[1..]) }

  function Zeros(n: nat): (z: seq<int>)
    ensures |z| == n && forall i :: 0 <= i < n ==> z[i] == 0
  {
    seq(n, _ => 0)
  }

  function Add(c: seq<int>, w: seq<int>): (r: seq<int>)
    requires |c| == |w|
    ensures |r| == |c| && forall i :: 0 <= i < |c| ==> r[i] == c[i] + w[i]
  {
    seq(|c|, i requires 0 <= i < |c| => c[i] + w[i])
  }

  lemma {:induction false} SumAdd(c: seq<int>, w: seq<int>)
    requires |c| == |w|
    ensures Sum(Add(c, w)) == Sum(c) + Sum(w)
  {
    if c != [] {
      assert Add(c, w)[1..] == Add(c[1..], w[1..]);
      SumAdd(c[1..], w[1..]);
    }
  }

  lemma {:induction false} SumUpdate(s: seq<int>, i: nat, x: int)
    requires i < |s|
    ensures Sum(s[i := x]) == Sum(s) - s[i] + x
  {
    if i == 0 {
      assert s[0 := x][1..] == s[1..];
    } else {
      assert s[i := x][1..] == s[1..][i - 1 := x];
      SumUpdate(s[1..], i - 1, x);
    }
  }

  lemma {:induction false} SumBelow(s: seq<int>, t: seq<int>)
    requires |s| == |t| && forall i :: 0 <= i < |s| ==> s[i] <= t[i]
    ensures Sum(s) <= Sum(t)
    ensures Sum(s) == Sum(t) ==> s == t
  {
    if s != [] {
      SumBelow(s[1..], t[1..]);
      assert s == [s[0]] + s[1..] && t == [t[0]] + t[1..];
    }
  }

  lemma {:induction false} SumConstant(n: nat, x: int)
    ensures Sum(seq(n, _ => x)) == n * x
  {
    if n > 0 {
      assert seq(n, _ => x)[1..] == seq(n - 1, _ => x);
      SumConstant(n - 1, x);
      assert n * x == x + (n - 1) * x;
    }
  }

  // ---------- products ----------

  /** `n * x` by repeated addition. */
  function Times(n: nat, x: int): int { if n == 0 then 0 else x + Times(n - 1, x) }

  lemma {:induction false} TimesIsProduct(n: nat, x: int)
    ensures Times(n, x) == n * x
  {
    if n > 0 {
      TimesIsProduct(n - 1, x);
      assert n * x == (n - 1) * x + x;
    }
  }

  lemma {:induction false} TimesAdds(m: nat, n: nat, x: int)
    ensures Times(m + n, x) == Times(m, x) + Times(n, x)
  {
    if n > 0 { TimesAdds(m, n - 1, x); }
  }

  lemma Spread(t: int, a: int, b: int)
    ensures t * (a + b) == t * a + t * b && (a + b) * t == a * t + b * t
  {
  }

  lemma ZeroFactor(t: int, d: int)
    requires t > 0 && t * d == 0
    ensures d == 0
  {
  }

  lemma CancelBelow(t: int, n: int, w: int)
    requires t > 0 && n * t < t * w + t
    ensures n <= w
  {
    if n > w {
      Spread(t, w + 1, n - w - 1);
      assert false;
    }
  }

  // ---------- one selection ----------

  /** The entry a selection picks: after every entry grew by its weight, the last of the greatest. */
  ghost predicate Picked(w: seq<int>, c: seq<int>, p: nat)
    requires |c| == |w|
  {
    && p < |w|
    && (forall j :: 0 <= j < |w| ==> c[j] + w[j] <= c[p] + w[p])
    && (forall j :: p < j < |w| ==> c[j] + w[j] < c[p] + w[p])
  }

  /** The vector after entry `p` was picked: everyone earned its weight, `p` paid the total. */
  function Paid(w: seq<int>, c: seq<int>, p: nat): (r: seq<int>)
    requires |c| == |w| && p < |w|
    ensures |r| == |c| && forall j :: 0 <= j < |c| ==> r[j] == c[j] + w[j] - if j == p then Sum(w) else 0
  {
    var a := Add(c, w);
    a[p := a[p] - Sum(w)]
  }

  ghost predicate Positive(w: seq<int>) { |w| > 0 && forall i :: 0 <= i < |w| ==> w[i] > 0 }

  /** What every reachable weight vector satisfies, whatever order the weights arrived in. */
  ghost predicate Balanced(c: seq<int>, n: nat, total: int) {
    |c| == n && Sum(c) == 0 && forall i :: 0 <= i < n ==> c[i] > -total
  }

  lemma FreshBalanced(w: seq<int>)
    requires Positive(w)
    ensures Sum(w) > 0 && Balanced(Zeros(|w|), |w|, Sum(w))
  {
    SumConstant(|w|, 0);
    SumConstant(|w|, 1);
    SumBelow(seq(|w|, _ => 1), w);
    assert Zeros(|w|) == seq(|w|, _ => 0);
  }

  /** The entry that pays was positive. */
  lemma PickedIsPositive(w: seq<int>, c: seq<int>, p: nat)
    requires Positive(w) && Balanced(c, |w|, Sum(w)) && Picked(w, c, p)
    ensures c[p] + w[p] > 0
  {
    FreshBalanced(w);
    SumAdd(c, w);
    if c[p] + w[p] <= 0 {
      SumBelow(Add(c, w), Zeros(|w|));
      assert false;
    }
  }

  /** A selection keeps the vector balanced for any weights of the same number and total. */
  lemma PaidBalanced(w: seq<int>, c: seq<int>, p: nat)
    requires Positive(w) && Balanced(c, |w|, Sum(w)) && Picked(w, c, p)
    ensures Balanced(Paid(w, c, p), |w|, Sum(w))
  {
    var a := Add(c, w);
    PickedIsPositive(w, c, p);
    SumAdd(c, w);
    SumUpdate(a, p, a[p] - Sum(w));
  }

  lemma BalancedUpper(c: seq<int>, n: nat, total: int, i: nat)
    requires Balanced(c, n, total) && i < n
    ensures c[i] <= (n - 1) * (total - 1)
  {
    var low := seq(n, _ => 1 - total);
    SumConstant(n, 1 - total);
    SumUpdate(low, i, c[i]);
    SumBelow(low[i := c[i]], c);
    LowSum(n, total);
  }

  lemma LowSum(n: int, t: int)
    ensures n * (1 - t) - (1 - t) == -((n - 1) * (t - 1))
  {
  }

  const I32_MAX: int := 0x7fff_ffff

  lemma EntryBelowTotal(w: seq<int>, i: nat)
    requires Positive(w) && i < |w|
    ensures 0 < w[i] <= Sum(w)
  {
    SumUpdate(w, i, 0);
    SumConstant(|w|, 0);
    SumBelow(seq(|w|, _ => 0), w[i := 0]);
  }

  lemma UpperFits(n: int, t: int)
    requires n > 0 && t > 0
    ensures (n - 1) * (t - 1) + t <= n * t && t <= n * t
  {
    Spread(t, n - 1, 1);
    Spread(n - 1, t, -1);
    assert (n - 1) * t >= 0;
  }

  /** Nothing a selection computes leaves the range of a 32-bit signed integer. */
  lemma NoOverflow(w: seq<int>, c: seq<int>, p: nat, i: nat)
    requires Positive(w) && Balanced(c, |w|, Sum(w)) && Picked(w, c, p) && i < |w|
    requires |w| * Sum(w) <= I32_MAX
    ensures Sum(w) <= I32_MAX && -I32_MAX < c[i] <= I32_MAX
    ensures -I32_MAX < c[i] + w[i] <= I32_MAX && -I32_MAX < Paid(w, c, p)[i] <= I32_MAX
  {
    EntryBelowTotal(w, i);
    UpperFits(|w|, Sum(w));
    BalancedUpper(c, |w|, Sum(w), i);
    PaidBalanced(w, c, p);
    BalancedUpper(Paid(w, c, p), |w|, Sum(w), i);
  }

  // ---------- runs on one list ----------

  /** `cs` are the vectors and `ps` the picks of a run from the fresh vector. */
  ghost predicate IsRun(w: seq<int>, cs: seq<seq<int>>, ps: seq<nat>) {
    && |cs| == |ps| + 1
    && (forall k :: 0 <= k < |cs| ==> |cs[k]| == |w|)
    && cs[0] == Zeros(|w|)
    && (forall k {:trigger ps[k]} :: 0 <= k < |ps| ==> Picked(w, cs[k], ps[k]) && cs[k + 1] == Paid(w, cs[k], ps[k]))
  }

  /** How often entry `i` is among the first `k` picks. */
  function Count(ps: seq<nat>, k: nat, i: nat): nat
    requires k <= |ps|
  {
    if k == 0 then 0 else Count(ps, k - 1, i) + if ps[k - 1] == i then 1 else 0
  }

  /** A difference of counts is the multiplicity in the window. */
  lemma {:induction false} CountWindow(ps: seq<nat>, k: nat, m: nat, i: nat)
    requires k <= m <= |ps|
    ensures Count(ps, m, i) == Count(ps, k, i) + multiset(ps[k..m])[i]
  {
    if k < m {
      CountWindow(ps, k, m - 1, i);
      assert ps[k..m] == ps[k..m - 1] + [ps[m - 1]];
    }
  }

  lemma {:induction false} RunBalanced(w: seq<int>, cs: seq<seq<int>>, ps: seq<nat>, k: nat)
    requires Positive(w) && IsRun(w, cs, ps) && k < |cs|
    ensures Balanced(cs[k], |w|, Sum(w))
  {
    if k == 0 {
      FreshBalanced(w);
    } else {
      RunBalanced(w, cs, ps, k - 1);
      PaidBalanced(w, cs[k - 1], ps[k - 1]);
    }
  }

  lemma LedgerStep(k: nat, w: int, n: nat, t: int, paid: bool)
    ensures Times(k, w) - Times(n, t) + w - (if paid then t else 0)
            == Times(k + 1, w) - Times(n + if paid then 1 else 0, t)
  {
  }

  /** Each entry is what it earned minus what it paid. */
  lemma {:induction false} Ledger(w: seq<int>, cs: seq<seq<int>>, ps: seq<nat>, k: nat, i: nat)
    requires IsRun(w, cs, ps) && k < |cs| && i < |w|
    ensures cs[k][i] == Times(k, w[i]) - Times(Count(ps, k, i), Sum(w))
  {
    if k > 0 {
      Ledger(w, cs, ps, k - 1, i);
      assert Picked(w, cs[k - 1], ps[k - 1]) && cs[k] == Paid(w, cs[k - 1], ps[k - 1]);
      PaidLedger(w, cs[k - 1], ps[k - 1], i, k - 1, Count(ps, k - 1, i), Count(ps, k, i));
    }
  }

  lemma PaidLedger(w: seq<int>, c: seq<int>, p: nat, i: nat, k: nat, n: nat, n': nat)
    requires |c| == |w| && p < |w| && i < |w| && n' == n + (if p == i then 1 else 0)
    requires c[i] == Times(k, w[i]) - Times(n, Sum(w))
    ensures Paid(w, c, p)[i] == Times(k + 1, w[i]) - Times(n', Sum(w))
  {
    LedgerStep(k, w[i], n, Sum(w), p == i);
  }

  lemma Balance(w: seq<int>, cs: seq<seq<int>>, ps: seq<nat>, k: nat, i: nat)
    requires IsRun(w, cs, ps) && k < |cs| && i < |w|
    ensures cs[k][i] == k * w[i] - Count(ps, k, i) * Sum(w)
  {
    Ledger(w, cs, ps, k, i);
    TimesIsProduct(k, w[i]);
    TimesIsProduct(Count(ps, k, i), Sum(w));
  }

  /** In every prefix of `k` selections no entry runs a whole turn ahead of its share. */
  lemma NeverAhead(w: seq<int>, cs: seq<seq<int>>, ps: seq<nat>, k: nat, i: nat)
    requires Positive(w) && IsRun(w, cs, ps) && k < |cs| && i < |w|
    ensures Count(ps, k, i) * Sum(w) < k * w[i] + Sum(w)
  {
    RunBalanced(w, cs, ps, k);
    Balance(w, cs, ps, k, i);
  }

  /** Nor does any fall further behind it than the others can be ahead. */
  lemma NeverBehind(w: seq<int>, cs: seq<seq<int>>, ps: seq<nat>, k: nat, i: nat)
    requires Positive(w) && IsRun(w, cs, ps) && k < |cs| && i < |w|
    ensures k * w[i] <= Count(ps, k, i) * Sum(w) + (|w| - 1) * (Sum(w) - 1)
  {
    RunBalanced(w, cs, ps, k);
    BalancedUpper(cs[k], |w|, Sum(w), i);
    Balance(w, cs, ps, k, i);
  }

  function Counts(ps: seq<nat>, k: nat, n: nat): (r: seq<int>)
    requires k <= |ps|
    ensures |r| == n && forall i :: 0 <= i < n ==> r[i] == Count(ps, k, i)
  {
    seq(n, i requires 0 <= i < n => Count(ps, k, i))
  }

  lemma {:induction false} CountsTotal(ps: seq<nat>, k: nat, n: nat)
    requires k <= |ps| && forall j :: 0 <= j < k ==> ps[j] < n
    ensures Sum(Counts(ps, k, n)) == k
  {
    if k == 0 {
      SumConstant(n, 0);
      assert Counts(ps, 0, n) == seq(n, _ => 0);
    } else {
      CountsTotal(ps, k - 1, n);
      var before, p := Counts(ps, k - 1, n), ps[k - 1];
      SumUpdate(before, p, before[p] + 1);
      assert Counts(ps, k, n) == before[p := before[p] + 1];
    }
  }

  /** From fresh, one round of `Sum(w)` selections serves each entry exactly its weight. */
  lemma FirstRound(w: seq<int>, cs: seq<seq<int>>, ps: seq<nat>)
    requires Positive(w) && IsRun(w, cs, ps) && Sum(w) <= |ps|
    ensures Sum(w) > 0 && Counts(ps, Sum(w), |w|) == w
  {
    var t := Sum(w);
    FreshBalanced(w);
    var counts := Counts(ps, t, |w|);
    forall i | 0 <= i < |w| ensures counts[i] <= w[i] {
      NeverAhead(w, cs, ps, t, i);
      CancelBelow(t, counts[i], w[i]);
    }
    CountsTotal(ps, t, |w|);
    SumBelow(counts, w);
  }

  lemma FirstRoundReturns(w: seq<int>, cs: seq<seq<int>>, ps: seq<nat>)
    requires Positive(w) && IsRun(w, cs, ps) && Sum(w) <= |ps|
    ensures Sum(w) > 0 && cs[Sum(w)] == Zeros(|w|)
  {
    FirstRound(w, cs, ps);
    forall i | 0 <= i < |w| ensures cs[Sum(w)][i] == 0 {
      Ledger(w, cs, ps, Sum(w), i);
      assert Counts(ps, Sum(w), |w|)[i] == w[i];
      TimesIsProduct(Sum(w), w[i]);
      TimesIsProduct(w[i], Sum(w));
    }
  }

  lemma PickIsUnique(w: seq<int>, c: seq<int>, p: nat, q: nat)
    requires |c| == |w| && Picked(w, c, p) && Picked(w, c, q)
    ensures p == q
  {
    assert c[p] + w[p] == c[q] + w[q];
  }

  lemma {:induction false} Periodic(w: seq<int>, cs: seq<seq<int>>, ps: seq<nat>, k: nat)
    requires Positive(w) && IsRun(w, cs, ps) && k + Sum(w) <= |ps|
    ensures Sum(w) > 0 && cs[k + Sum(w)] == cs[k]
  {
    FreshBalanced(w);
    if k == 0 {
      FirstRoundReturns(w, cs, ps);
    } else {
      Periodic(w, cs, ps, k - 1);
      PickIsUnique(w, cs[k - 1], ps[k - 1], ps[k - 1 + Sum(w)]);
    }
  }

  lemma LedgerDifference(t: nat, k: nat, w: nat, m: nat, n: nat)
    requires t > 0 && m <= n && Times(k, w) - Times(m, t) == Times(k + t, w) - Times(n, t)
    ensures n - m == w
  {
    TimesAdds(k, t, w);
    TimesAdds(m, n - m, t);
    TimesIsProduct(t, w);
    TimesIsProduct(n - m, t);
    Spread(t, n - m - w, w);
    ZeroFactor(t, n - m - w);
  }

  lemma LedgersAgree(w: seq<int>, cs: seq<seq<int>>, ps: seq<nat>, k: nat, m: nat, i: nat)
    requires IsRun(w, cs, ps) && k <= m < |cs| && i < |w| && cs[m] == cs[k]
    ensures Times(k, w[i]) - Times(Count(ps, k, i), Sum(w)) == Times(m, w[i]) - Times(Count(ps, m, i), Sum(w))
  {
    Ledger(w, cs, ps, k, i);
    Ledger(w, cs, ps, m, i);
  }

  lemma WindowServes(ps: seq<nat>, k: nat, i: nat, w: nat, t: nat)
    requires t > 0 && k + t <= |ps|
    requires Times(k, w) - Times(Count(ps, k, i), t) == Times(k + t, w) - Times(Count(ps, k + t, i), t)
    ensures multiset(ps[k..k + t])[i] == w
  {
    CountWindow(ps, k, k + t, i);
    LedgerDifference(t, k, w, Count(ps, k, i), Count(ps, k + t, i));
  }

  /** From any vector reached, the next `Sum(w)` selections pick each entry exactly `w[i]` times
      and end in the same vector. */
  lemma ExactlyFair(w: seq<int>, cs: seq<seq<int>>, ps: seq<nat>, k: nat, i: nat)
    requires Positive(w) && IsRun(w, cs, ps) && k + Sum(w) <= |ps| && i < |w|
    ensures Sum(w) > 0 && cs[k + Sum(w)] == cs[k]
    ensures multiset(ps[k..k + Sum(w)])[i] == w[i]
  {
    Periodic(w, cs, ps, k);
    LedgersAgree(w, cs, ps, k, k + Sum(w), i);
    WindowServes(ps, k, i, w[i], Sum(w));
  }

  // ---------- the order of the list matters ----------

  /** Node A has weight 2 and node B weight 1; the list comes as A, B and B, A in turn. */
  function InTurn(k: nat): (w: seq<int>)
    ensures |w| == 2
  {
    if k % 2 == 0 then [2, 1] else [1, 2]
  }

  ghost predicate IsStep(w: seq<int>, c: seq<int>, p: nat, c': seq<int>) {
    |c| == |w| && Picked(w, c, p) && c' == Paid(w, c, p)
  }

  lemma EvenTurn(p: nat, c: seq<int>)
    requires IsStep([2, 1], [0, 0], p, c)
    ensures p == 0 && c == [-1, 1]
  {
    assert [2, 1][1..] == [1];
    assert Picked([2, 1], [0, 0], 0);
  }

  lemma OddTurn(p: nat, c: seq<int>)
    requires IsStep([1, 2], [-1, 1], p, c)
    ensures p == 1 && c == [0, 0]
  {
    assert [1, 2][1..] == [2];
    assert Picked([1, 2], [-1, 1], 1);
  }

  lemma Turn(k: nat, c: seq<int>, p: nat, c': seq<int>)
    requires IsStep(InTurn(k), c, p, c') && c == StateInTurn(k)
    ensures p == k % 2 && c' == StateInTurn(k + 1)
  {
    if k % 2 == 0 { EvenTurn(p, c'); } else { OddTurn(p, c'); }
  }

  function StateInTurn(k: nat): seq<int> { if k % 2 == 0 then [0, 0] else [-1, 1] }
}
