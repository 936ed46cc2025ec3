/**
 The latency histogram: 26 exponential bins in place of the samples, and percentiles read off
 as bin upper bounds, compared with the exact nearest-rank quantile of the samples.
 */
module LatencyHistogram {
  const BIN_COUNT: nat := 26

  // ---------- powers of two ----------

  function Pow2(k: nat): (r: nat)
    ensures r >= 1
  {
    if k == 0 then 1 else 2 * Pow2(k - 1)
  }

  function Log2(n: nat): nat { if n < 2 then 0 else 1 + Log2(n / 2) }

  lemma {:induction false} Log2Bounds(n: nat)
    requires n >= 1
    ensures Pow2(Log2(n)) <= n < Pow2(Log2(n) + 1)
  {
    if n >= 2 { Log2Bounds(n / 2); }
  }

  lemma {:induction false} Pow2Grows(j: nat, k: nat)
    requires j <= k
    ensures Pow2(j) <= Pow2(k)
  {
    if j < k { Pow2Grows(j, k - 1); }
  }

  lemma Log2Iff(n: nat, k: nat)
    ensures Log2(n) <= k <==> n < Pow2(k + 1)
  {
    if n >= 1 {
      Log2Bounds(n);
      if Log2(n) <= k { Pow2Grows(Log2(n) + 1, k + 1); } else { Pow2Grows(k + 1, Log2(n)); }
    }
  }

  function BinIndex(latency: nat): (k: nat)
    ensures k < BIN_COUNT
  {
    var idx := if latency == 0 then 0 else Log2(latency);
    if idx < BIN_COUNT - 1 then idx else BIN_COUNT - 1
  }

  /** Bin `k` and those below it hold exactly the latencies under `2^(k+1)`; the last bin holds the rest. */
  lemma BinIff(latency: nat, k: nat)
    requires k < BIN_COUNT
    ensures BinIndex(latency) <= k <==> latency < Pow2(k + 1) || k == BIN_COUNT - 1
  {
    Log2Iff(latency, k);
  }

  // ---------- samples ----------

  /** `count` samples of the same latency. */
  datatype Batch = Batch(latency: nat, count: nat)

  function Total(bs: seq<Batch>): nat { if bs == [] then 0 else Total(bs[..|bs| - 1]) + bs[|bs| - 1].count }

  /** How many samples are at most `x`. */
  function AtMost(bs: seq<Batch>, x: nat): nat {
    if bs == [] then 0 else AtMost(bs[..|bs| - 1], x) + if bs[|bs| - 1].latency <= x then bs[|bs| - 1].count else 0
  }

  /** How many samples fall in bin `k`, and how many in the bins before it. */
  function InBin(bs: seq<Batch>, k: nat): nat {
    if bs == [] then 0
    else InBin(bs[..|bs| - 1], k) + if BinIndex(bs[|bs| - 1].latency) == k then bs[|bs| - 1].count else 0
  }

  function Before(bs: seq<Batch>, k: nat): nat {
    if bs == [] then 0
    else Before(bs[..|bs| - 1], k) + if BinIndex(bs[|bs| - 1].latency) < k then bs[|bs| - 1].count else 0
  }

  lemma {:induction false} BeforeNext(bs: seq<Batch>, k: nat)
    ensures Before(bs, k + 1) == Before(bs, k) + InBin(bs, k)
    ensures Before(bs, 0) == 0 && Before(bs, BIN_COUNT) == Total(bs)
  {
    if bs != [] { BeforeNext(bs[..|bs| - 1], k); }
  }

  lemma {:induction false} BeforeGrows(bs: seq<Batch>, j: nat, k: nat)
    requires j <= k
    ensures Before(bs, j) <= Before(bs, k)
  {
    if bs != [] { BeforeGrows(bs[..|bs| - 1], j, k); }
  }

  /** The bins up to `k` hold the samples under `2^(k+1)`. */
  lemma {:induction false} BeforeIsAtMost(bs: seq<Batch>, k: nat)
    requires k < BIN_COUNT - 1
    ensures Before(bs, k + 1) == AtMost(bs, Pow2(k + 1) - 1)
  {
    if bs != [] {
      BeforeIsAtMost(bs[..|bs| - 1], k);
      BinIff(bs[|bs| - 1].latency, k);
    }
  }

  lemma {:induction false} AtMostInBins(bs: seq<Batch>, x: nat)
    ensures AtMost(bs, x) <= Before(bs, BinIndex(x) + 1)
  {
    if bs != [] {
      AtMostInBins(bs[..|bs| - 1], x);
      var l := bs[|bs| - 1].latency;
      if l <= x { BinGrows(l, x); }
    }
  }

  lemma {:induction false} AtMostGrows(bs: seq<Batch>, x: nat, y: nat)
    requires x <= y
    ensures AtMost(bs, x) <= AtMost(bs, y)
  {
    if bs != [] { AtMostGrows(bs[..|bs| - 1], x, y); }
  }

  lemma BinGrows(x: nat, y: nat)
    requires x <= y
    ensures BinIndex(x) <= BinIndex(y)
  {
    BinIff(x, BinIndex(y));
    BinIff(y, BinIndex(y));
  }

  // ---------- percentiles ----------

  function Ceiling(x: real): int { -((-x).Floor) }

  /** The rank a percentile asks for; a negative product converts to zero. */
  function Rank(total: nat, p: real): nat {
    var r := Ceiling(total as real * p);
    if r < 0 then 0 else r
  }

  lemma RankRange(total: nat, p: real)
    requires 0.0 < p <= 1.0 && total > 0
    ensures 1 <= Rank(total, p) <= total
  {
    var x := total as real * p;
    assert 0.0 < x;
    assert total as real * (1.0 - p) >= 0.0;
    CeilingRange(x, total);
  }

  lemma RankOutside(total: nat, p: real)
    requires total > 0
    ensures (p <= 0.0 ==> Rank(total, p) == 0) && (p > 1.0 ==> Rank(total, p) > total)
  {
    RankIff(total, p, 0);
    RankIff(total, p, total);
    if p <= 0.0 { assert total as real * (-p) >= 0.0; }
    if p > 1.0 { assert total as real * (p - 1.0) > 0.0; }
  }

  lemma CeilingRange(x: real, n: nat)
    requires 0.0 < x <= n as real
    ensures 1 <= Ceiling(x) <= n
  {
  }

  lemma CeilingGrows(x: real, y: real)
    requires x <= y
    ensures Ceiling(x) <= Ceiling(y)
  {
  }

  lemma RankGrows(total: nat, p: real, q: real)
    requires p <= q
    ensures Rank(total, p) <= Rank(total, q)
  {
    assert total as real * (q - p) >= 0.0;
    CeilingGrows(total as real * p, total as real * q);
  }

  /** Reaching the rank is reaching the product. */
  lemma RankIff(total: nat, p: real, n: nat)
    ensures n >= Rank(total, p) <==> n as real >= total as real * p
  {
    CeilingIff(total as real * p, n);
  }

  lemma CeilingIff(x: real, n: int)
    ensures n >= Ceiling(x) <==> n as real >= x
  {
  }

  /** Bin `k` is the first at which the running count reaches `rank`. */
  predicate FirstReaching(bs: seq<Batch>, rank: nat, k: nat) {
    Before(bs, k + 1) >= rank && (k == 0 || Before(bs, k) < rank)
  }

  /** What a percentile query answers. */
  ghost predicate Answers(bs: seq<Batch>, p: real, b: nat) {
    if Total(bs) == 0 || Rank(Total(bs), p) > Total(bs) then b == 0
    else exists k :: 0 <= k < BIN_COUNT && FirstReaching(bs, Rank(Total(bs), p), k) && b == Pow2(k + 1)
  }

  class Histogram {
    const bins: array<nat>
    ghost var batches: seq<Batch>

    ghost predicate Valid() reads this, bins {
      bins.Length == BIN_COUNT && forall k :: 0 <= k < BIN_COUNT ==> bins[k] == InBin(batches, k)
    }

    constructor ()
      ensures Valid() && batches == [] && fresh(bins)
    {
      bins := new nat[BIN_COUNT](_ => 0);
      batches := [];
    }

    method Add(latency: nat, count: nat)
      requires Valid()
      modifies this, bins
      ensures Valid() && batches == old(batches) + [Batch(latency, count)]
    {
      var k := BinIndex(latency);
      bins[k] := bins[k] + count;
      batches := batches + [Batch(latency, count)];
      assert batches[..|batches| - 1] == old(batches);
    }

    method Count() returns (n: nat)
      requires Valid()
      ensures n == Total(batches)
    {
      n := 0;
      BeforeNext(batches, 0);
      for k := 0 to bins.Length
        invariant n == Before(batches, k)
      {
        BeforeNext(batches, k);
        n := n + bins[k];
      }
    }

    /** For every percentage in range the scan returns inside the loop. */
    method Percentile(p: real) returns (b: nat)
      requires Valid()
      ensures Answers(batches, p, b)
      ensures 0.0 < p <= 1.0 && Total(batches) > 0 ==> b > 0
      ensures Total(batches) == 0 || p > 1.0 ==> b == 0
      ensures Total(batches) > 0 && p <= 0.0 ==> b == 2
      ensures 0.0 < p <= 1.0 && Total(batches) > 0 ==> forall q :: NearestRank(batches, p, q) ==> Covers(q, b)
    {
      var total := Count();
      if total == 0 { return 0; }
      RankOutside(total, p);
      if 0.0 < p <= 1.0 { RankRange(total, p); }
      var rank := Rank(total, p);
      var cum := 0;
      BeforeNext(batches, 0);
      for k := 0 to bins.Length
        invariant cum == Before(batches, k)
        invariant k > 0 ==> cum < rank
      {
        BeforeNext(batches, k);
        cum := cum + bins[k];
        if cum >= rank {
          BeforeGrows(batches, k + 1, BIN_COUNT);
          assert FirstReaching(batches, rank, k);
          b := Pow2(k + 1);
          if 0.0 < p <= 1.0 { AnswerCovers(batches, p, b); }
          return;
        }
      }
      b := 0;
    }
  }

  // ---------- against the exact quantile ----------

  /** `q` is the smallest value that at least `rank` samples do not exceed. */
  predicate IsQuantile(bs: seq<Batch>, rank: nat, q: nat) {
    AtMost(bs, q) >= rank && (q == 0 || AtMost(bs, q - 1) < rank)
  }

  /** `q` is the nearest-rank quantile: the smallest value that a share `p` of the samples does not exceed. */
  ghost predicate NearestRank(bs: seq<Batch>, p: real, q: nat) {
    && AtMost(bs, q) as real >= Total(bs) as real * p
    && (q == 0 || (AtMost(bs, q - 1) as real) < Total(bs) as real * p)
  }

  lemma NearestRankIff(bs: seq<Batch>, p: real, q: nat)
    ensures NearestRank(bs, p, q) <==> IsQuantile(bs, Rank(Total(bs), p), q)
  {
    RankIff(Total(bs), p, AtMost(bs, q));
    if q > 0 { RankIff(Total(bs), p, AtMost(bs, q - 1)); }
  }

  /** The first bin to reach the rank is the bin of the exact quantile. */
  lemma FindsItsBin(bs: seq<Batch>, rank: nat, k: nat, q: nat)
    requires k < BIN_COUNT && FirstReaching(bs, rank, k) && IsQuantile(bs, rank, q)
    ensures k == BinIndex(q)
  {
    var j := BinIndex(q);
    AtMostInBins(bs, q);
    if j < k { BeforeGrows(bs, j + 1, k); }
    if k < j {
      BeforeIsAtMost(bs, k);
      BinIff(q, k);
      AtMostGrows(bs, Pow2(k + 1) - 1, q - 1);
    }
  }

  /** The percentile bounds the exact quantile from above, by at most a factor of two, exactly when the
      quantile is below 2^26; from there on the last bin underestimates it. */
  lemma ConservativeIff(bs: seq<Batch>, p: real, b: nat, q: nat)
    requires 0.0 < p <= 1.0 && Total(bs) > 0 && Answers(bs, p, b) && NearestRank(bs, p, q)
    ensures q < b <==> q < Pow2(BIN_COUNT)
    ensures q < Pow2(BIN_COUNT) ==> b <= 2 * if q == 0 then 1 else q
    ensures q >= Pow2(BIN_COUNT) ==> b == Pow2(BIN_COUNT)
  {
    NearestRankIff(bs, p, q);
    RankRange(Total(bs), p);
    var k :| 0 <= k < BIN_COUNT && FirstReaching(bs, Rank(Total(bs), p), k) && b == Pow2(k + 1);
    FindsItsBin(bs, Rank(Total(bs), p), k, q);
    BinBounds(q);
  }

  /** `b` is above `q` by at most a factor of two, or the last bound if there is none above. */
  predicate Covers(q: nat, b: nat) {
    if q < Pow2(BIN_COUNT) then q < b <= 2 * (if q == 0 then 1 else q) else b == Pow2(BIN_COUNT)
  }

  lemma AnswerCovers(bs: seq<Batch>, p: real, b: nat)
    requires 0.0 < p <= 1.0 && Total(bs) > 0 && Answers(bs, p, b)
    ensures forall q :: NearestRank(bs, p, q) ==> Covers(q, b)
  {
    forall q | NearestRank(bs, p, q) ensures Covers(q, b) { ConservativeIff(bs, p, b, q); }
  }

  lemma BinBounds(q: nat)
    ensures q < Pow2(BIN_COUNT) ==> q < Pow2(BinIndex(q) + 1) <= 2 * if q == 0 then 1 else q
    ensures q >= Pow2(BIN_COUNT) ==> BinIndex(q) == BIN_COUNT - 1
  {
    BinIff(q, BIN_COUNT - 1);
    if q > 0 {
      Log2Bounds(q);
      Log2Iff(q, BIN_COUNT - 1);
    }
  }

  lemma AnswerBin(bs: seq<Batch>, p: real, b: nat) returns (k: nat)
    requires 0.0 < p <= 1.0 && Total(bs) > 0 && Answers(bs, p, b)
    ensures FirstReaching(bs, Rank(Total(bs), p), k) && b == Pow2(k + 1)
  {
    RankRange(Total(bs), p);
    k :| 0 <= k < BIN_COUNT && FirstReaching(bs, Rank(Total(bs), p), k) && b == Pow2(k + 1);
  }

  /** A larger percentage never gives a smaller answer. */
  lemma MonotoneInP(bs: seq<Batch>, p: real, q: real, b: nat, c: nat)
    requires 0.0 < p <= q <= 1.0 && Answers(bs, p, b) && Answers(bs, q, c)
    ensures b <= c
  {
    if Total(bs) > 0 {
      var j := AnswerBin(bs, p, b);
      var k := AnswerBin(bs, q, c);
      RankGrows(Total(bs), p, q);
      HigherRankLaterBin(bs, Rank(Total(bs), p), Rank(Total(bs), q), j, k);
      Pow2Grows(j + 1, k + 1);
    }
  }

  lemma HigherRankLaterBin(bs: seq<Batch>, rank: nat, higher: nat, j: nat, k: nat)
    requires rank <= higher && FirstReaching(bs, rank, j) && FirstReaching(bs, higher, k)
    ensures j <= k
  {
    if k < j { BeforeGrows(bs, k + 1, j); }
  }

  /** No latency is above this. */
  function Highest(bs: seq<Batch>): nat {
    if bs == [] then 0
    else
      var m, l := Highest(bs[..|bs| - 1]), bs[|bs| - 1].latency;
      if m < l then l else m
  }

  lemma {:induction false} AllAtMost(bs: seq<Batch>, x: nat)
    requires Highest(bs) <= x
    ensures AtMost(bs, x) == Total(bs)
  {
    if bs != [] { AllAtMost(bs[..|bs| - 1], x); }
  }

  lemma {:induction false} QuantileUpTo(bs: seq<Batch>, rank: nat, x: nat) returns (q: nat)
    requires AtMost(bs, x) >= rank
    ensures IsQuantile(bs, rank, q)
  {
    if x == 0 || AtMost(bs, x - 1) < rank { q := x; } else { q := QuantileUpTo(bs, rank, x - 1); }
  }

  lemma QuantileUnique(bs: seq<Batch>, rank: nat, q: nat, r: nat)
    requires IsQuantile(bs, rank, q) && IsQuantile(bs, rank, r)
    ensures q == r
  {
    if q < r { AtMostGrows(bs, q, r - 1); }
    if r < q { AtMostGrows(bs, r, q - 1); }
  }

  /** Every percentage of some samples has one exact quantile, and the answer is judged by that one. */
  lemma ConservativeAnswer(bs: seq<Batch>, p: real, b: nat) returns (q: nat)
    requires 0.0 < p <= 1.0 && Total(bs) > 0 && Answers(bs, p, b)
    ensures NearestRank(bs, p, q) && forall r :: NearestRank(bs, p, r) ==> r == q
    ensures q < b <==> q < Pow2(BIN_COUNT)
    ensures q < Pow2(BIN_COUNT) ==> b <= 2 * if q == 0 then 1 else q
  {
    var rank := Rank(Total(bs), p);
    RankRange(Total(bs), p);
    AllAtMost(bs, Highest(bs));
    q := QuantileUpTo(bs, rank, Highest(bs));
    NearestRankIff(bs, p, q);
    forall r | NearestRank(bs, p, r) ensures r == q {
      NearestRankIff(bs, p, r);
      QuantileUnique(bs, rank, q, r);
    }
    ConservativeIff(bs, p, b, q);
  }
}
