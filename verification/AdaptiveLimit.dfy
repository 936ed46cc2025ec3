/**
 The adaptive concurrency limit: additive increase after a healthy window, multiplicative
 decrease after a bad one. Latencies are nanoseconds, ratios are real numbers and time is a
 parameter.
 */
module AdaptiveLimit {
  import opened Common
  import Sorting

  datatype Config = Config(initialLimit: nat, minLimit: nat, maxLimit: nat, increaseStep: nat,
                           decreaseRatio: real, latencyThreshold: nat, window: nat)

  /** What clamping the initial limit needs. */
  predicate ValidConfig(cfg: Config) { cfg.minLimit <= cfg.maxLimit }

  datatype Sample = Sample(latency: nat, success: bool)

  const NANOS_PER_MILLI: nat := 1_000_000

  function Max(a: int, b: int): int { if a < b then b else a }
  function Min(a: int, b: int): int { if a < b then a else b }

  // ---------- the 99th percentile ----------

  predicate NotMore(a: nat, b: nat) { a <= b }

  ghost predicate Ascending(s: seq<nat>) { forall i, j :: 0 <= i < j < |s| ==> s[i] <= s[j] }

  function Sort(s: seq<nat>): (r: seq<nat>)
    ensures |r| == |s|
  {
    Sorting.Sort(NotMore, s)
  }

  /** How many entries of `s` exceed `limit`. */
  function Above(s: seq<nat>, limit: nat): nat {
    if s == [] then 0 else Above(s[..|s| - 1], limit) + if s[|s| - 1] > limit then 1 else 0
  }

  lemma {:induction false} InsertAbove(s: seq<nat>, x: nat, limit: nat)
    ensures Above(Sorting.Insert(NotMore, s, x), limit) == Above(s, limit) + (if x > limit then 1 else 0)
  {
    if s == [] || NotMore(s[|s| - 1], x) {
      assert (s + [x])[..|s|] == s;
    } else {
      var front, last := s[..|s| - 1], s[|s| - 1];
      InsertAbove(front, x, limit);
      var r := Sorting.Insert(NotMore, front, x);
      assert (r + [last])[..|r|] == r;
    }
  }

  lemma SortAscending(s: seq<nat>)
    ensures Ascending(Sort(s))
  {
    Sorting.SortSorts(NotMore, s);
    var r := Sort(s);
    forall i, j | 0 <= i < j < |r| ensures r[i] <= r[j] { assert NotMore(r[i], r[j]); }
  }

  lemma {:induction false} SortAbove(s: seq<nat>, limit: nat)
    ensures Above(Sort(s), limit) == Above(s, limit)
  {
    if s != [] {
      SortAbove(s[..|s| - 1], limit);
      InsertAbove(Sort(s[..|s| - 1]), s[|s| - 1], limit);
    }
  }

  lemma {:induction false} NoneAbove(s: seq<nat>, limit: nat)
    requires forall i :: 0 <= i < |s| ==> s[i] <= limit
    ensures Above(s, limit) == 0
  {
    if s != [] { NoneAbove(s[..|s| - 1], limit); }
  }

  lemma {:induction false} AboveAtMost(s: seq<nat>, limit: nat)
    ensures Above(s, limit) <= |s|
  {
    if s != [] { AboveAtMost(s[..|s| - 1], limit); }
  }

  /** In ascending order, entry `k` exceeds the limit exactly when at least the entries from `k` on do. */
  lemma {:induction false} RankAbove(s: seq<nat>, k: nat, limit: nat)
    requires Ascending(s) && k < |s|
    ensures s[k] > limit <==> Above(s, limit) >= |s| - k
  {
    var front, last := s[..|s| - 1], s[|s| - 1];
    if last <= limit {
      NoneAbove(s, limit);
    } else if k < |s| - 1 {
      RankAbove(front, k, limit);
    }
  }

  function P99Index(n: nat): (idx: nat)
    requires n > 0
    ensures idx < n
    ensures 100 * (n - 1 - idx) < n
  {
    Min(n * 99 / 100, n - 1)
  }

  function Millis(samples: seq<Sample>): (r: seq<nat>)
    ensures |r| == |samples|
  {
    if samples == [] then []
    else Millis(samples[..|samples| - 1]) + [samples[|samples| - 1].latency / NANOS_PER_MILLI]
  }

  /** How many samples, cut to whole milliseconds, took longer than `threshold`. */
  function Slow(samples: seq<Sample>, threshold: nat): nat {
    if samples == [] then 0
    else Slow(samples[..|samples| - 1], threshold) + if Cut(samples[|samples| - 1].latency) > threshold then 1 else 0
  }

  /** Down to the last whole millisecond. */
  function Cut(nanos: nat): int { nanos - nanos % NANOS_PER_MILLI }

  lemma CutInMillis(nanos: nat, threshold: nat)
    ensures Cut(nanos) > threshold <==> nanos / NANOS_PER_MILLI > threshold / NANOS_PER_MILLI
  {
    OverInMillis(nanos / NANOS_PER_MILLI, threshold);
  }

  lemma {:induction false} SlowInMillis(samples: seq<Sample>, threshold: nat)
    ensures Above(Millis(samples), threshold / NANOS_PER_MILLI) == Slow(samples, threshold)
  {
    if samples != [] {
      var front, last := samples[..|samples| - 1], samples[|samples| - 1];
      SlowInMillis(front, threshold);
      CutInMillis(last.latency, threshold);
      assert Millis(samples)[..|front|] == Millis(front);
    }
  }

  /** The 99th-percentile latency, in nanoseconds, of samples taken to whole milliseconds. */
  function P99(samples: seq<Sample>): nat
    requires samples != []
  {
    Sort(Millis(samples))[P99Index(|samples|)] * NANOS_PER_MILLI
  }

  /** The 99th percentile is over a threshold exactly when at least one sample in a hundred is, cut to whole
      milliseconds. */
  lemma SlowIff(samples: seq<Sample>, threshold: nat)
    requires samples != []
    ensures P99(samples) > threshold <==> 100 * Slow(samples, threshold) >= |samples|
  {
    var ms, limit := Millis(samples), threshold / NANOS_PER_MILLI;
    var idx := P99Index(|samples|);
    SlowInMillis(samples, threshold);
    SortAscending(ms);
    SortAbove(ms, limit);
    RankAbove(Sort(ms), idx, limit);
    OverInMillis(Sort(ms)[idx], threshold);
  }

  lemma OverInMillis(ms: nat, threshold: nat)
    ensures ms * NANOS_PER_MILLI > threshold <==> ms > threshold / NANOS_PER_MILLI
  {
  }

  // ---------- the rule ----------

  function Failures(samples: seq<Sample>): nat {
    if samples == [] then 0 else (if samples[0].success then 0 else 1) + Failures(samples[1..])
  }

  lemma {:induction false} FailuresIff(samples: seq<Sample>)
    ensures Failures(samples) > 0 <==> exists s :: s in samples && !s.success
  {
    if samples != [] {
      FailuresIff(samples[1..]);
      assert samples == [samples[0]] + samples[1..];
      assert samples[0] in samples;
    }
  }

  predicate Bad(cfg: Config, samples: seq<Sample>)
    requires samples != []
  {
    P99(samples) > cfg.latencyThreshold || Failures(samples) as real / |samples| as real > 0.0
  }

  /** A window is bad exactly when a request failed or one in a hundred was too slow. */
  lemma BadIff(cfg: Config, samples: seq<Sample>)
    requires samples != []
    ensures Bad(cfg, samples) <==>
              || (exists s :: s in samples && !s.success)
              || 100 * Slow(samples, cfg.latencyThreshold) >= |samples|
  {
    SlowIff(samples, cfg.latencyThreshold);
    FailuresIff(samples);
    PositiveQuotient(Failures(samples), |samples|);
  }

  lemma PositiveQuotient(a: nat, b: nat)
    requires b > 0
    ensures a as real / b as real > 0.0 <==> a > 0
  {
  }

  function RoundedDown(x: real): (r: nat)
    requires x >= 0.0
    ensures r as real <= x < r as real + 1.0
  {
    x.Floor
  }

  /** `limit * ratio` rounded down; a negative product converts to zero. */
  function Scaled(limit: nat, ratio: real): nat { Converted(limit as real * ratio) }

  function Converted(x: real): nat { if x < 0.0 then 0 else RoundedDown(x) }

  lemma ConvertedBelow(x: real, n: nat)
    requires x <= n as real
    ensures Converted(x) <= n && (x < n as real && n > 0 ==> Converted(x) < n)
  {
  }

  lemma ConvertedGrows(x: real, y: real)
    requires x <= y
    ensures Converted(x) <= Converted(y)
  {
  }

  lemma Monotone(a: real, b: real, ratio: real)
    requires a <= b && 0.0 <= ratio
    ensures a * ratio <= b * ratio
  {
    var d := b - a;
    assert d * ratio >= 0.0;
  }

  lemma Negative(x: real, ratio: real)
    requires 0.0 <= x && ratio < 0.0
    ensures x * ratio <= 0.0
  {
  }

  /** With a ratio of at most one the product is at most the limit, with less than one it is less. */
  lemma ScaledSmaller(limit: nat, ratio: real)
    requires ratio <= 1.0
    ensures Scaled(limit, ratio) <= limit
    ensures ratio < 1.0 && limit > 0 ==> Scaled(limit, ratio) < limit
  {
    var x := limit as real * ratio;
    Shrinks(limit as real, ratio, x);
    ConvertedBelow(x, limit);
  }

  lemma Shrinks(n: real, ratio: real, x: real)
    requires ratio <= 1.0 && n >= 0.0 && x == n * ratio
    ensures x <= n
    ensures ratio < 1.0 && n > 0.0 ==> x < n
  {
    var rest := 1.0 - ratio;
    assert n * rest == n - x;
    Signs(n, rest);
  }

  lemma Signs(a: real, b: real)
    requires a >= 0.0 && b >= 0.0
    ensures a * b >= 0.0 && (a > 0.0 && b > 0.0 ==> a * b > 0.0)
  {
  }

  lemma ScaledGrows(limit: nat, more: nat, ratio: real)
    requires limit <= more
    ensures Scaled(limit, ratio) <= Scaled(more, ratio)
  {
    if ratio < 0.0 {
      Negative(limit as real, ratio);
      ConvertedBelow(limit as real * ratio, 0);
    } else {
      Monotone(limit as real, more as real, ratio);
      ConvertedGrows(limit as real * ratio, more as real * ratio);
    }
  }

  function NextLimit(cfg: Config, limit: nat, bad: bool): nat {
    if bad then Max(Scaled(limit, cfg.decreaseRatio), cfg.minLimit)
    else Min(limit + cfg.increaseStep, cfg.maxLimit)
  }

  /** A bad window leaves the whole part of `limit * ratio`, or the minimum if that is more. */
  lemma DecreaseIs(cfg: Config, limit: nat, next: nat)
    requires next == NextLimit(cfg, limit, true)
    ensures next >= cfg.minLimit && limit as real * cfg.decreaseRatio < next as real + 1.0
    ensures next > cfg.minLimit ==> next as real <= limit as real * cfg.decreaseRatio
  {
  }

  predicate InRange(cfg: Config, limit: nat) { cfg.minLimit <= limit <= cfg.maxLimit }

  /** The decrease does not take the maximum above itself. */
  predicate Bounded(cfg: Config) { Scaled(cfg.maxLimit, cfg.decreaseRatio) <= cfg.maxLimit }

  lemma NextInRange(cfg: Config, limit: nat, bad: bool)
    requires ValidConfig(cfg) && Bounded(cfg) && InRange(cfg, limit)
    ensures InRange(cfg, NextLimit(cfg, limit, bad))
  {
    ScaledGrows(limit, cfg.maxLimit, cfg.decreaseRatio);
  }

  /** Adjustments keep every limit in range if and only if the configuration is bounded. */
  lemma RangeKeptIff(cfg: Config)
    requires ValidConfig(cfg)
    ensures (forall limit: nat, bad: bool :: InRange(cfg, limit) ==> InRange(cfg, NextLimit(cfg, limit, bad)))
            <==> Bounded(cfg)
  {
    if Bounded(cfg) {
      forall limit: nat, bad: bool | InRange(cfg, limit) ensures InRange(cfg, NextLimit(cfg, limit, bad)) {
        NextInRange(cfg, limit, bad);
      }
    } else {
      assert InRange(cfg, cfg.maxLimit) && !InRange(cfg, NextLimit(cfg, cfg.maxLimit, true));
    }
  }

  /** A ratio of at most one, as documented, is bounded, and then bad windows never raise the limit. */
  lemma DocumentedRatio(cfg: Config, limit: nat)
    requires ValidConfig(cfg) && cfg.decreaseRatio <= 1.0 && InRange(cfg, limit)
    ensures Bounded(cfg) && NextLimit(cfg, limit, true) <= limit <= NextLimit(cfg, limit, false)
  {
    ScaledSmaller(cfg.maxLimit, cfg.decreaseRatio);
    ScaledSmaller(limit, cfg.decreaseRatio);
  }

  // ---------- several windows ----------

  function Iterate<T>(f: T -> T, x: T, k: nat): T
    decreases k
  {
    if k == 0 then x else Iterate(f, f(x), k - 1)
  }

  /** The limit after `k` windows that were all bad or all healthy. */
  function AfterWindows(cfg: Config, start: nat, bad: bool, k: nat): nat {
    Iterate(Adjusting(cfg, bad), start, k)
  }

  function Adjusting(cfg: Config, bad: bool): nat -> nat { limit => NextLimit(cfg, limit, bad) }

  function Decaying(ratio: real): real -> real { y => y * ratio }

  /** `x * ratio^k`. */
  function Decayed(x: real, ratio: real, k: nat): real { Iterate(Decaying(ratio), x, k) }

  function MaxReal(a: real, b: real): real { if a < b then b else a }

  /** `k` bad windows in a row shrink the limit geometrically, down to the minimum. */
  lemma GeometricDecrease(cfg: Config, start: nat, k: nat)
    requires cfg.decreaseRatio <= 1.0
    ensures AfterWindows(cfg, start, true, k) as real
            <= MaxReal(cfg.minLimit as real, Decayed(start as real, cfg.decreaseRatio, k))
  {
    DecreaseDominated(cfg, Adjusting(cfg, true), Decaying(cfg.decreaseRatio));
    IterateUnder(Adjusting(cfg, true), Decaying(cfg.decreaseRatio), cfg.minLimit as real, start, start as real, k);
  }

  /** Whatever is under `min` or a bound stays under `min` or what `g` makes of the bound. */
  ghost predicate Dominated(f: nat -> nat, g: real -> real, min: real) {
    forall l, b :: l as real <= MaxReal(min, b) ==> f(l) as real <= MaxReal(min, g(b))
  }

  lemma DecreaseDominated(cfg: Config, f: nat -> nat, g: real -> real)
    requires cfg.decreaseRatio <= 1.0 && f == Adjusting(cfg, true) && g == Decaying(cfg.decreaseRatio)
    ensures Dominated(f, g, cfg.minLimit as real)
  {
    forall l, b | l as real <= MaxReal(cfg.minLimit as real, b)
      ensures f(l) as real <= MaxReal(cfg.minLimit as real, g(b))
    {
      DominatedAt(cfg, f, g, l, b);
    }
  }

  lemma DominatedAt(cfg: Config, f: nat -> nat, g: real -> real, l: nat, b: real)
    requires cfg.decreaseRatio <= 1.0 && f == Adjusting(cfg, true) && g == Decaying(cfg.decreaseRatio)
    requires l as real <= MaxReal(cfg.minLimit as real, b)
    ensures f(l) as real <= MaxReal(cfg.minLimit as real, g(b))
  {
    DecreaseOnce(cfg, l, b);
    assert f(l) == NextLimit(cfg, l, true);
    assert g(b) == b * cfg.decreaseRatio;
  }

  lemma {:induction false} IterateUnder(f: nat -> nat, g: real -> real, min: real, limit: nat, bound: real, k: nat)
    requires Dominated(f, g, min) && limit as real <= MaxReal(min, bound)
    ensures Iterate(f, limit, k) as real <= MaxReal(min, Iterate(g, bound, k))
    decreases k
  {
    if k > 0 { IterateUnder(f, g, min, f(limit), g(bound), k - 1); }
  }

  lemma ScaledBelow(limit: nat, bound: real, ratio: real)
    requires 0.0 <= ratio && limit as real <= bound
    ensures Scaled(limit, ratio) as real <= bound * ratio
  {
    Monotone(limit as real, bound, ratio);
    Monotone(0.0, limit as real, ratio);
  }

  lemma DecreaseOnce(cfg: Config, limit: nat, bound: real)
    requires cfg.decreaseRatio <= 1.0 && limit as real <= MaxReal(cfg.minLimit as real, bound)
    ensures NextLimit(cfg, limit, true) as real <= MaxReal(cfg.minLimit as real, bound * cfg.decreaseRatio)
  {
    var scaled, target := Scaled(limit, cfg.decreaseRatio), bound * cfg.decreaseRatio;
    ScaledSmaller(limit, cfg.decreaseRatio);
    if cfg.decreaseRatio < 0.0 {
      Negative(limit as real, cfg.decreaseRatio);
    } else if limit as real <= bound {
      ScaledBelow(limit, bound, cfg.decreaseRatio);
    }
    assert scaled as real <= MaxReal(cfg.minLimit as real, target);
  }

  /** With a ratio below one, enough bad windows reach the minimum, and it is kept from then on. */
  lemma {:induction false} ReachesMinimum(cfg: Config, start: nat, k: nat)
    requires ValidConfig(cfg) && cfg.decreaseRatio < 1.0 && InRange(cfg, start)
    ensures cfg.minLimit <= AfterWindows(cfg, start, true, k) <= Max(start - k, cfg.minLimit)
    ensures k >= start - cfg.minLimit ==> AfterWindows(cfg, start, true, k) == cfg.minLimit
    decreases k
  {
    if k > 0 {
      DecreasesByOne(cfg, start);
      ReachesMinimum(cfg, NextLimit(cfg, start, true), k - 1);
    }
  }

  lemma DecreasesByOne(cfg: Config, limit: nat)
    requires cfg.decreaseRatio < 1.0
    ensures cfg.minLimit <= NextLimit(cfg, limit, true) <= Max(limit - 1, cfg.minLimit)
  {
    ScaledSmaller(limit, cfg.decreaseRatio);
  }

  /** `k` healthy windows in a row add exactly `k` steps, up to the maximum. */
  lemma {:induction false} LinearIncrease(cfg: Config, start: nat, k: nat)
    requires ValidConfig(cfg) && InRange(cfg, start)
    ensures AfterWindows(cfg, start, false, k) == Min(cfg.maxLimit, start + k * cfg.increaseStep)
    decreases k
  {
    if k > 0 {
      LinearIncrease(cfg, NextLimit(cfg, start, false), k - 1);
      assert k * cfg.increaseStep == (k - 1) * cfg.increaseStep + cfg.increaseStep;
    }
  }

  // ---------- the controller, one thread at a time ----------

  class Controller {
    const cfg: Config
    var limit: nat
    var inflight: nat
    var samples: seq<Sample>
    var windowStart: nat
    var accepted: nat
    var rejected: nat
    ghost var released: nat

    ghost predicate Valid() reads this {
      && ValidConfig(cfg) && Bounded(cfg) && InRange(cfg, limit)
      && inflight <= cfg.maxLimit && accepted == released + inflight
    }

    constructor (cfg: Config, now: nat)
      requires ValidConfig(cfg) && Bounded(cfg)
      ensures Valid() && this.cfg == cfg && inflight == 0 && samples == [] && windowStart == now
      ensures limit == Max(cfg.minLimit, Min(cfg.maxLimit, cfg.initialLimit))
    {
      this.cfg := cfg;
      limit := if cfg.initialLimit < cfg.minLimit then cfg.minLimit
      else if cfg.initialLimit > cfg.maxLimit then cfg.maxLimit else cfg.initialLimit;
      inflight, samples, windowStart, accepted, rejected := 0, [], now, 0, 0;
      released := 0;
    }

    predicate WindowOver(now: nat) reads this { cfg.window == 0 || windowStart + cfg.window <= now }

    method MaybeAdjust(now: nat)
      requires Valid()
      modifies `limit, `samples, `windowStart
      ensures Valid()
      ensures !old(WindowOver(now)) ==>
                limit == old(limit) && samples == old(samples) && windowStart == old(windowStart)
      ensures old(WindowOver(now)) ==> samples == [] && windowStart == now
      ensures old(WindowOver(now)) && old(samples) == [] ==> limit == old(limit)
      ensures old(WindowOver(now)) && old(samples) != [] ==> limit == NextLimit(cfg, old(limit), Bad(cfg, old(samples)))
    {
      if Elapsed(now, windowStart) < cfg.window { return; }
      windowStart := now;
      var taken := samples;
      samples := [];
      if taken == [] { return; }
      NextInRange(cfg, limit, Bad(cfg, taken));
      var next := NextLimit(cfg, limit, Bad(cfg, taken));
      if next != limit { limit := next; }
    }

    /** Admits exactly when fewer requests are in flight than the limit, after any adjustment that is due. */
    method TryAcquire(now: nat) returns (ok: bool)
      requires Valid()
      modifies `limit, `samples, `windowStart, `inflight, `accepted, `rejected
      ensures Valid()
      ensures ok == (old(inflight) < limit)
      ensures inflight == old(inflight) + (if ok then 1 else 0)
      ensures rejected == old(rejected) + (if ok then 0 else 1)
      ensures old(WindowOver(now)) && old(samples) != [] ==> limit == NextLimit(cfg, old(limit), Bad(cfg, old(samples)))
      ensures !old(WindowOver(now)) || old(samples) == [] ==> limit == old(limit)
    {
      MaybeAdjust(now);
      if inflight >= limit {
        rejected := rejected + 1;
        return false;
      }
      inflight := inflight + 1;
      accepted := accepted + 1;
      ok := true;
    }

    method Release()
      requires Valid() && inflight > 0
      modifies `inflight, `released
      ensures Valid() && inflight == old(inflight) - 1 && released == old(released) + 1
    {
      inflight := inflight - 1;
      released := released + 1;
    }

    method RecordLatency(latency: nat, success: bool)
      requires Valid()
      modifies `samples
      ensures Valid() && samples == old(samples) + [Sample(latency, success)]
    {
      samples := samples + [Sample(latency, success)];
    }
  }
}
