/**
 The local token bucket, in real arithmetic: tokens, rates and times in seconds. A bucket that
 has refilled completely is dropped and that request is let through without being charged.
 */
module TokenBucket {
  import opened Common

  datatype Bucket = Bucket(tokens: real, capacity: real, rate: real, last: real)

  /** What a call does: it is refused, it opens a bucket and is charged, it is charged to an existing
      bucket, or it finds the bucket full and goes free. */
  datatype Outcome = Refused | Opened | Charged | Free

  function WindowSecs(window: real): (r: real)
    ensures r > 0.0
  {
    if window < 0.001 then 0.001 else window
  }

  function Rate(limit: nat, window: real): real { limit as real / WindowSecs(window) }

  /** In one window, or in a millisecond if that is longer, the rate adds the whole limit. */
  lemma RateFills(limit: nat, window: real)
    ensures Rate(limit, window) * (if window < 0.001 then 0.001 else window) == limit as real
  {
  }

  function Elapsed(now: real, since: real): (r: real)
    ensures r >= 0.0
    ensures since <= now ==> since + r == now
    ensures now <= since ==> r == 0.0
  {
    if now < since then 0.0 else now - since
  }

  /** The tokens of `b` at `now`. */
  function Refilled(b: Bucket, now: real): real {
    var tokens := b.tokens + Elapsed(now, b.last) * b.rate;
    if tokens < b.capacity then tokens else b.capacity
  }

  function OutcomeOf(e: Option<Bucket>, limit: nat, now: real): Outcome {
    match e
    case None => if limit == 0 then Refused else Opened
    case Some(b) =>
      if Refilled(b, now) >= b.capacity then Free else if Refilled(b, now) < 1.0 then Refused else Charged
  }

  function Next(e: Option<Bucket>, limit: nat, window: real, now: real): Option<Bucket> {
    match OutcomeOf(e, limit, now)
    case Refused => if e.None? then None else Some(e.value.(tokens := Refilled(e.value, now), last := now))
    case Opened => Some(Bucket(limit as real - 1.0, limit as real, Rate(limit, window), now))
    case Charged => if e.None? then None else Some(e.value.(tokens := Refilled(e.value, now) - 1.0, last := now))
    case Free => None
  }

  function Lookup(buckets: map<string, Bucket>, key: string): Option<Bucket> {
    if key in buckets then Some(buckets[key]) else None
  }

  class Limiter {
    var buckets: map<string, Bucket>

    constructor ()
      ensures buckets == map[]
    {
      buckets := map[];
    }

    /** Only the caller's own bucket changes. */
    method Acquire(key: string, limit: nat, window: real, now: real) returns (ok: bool)
      modifies this
      ensures ok == !OutcomeOf(Lookup(old(buckets), key), limit, now).Refused?
      ensures Lookup(buckets, key) == Next(Lookup(old(buckets), key), limit, window, now)
      ensures forall k :: k != key ==> Lookup(buckets, k) == Lookup(old(buckets), k)
    {
      var rate := limit as real / WindowSecs(window);
      if key in buckets {
        var b := buckets[key];
        var tokens := Refilled(b, now);
        buckets := buckets[key := b.(tokens := tokens, last := now)];
        if tokens >= b.capacity {
          buckets := buckets - {key};
          return true;
        }
        if tokens < 1.0 { return false; }
        buckets := buckets[key := b.(tokens := tokens - 1.0, last := now)];
        return true;
      }
      if limit == 0 { return false; }
      buckets := buckets[key := Bucket(limit as real - 1.0, limit as real, rate, now)];
      ok := true;
    }
  }

  // ---------- one key ----------

  /** One key's constant limit and refill rate. */
  datatype Rule = Rule(limit: nat, window: real)

  predicate Valid(rule: Rule, e: Option<Bucket>, clock: real) {
    e.Some? ==>
      && e.value.capacity == rule.limit as real && e.value.rate == Rate(rule.limit, rule.window)
      && 0.0 <= e.value.tokens < e.value.capacity && e.value.last <= clock
  }

  /** The tokens there are at `clock`; a key without a bucket has them all. */
  function Level(rule: Rule, e: Option<Bucket>, clock: real): real {
    if e.None? then rule.limit as real else Refilled(e.value, clock)
  }

  predicate IsCharged(o: Outcome) { o.Opened? || o.Charged? }

  lemma RateNotNegative(rule: Rule)
    ensures Rate(rule.limit, rule.window) >= 0.0
  {
  }

  lemma Product(x: real, y: real)
    requires x >= 0.0 && y >= 0.0
    ensures x * y >= 0.0
  {
  }

  lemma RefilledRange(b: Bucket, now: real)
    requires b.rate >= 0.0 && 0.0 <= b.tokens < b.capacity
    ensures b.tokens <= Refilled(b, now) <= b.capacity
  {
    Product(Elapsed(now, b.last), b.rate);
  }

  /** Stored tokens stay at least zero and below the capacity. */
  lemma StaysValid(rule: Rule, e: Option<Bucket>, clock: real, now: real)
    requires Valid(rule, e, clock) && clock <= now
    ensures Valid(rule, Next(e, rule.limit, rule.window, now), now)
  {
    RateNotNegative(rule);
    if e.Some? { RefilledRange(e.value, now); }
  }

  lemma Split(a: real, b: real, c: real, rate: real)
    ensures (c - a) * rate == (b - a) * rate + (c - b) * rate
  {
  }

  /** Between two moments the level rises by at most the rate. */
  lemma RisesAtRate(b: Bucket, clock: real, now: real)
    requires b.rate >= 0.0 && 0.0 <= b.tokens < b.capacity && b.last <= clock <= now
    ensures Refilled(b, now) <= Refilled(b, clock) + (now - clock) * b.rate
  {
    Split(b.last, clock, now, b.rate);
    Product(now - clock, b.rate);
  }

  /** A charged call takes one token off the level; no call takes it above what the rate allows. */
  lemma LevelStep(rule: Rule, e: Option<Bucket>, clock: real, now: real)
    requires Valid(rule, e, clock) && clock <= now
    ensures Level(rule, Next(e, rule.limit, rule.window, now), now)
            + (if IsCharged(OutcomeOf(e, rule.limit, now)) then 1.0 else 0.0)
            <= Level(rule, e, clock) + (now - clock) * Rate(rule.limit, rule.window)
  {
    RateNotNegative(rule);
    Product(now - clock, Rate(rule.limit, rule.window));
    if e.Some? {
      RefilledRange(e.value, now);
      RisesAtRate(e.value, clock, now);
    }
    LevelNow(rule, e, now);
  }

  lemma LevelNow(rule: Rule, e: Option<Bucket>, now: real)
    requires Valid(rule, e, now)
    ensures Level(rule, Next(e, rule.limit, rule.window, now), now)
            + (if IsCharged(OutcomeOf(e, rule.limit, now)) then 1.0 else 0.0)
            == Level(rule, e, now)
  {
    RateNotNegative(rule);
    var e' := Next(e, rule.limit, rule.window, now);
    if e.Some? { RefilledRange(e.value, now); }
    if e'.Some? { NoTimeNoRefill(e'.value, now); }
  }

  lemma NoTimeNoRefill(b: Bucket, now: real)
    requires b.last == now && b.tokens <= b.capacity
    ensures Refilled(b, now) == b.tokens
  {
    assert Elapsed(now, b.last) * b.rate == 0.0;
  }

  // ---------- runs ----------

  ghost predicate InOrder(start: real, times: seq<real>) {
    && (forall i :: 0 <= i < |times| ==> start <= times[i])
    && (forall i, j :: 0 <= i <= j < |times| ==> times[i] <= times[j])
  }

  function Clock(start: real, times: seq<real>, n: nat): real
    requires n <= |times|
  {
    if n == 0 then start else times[n - 1]
  }

  predicate IsStep(rule: Rule, e: Option<Bucket>, now: real, o: Outcome, e': Option<Bucket>) {
    o == OutcomeOf(e, rule.limit, now) && e' == Next(e, rule.limit, rule.window, now)
  }

  /** A stretch of calls for one key: the calls' times and outcomes and the key's states between them. */
  datatype Run = Run(times: seq<real>, outcomes: seq<Outcome>, states: seq<Option<Bucket>>)

  ghost predicate IsRun(rule: Rule, start: real, run: Run) {
    && |run.outcomes| == |run.times| && |run.states| == |run.times| + 1
    && InOrder(start, run.times) && Valid(rule, run.states[0], start)
    && forall k {:trigger run.outcomes[k]} :: 0 <= k < |run.outcomes| ==>
         IsStep(rule, run.states[k], run.times[k], run.outcomes[k], run.states[k + 1])
  }

  /** How many of the first `n` calls were charged, opened a bucket, or went free. */
  datatype Ledger = Ledger(charged: nat, openings: nat, free: nat)

  function Tally(os: seq<Outcome>, n: nat): Ledger
    requires n <= |os|
  {
    if n == 0 then Ledger(0, 0, 0)
    else
      var t := Tally(os, n - 1);
      match os[n - 1]
      case Refused => t
      case Opened => Ledger(t.charged + 1, t.openings + 1, t.free)
      case Charged => t.(charged := t.charged + 1)
      case Free => t.(free := t.free + 1)
  }

  lemma {:induction false} RunStaysValid(rule: Rule, start: real, run: Run, n: nat)
    requires n <= |run.times| && IsRun(rule, start, run)
    ensures Valid(rule, run.states[n], Clock(start, run.times, n)) && start <= Clock(start, run.times, n)
  {
    if n > 0 {
      RunStaysValid(rule, start, run, n - 1);
      assert IsStep(rule, run.states[n - 1], run.times[n - 1], run.outcomes[n - 1], run.states[n]);
      StaysValid(rule, run.states[n - 1], Clock(start, run.times, n - 1), run.times[n - 1]);
    }
  }

  /** What the rate adds between two moments. */
  function Added(rule: Rule, from: real, to: real): real { (to - from) * Rate(rule.limit, rule.window) }

  /** What may be charged between two moments. */
  function Allowance(rule: Rule, from: real, to: real): real {
    rule.limit as real + Added(rule, from, to)
  }

  /** The charges so far and the tokens left are within the allowance. */
  predicate Paid(rule: Rule, e: Option<Bucket>, charged: nat, start: real, clock: real) {
    charged as real + Level(rule, e, clock) <= Allowance(rule, start, clock)
  }

  lemma LedgerStep(
    rule: Rule, e: Option<Bucket>, charged: nat, start: real, clock: real, now: real, o: Outcome, e': Option<Bucket>)
    requires Valid(rule, e, clock) && clock <= now && Paid(rule, e, charged, start, clock)
    requires IsStep(rule, e, now, o, e')
    ensures Paid(rule, e', charged + if IsCharged(o) then 1 else 0, start, now)
  {
    LevelStep(rule, e, clock, now);
    Split(start, clock, now, Rate(rule.limit, rule.window));
  }

  lemma LevelAtMostLimit(rule: Rule, e: Option<Bucket>, clock: real)
    requires Valid(rule, e, clock)
    ensures 0.0 <= Level(rule, e, clock) <= rule.limit as real
  {
    RateNotNegative(rule);
    if e.Some? { RefilledRange(e.value, clock); }
  }

  lemma {:induction false} ChargedLedger(rule: Rule, start: real, run: Run, n: nat)
    requires n <= |run.times| && IsRun(rule, start, run)
    ensures Paid(rule, run.states[n], Tally(run.outcomes, n).charged, start, Clock(start, run.times, n))
  {
    if n == 0 {
      LevelAtMostLimit(rule, run.states[0], start);
    } else {
      ChargedLedger(rule, start, run, n - 1);
      RunStaysValid(rule, start, run, n - 1);
      assert IsStep(rule, run.states[n - 1], run.times[n - 1], run.outcomes[n - 1], run.states[n]);
      LedgerStep(rule, run.states[n - 1], Tally(run.outcomes, n - 1).charged, start, Clock(start, run.times, n - 1),
                 run.times[n - 1], run.outcomes[n - 1], run.states[n]);
    }
  }

  /** Buckets are opened and dropped in turn. */
  lemma {:induction false} OpenedAndFreed(rule: Rule, start: real, run: Run, n: nat)
    requires n <= |run.times| && IsRun(rule, start, run)
    ensures (if run.states[0].Some? then 1 else 0) + Tally(run.outcomes, n).openings
            == (if run.states[n].Some? then 1 else 0) + Tally(run.outcomes, n).free
    ensures Tally(run.outcomes, n).openings <= Tally(run.outcomes, n).charged
  {
    if n > 0 {
      OpenedAndFreed(rule, start, run, n - 1);
      assert IsStep(rule, run.states[n - 1], run.times[n - 1], run.outcomes[n - 1], run.states[n]);
    }
  }

  // ---------- how many in all ----------

  /** One token's worth to begin with if a bucket is there. */
  function HeadStart(e: Option<Bucket>): real { if e.Some? then 1.0 else 0.0 }

  /** Every free admission took the time of a token; a bucket on its way to the next one has had the time for
      what came back since it was opened. */
  predicate Earned(rule: Rule, e: Option<Bucket>, free: nat, head: real, start: real, clock: real) {
    && free as real <= Added(rule, start, clock) + head
    && (e.Some? ==>
          free as real + Level(rule, e, clock) - (rule.limit as real - 1.0) <= Added(rule, start, clock) + head)
  }

  lemma AddedLater(rule: Rule, start: real, clock: real, now: real)
    requires clock <= now
    ensures Added(rule, start, now) == Added(rule, start, clock) + Added(rule, clock, now)
    ensures Added(rule, clock, now) >= 0.0
  {
    RateNotNegative(rule);
    Product(now - clock, Rate(rule.limit, rule.window));
    Split(start, clock, now, Rate(rule.limit, rule.window));
  }

  lemma LevelRises(rule: Rule, b: Bucket, clock: real, now: real)
    requires Valid(rule, Some(b), clock) && clock <= now
    ensures Refilled(b, now) <= Refilled(b, clock) + Added(rule, clock, now) && Refilled(b, now) <= rule.limit as real
  {
    RateNotNegative(rule);
    RefilledRange(b, now);
    RisesAtRate(b, clock, now);
  }

  lemma EarnedStep(
    rule: Rule, e: Option<Bucket>, free: nat, head: real, start: real, clock: real, now: real, o: Outcome,
    e': Option<Bucket>)
    requires Valid(rule, e, clock) && clock <= now && Earned(rule, e, free, head, start, clock)
    requires IsStep(rule, e, now, o, e')
    ensures Earned(rule, e', free + if o.Free? then 1 else 0, head, start, now)
  {
    AddedLater(rule, start, clock, now);
    if e.Some? { LevelRises(rule, e.value, clock, now); }
    if e'.Some? { NoTimeNoRefill(e'.value, now); }
  }

  lemma {:induction false} FreeLedger(rule: Rule, start: real, run: Run, n: nat)
    requires n <= |run.times| && IsRun(rule, start, run)
    ensures Earned(rule, run.states[n], Tally(run.outcomes, n).free, HeadStart(run.states[0]), start,
                   Clock(start, run.times, n))
  {
    if n == 0 {
      LevelAtMostLimit(rule, run.states[0], start);
      assert Added(rule, start, start) == 0.0;
    } else {
      FreeLedger(rule, start, run, n - 1);
      RunStaysValid(rule, start, run, n - 1);
      assert IsStep(rule, run.states[n - 1], run.times[n - 1], run.outcomes[n - 1], run.states[n]);
      EarnedStep(rule, run.states[n - 1], Tally(run.outcomes, n - 1).free, HeadStart(run.states[0]), start,
                 Clock(start, run.times, n - 1), run.times[n - 1], run.outcomes[n - 1], run.states[n]);
    }
  }

  /** Any stretch of calls, from any state the key can be in: charged admissions are at most the limit plus what
      the rate added; free ones at most what the rate added, and one more if there was a bucket at the start. */
  lemma AdmissionBound(rule: Rule, start: real, run: Run, n: nat, added: real)
    requires n <= |run.times| && IsRun(rule, start, run)
    requires added == Added(rule, start, Clock(start, run.times, n))
    ensures Tally(run.outcomes, n).charged as real <= rule.limit as real + added
    ensures Tally(run.outcomes, n).free as real <= added + HeadStart(run.states[0])
    ensures Tally(run.outcomes, n).free <= Tally(run.outcomes, n).openings + 1
    ensures (Tally(run.outcomes, n).charged + Tally(run.outcomes, n).free) as real
            <= rule.limit as real + 2.0 * added + HeadStart(run.states[0])
  {
    ChargedLedger(rule, start, run, n);
    FreeLedger(rule, start, run, n);
    OpenedAndFreed(rule, start, run, n);
    RunStaysValid(rule, start, run, n);
    LevelAtMostLimit(rule, run.states[n], Clock(start, run.times, n));
  }

  // ---------- without the free admissions: which rules, which runs ----------

  function Admissions(run: Run): nat {
    var t := Tally(run.outcomes, |run.outcomes|);
    t.charged + t.free
  }

  function End(start: real, run: Run): real { if run.times == [] then start else run.times[|run.times| - 1] }

  /** The bound one would expect: no more admissions than the limit and what the rate adds. */
  ghost predicate MeetsPlainBound(rule: Rule, start: real, run: Run) {
    Admissions(run) as real <= Allowance(rule, start, End(start, run))
  }

  function Appended(run: Run, now: real, o: Outcome, e: Option<Bucket>): Run {
    Run(run.times + [now], run.outcomes + [o], run.states + [e])
  }

  function LastState(run: Run): Option<Bucket>
    requires run.states != []
  {
    run.states[|run.states| - 1]
  }

  lemma {:induction false} TallyAppended(os: seq<Outcome>, o: Outcome, n: nat)
    requires n <= |os|
    ensures Tally(os + [o], n) == Tally(os, n)
  {
    if n > 0 { TallyAppended(os, o, n - 1); }
  }

  lemma AdmissionsAppended(run: Run, now: real, o: Outcome, e: Option<Bucket>)
    ensures Admissions(Appended(run, now, o, e)) == Admissions(run) + if o.Refused? then 0 else 1
  {
    TallyAppended(run.outcomes, o, |run.outcomes|);
  }

  lemma RunAppended(rule: Rule, start: real, run: Run, now: real, o: Outcome, e: Option<Bucket>)
    requires IsRun(rule, start, run) && End(start, run) <= now && start <= End(start, run)
    requires IsStep(rule, LastState(run), now, o, e)
    ensures IsRun(rule, start, Appended(run, now, o, e)) && End(start, Appended(run, now, o, e)) == now
  {
    var r := Appended(run, now, o, e);
    forall k | 0 <= k < |r.outcomes| ensures IsStep(rule, r.states[k], r.times[k], r.outcomes[k], r.states[k + 1]) {
      if k < |run.outcomes| { assert IsStep(rule, run.states[k], run.times[k], run.outcomes[k], run.states[k + 1]); }
    }
    OrderAppended(start, run.times, now);
  }

  lemma OrderAppended(start: real, times: seq<real>, now: real)
    requires InOrder(start, times) && start <= now && (times != [] ==> times[|times| - 1] <= now)
    ensures InOrder(start, times + [now])
  {
  }

  lemma RatePositive(rule: Rule)
    requires rule.limit > 0
    ensures Rate(rule.limit, rule.window) > 0.0
  {
  }

  /** The time in which one token comes back. */
  function TokenTime(rule: Rule): real
    requires rule.limit > 0
  {
    RatePositive(rule);
    1.0 / Rate(rule.limit, rule.window)
  }

  lemma OneTokenBack(rule: Rule)
    requires rule.limit > 0
    ensures TokenTime(rule) > 0.0 && TokenTime(rule) * Rate(rule.limit, rule.window) == 1.0
  {
    RatePositive(rule);
    Reciprocal(Rate(rule.limit, rule.window));
  }

  lemma Reciprocal(r: real)
    requires r > 0.0
    ensures 1.0 / r > 0.0 && 1.0 / r * r == 1.0
  {
  }

  /** A bucket of this rule with `tokens` whole tokens at `now`. */
  function Holding(rule: Rule, tokens: nat, now: real): Bucket {
    Bucket(tokens as real, rule.limit as real, Rate(rule.limit, rule.window), now)
  }

  lemma Opens(rule: Rule, now: real)
    requires rule.limit > 0
    ensures IsStep(rule, None, now, Opened, Some(Holding(rule, rule.limit - 1, now)))
  {
  }

  lemma ComesBackFull(rule: Rule, now: real)
    requires rule.limit > 0
    ensures IsStep(rule, Some(Holding(rule, rule.limit - 1, now)), now + TokenTime(rule), Free, None)
  {
    OneTokenBack(rule);
    var b, then_ := Holding(rule, rule.limit - 1, now), now + TokenTime(rule);
    assert Elapsed(then_, b.last) == TokenTime(rule);
    assert Refilled(b, then_) == b.capacity;
  }

  lemma Charges(rule: Rule, tokens: nat, now: real)
    requires 0 < tokens < rule.limit
    ensures IsStep(rule, Some(Holding(rule, tokens, now)), now, Charged, Some(Holding(rule, tokens - 1, now)))
  {
    NoTimeNoRefill(Holding(rule, tokens, now), now);
  }

  /** Spend what a bucket holds, all at the same moment. */
  lemma {:induction false} Drain(rule: Rule, start: real, run: Run, tokens: nat) returns (r: Run)
    requires tokens < rule.limit && IsRun(rule, start, run) && start <= End(start, run)
    requires LastState(run) == Some(Holding(rule, tokens, End(start, run)))
    ensures IsRun(rule, start, r) && End(start, r) == End(start, run) && Admissions(r) == Admissions(run) + tokens
    ensures r.states[0] == run.states[0]
    decreases tokens
  {
    if tokens == 0 {
      r := run;
    } else {
      var now, e := End(start, run), Some(Holding(rule, tokens - 1, End(start, run)));
      Charges(rule, tokens, now);
      RunAppended(rule, start, run, now, Charged, e);
      AdmissionsAppended(run, now, Charged, e);
      r := Drain(rule, start, Appended(run, now, Charged, e), tokens - 1);
    }
  }

  lemma Opening(rule: Rule, start: real, run: Run, now: real) returns (r: Run)
    requires rule.limit > 0 && IsRun(rule, start, run) && start <= End(start, run) <= now && LastState(run) == None
    ensures IsRun(rule, start, r) && End(start, r) == now && Admissions(r) == Admissions(run) + 1
    ensures LastState(r) == Some(Holding(rule, rule.limit - 1, now)) && r.states[0] == run.states[0]
    ensures r.times == run.times + [now]
  {
    var e := Some(Holding(rule, rule.limit - 1, now));
    Opens(rule, now);
    RunAppended(rule, start, run, now, Opened, e);
    AdmissionsAppended(run, now, Opened, e);
    r := Appended(run, now, Opened, e);
  }

  lemma Freeing(rule: Rule, start: real, run: Run) returns (r: Run)
    requires rule.limit > 0 && IsRun(rule, start, run) && start <= End(start, run)
    requires LastState(run) == Some(Holding(rule, rule.limit - 1, End(start, run)))
    ensures IsRun(rule, start, r) && End(start, r) == End(start, run) + TokenTime(rule)
    ensures Admissions(r) == Admissions(run) + 1 && LastState(r) == None && r.states[0] == run.states[0]
  {
    var now := End(start, run) + TokenTime(rule);
    ComesBackFull(rule, End(start, run));
    OneTokenBack(rule);
    RunAppended(rule, start, run, now, Free, None);
    AdmissionsAppended(run, now, Free, None);
    r := Appended(run, now, Free, None);
  }

  /** With any limit above zero: open a bucket, come back when its token is there again, which is free, and
      spend a fresh bucket at once. That is `limit + 2` admissions against an allowance of `limit + 1`. */
  lemma FreeAdmissionsExceed(rule: Rule) returns (run: Run)
    requires rule.limit > 0
    ensures IsRun(rule, 0.0, run) && run.states[0] == None && !MeetsPlainBound(rule, 0.0, run)
  {
    run := ExceedingRun(rule, 0.0 + TokenTime(rule));
    AllowanceOfOneToken(rule);
  }

  lemma ExceedingRun(rule: Rule, later: real) returns (run: Run)
    requires rule.limit > 0 && later == 0.0 + TokenTime(rule)
    ensures IsRun(rule, 0.0, run) && run.states[0] == None
    ensures End(0.0, run) == later && Admissions(run) == rule.limit + 2
  {
    OneTokenBack(rule);
    run := Opening(rule, 0.0, Run([], [], [None]), 0.0);
    run := Freeing(rule, 0.0, run);
    run := Opening(rule, 0.0, run, later);
    run := Drain(rule, 0.0, run, rule.limit - 1);
  }

  lemma AllowanceOfOneToken(rule: Rule)
    requires rule.limit > 0
    ensures Allowance(rule, 0.0, 0.0 + TokenTime(rule)) == rule.limit as real + 1.0
  {
    OneTokenBack(rule);
    assert 0.0 + TokenTime(rule) - 0.0 == TokenTime(rule);
  }

  // ---------- the bound is attained ----------

  lemma Later(end: real, n: nat, t: real)
    requires n > 0
    ensures end + t + (n - 1) as real * t == end + n as real * t
  {
  }

  /** Open a bucket, come back when it is full, `n` times over. */
  lemma {:induction false} Cycles(rule: Rule, start: real, run: Run, n: nat) returns (r: Run)
    requires rule.limit > 0 && IsRun(rule, start, run) && start <= End(start, run) && LastState(run) == None
    ensures IsRun(rule, start, r) && LastState(r) == None && r.states[0] == run.states[0] && start <= End(start, r)
    ensures End(start, r) == End(start, run) + n as real * TokenTime(rule) && Admissions(r) == Admissions(run) + 2 * n
    decreases n
  {
    if n == 0 {
      r := run;
    } else {
      OneTokenBack(rule);
      r := Opening(rule, start, run, End(start, run));
      r := Freeing(rule, start, r);
      Later(End(start, run), n, TokenTime(rule));
      r := Cycles(rule, start, r, n - 1);
    }
  }

  /** A bucket that has had its token back since before the stretch began. */
  function AlreadyFull(rule: Rule): Bucket
    requires rule.limit > 0
  {
    Bucket(rule.limit as real - 1.0, rule.limit as real, Rate(rule.limit, rule.window), 0.0 - TokenTime(rule))
  }

  lemma FirstIsFree(rule: Rule) returns (run: Run)
    requires rule.limit > 0
    ensures IsRun(rule, 0.0, run) && LastState(run) == None && run.states[0].Some?
    ensures End(0.0, run) == 0.0 && Admissions(run) == 1
  {
    OneTokenBack(rule);
    var b := AlreadyFull(rule);
    assert Elapsed(0.0, b.last) == TokenTime(rule);
    assert Refilled(b, 0.0) == b.capacity;
    run := Run([0.0], [Free], [Some(b), None]);
    assert IsStep(rule, Some(b), 0.0, Free, None);
  }

  lemma NTokens(rule: Rule, n: nat)
    requires rule.limit > 0
    ensures Added(rule, 0.0, n as real * TokenTime(rule)) == n as real
  {
    OneTokenBack(rule);
    Scale(n as real, TokenTime(rule), Rate(rule.limit, rule.window));
  }

  /** For every limit above zero and every number of tokens' time, with a bucket at the start or without, a
      stretch admits as many as the bound allows. */
  lemma BoundAttained(rule: Rule, n: nat, head: bool) returns (run: Run)
    requires rule.limit > 0
    ensures IsRun(rule, 0.0, run) && run.states[0].Some? == head && Added(rule, 0.0, End(0.0, run)) == n as real
    ensures Admissions(run) == rule.limit + 2 * n + if head then 1 else 0
  {
    run := Run([], [], [None]);
    if head { run := FirstIsFree(rule); }
    run := Cycles(rule, 0.0, run, n);
    NTokens(rule, n);
    run := Opening(rule, 0.0, run, End(0.0, run));
    run := Drain(rule, 0.0, run, rule.limit - 1);
  }

  lemma {:induction false} ZeroAdmitsNone(rule: Rule, start: real, run: Run, n: nat)
    requires rule.limit == 0 && IsRun(rule, start, run) && n <= |run.outcomes|
    ensures run.states[n] == None && Tally(run.outcomes, n) == Ledger(0, 0, 0)
  {
    if n > 0 {
      ZeroAdmitsNone(rule, start, run, n - 1);
      assert IsStep(rule, run.states[n - 1], run.times[n - 1], run.outcomes[n - 1], run.states[n]);
    }
  }

  /** Every run of a rule meets the plain bound if and only if the limit is zero. */
  lemma PlainBoundIff(rule: Rule)
    ensures (forall start, run :: IsRun(rule, start, run) ==> MeetsPlainBound(rule, start, run)) <==> rule.limit == 0
  {
    if rule.limit == 0 {
      forall start, run | IsRun(rule, start, run) ensures MeetsPlainBound(rule, start, run) {
        ZeroAdmitsNone(rule, start, run, |run.outcomes|);
        assert Rate(0, rule.window) == 0.0;
        assert (End(start, run) - start) * 0.0 == 0.0;
      }
    } else {
      var run := FreeAdmissionsExceed(rule);
    }
  }

  // ---------- runs without free admissions ----------

  /** The time of the last charged call among the first `n`. */
  function LastCharged(start: real, run: Run, n: nat): real
    requires n <= |run.times| == |run.outcomes|
  {
    if n == 0 then start
    else if IsCharged(run.outcomes[n - 1]) then run.times[n - 1]
    else LastCharged(start, run, n - 1)
  }

  /** A token taken at `from` is not yet back at `to`. */
  predicate Soon(rule: Rule, from: real, to: real) { (to - from) * Rate(rule.limit, rule.window) < 1.0 }

  predicate ComesSoon(rule: Rule, start: real, run: Run, k: nat)
    requires k < |run.times| == |run.outcomes|
  {
    Soon(rule, LastCharged(start, run, k), run.times[k])
  }

  /** Every call but the first comes before the last charged call's token is back. */
  ghost predicate Brisk(rule: Rule, start: real, run: Run)
    requires |run.times| == |run.outcomes|
  {
    forall k :: 1 <= k < |run.times| ==> ComesSoon(rule, start, run, k)
  }

  /** The bucket is short of the token last charged, but for what came back since. */
  predicate Short(rule: Rule, e: Option<Bucket>, clock: real, charged: real) {
    && e.Some? && e.value.capacity == rule.limit as real && e.value.rate == Rate(rule.limit, rule.window)
    && e.value.last == clock && 0.0 <= e.value.tokens < e.value.capacity
    && e.value.tokens <= rule.limit as real - 1.0 + (clock - charged) * Rate(rule.limit, rule.window)
  }

  lemma ShortRefill(rule: Rule, b: Bucket, clock: real, charged: real, now: real)
    requires Short(rule, Some(b), clock, charged) && clock <= now
    ensures Refilled(b, now) <= rule.limit as real - 1.0 + (now - charged) * Rate(rule.limit, rule.window)
  {
    Split(charged, clock, now, Rate(rule.limit, rule.window));
  }

  lemma ShortStep(rule: Rule, e: Option<Bucket>, clock: real, charged: real, now: real, o: Outcome, e': Option<Bucket>)
    requires Short(rule, e, clock, charged) && clock <= now && IsStep(rule, e, now, o, e')
    requires Soon(rule, charged, now)
    ensures !o.Free? && !o.Opened?
    ensures IsCharged(o) ==> Short(rule, e', now, now)
    ensures !IsCharged(o) ==> Short(rule, e', now, charged)
  {
    RateNotNegative(rule);
    RefilledRange(e.value, now);
    ShortRefill(rule, e.value, clock, charged, now);
    assert (now - now) * Rate(rule.limit, rule.window) == 0.0;
  }

  lemma {:induction false} BriskStaysShort(rule: Rule, start: real, run: Run, n: nat)
    requires rule.limit > 0 && IsRun(rule, start, run) && run.states[0] == None
    requires Brisk(rule, start, run) && 1 <= n <= |run.times|
    ensures Short(rule, run.states[n], run.times[n - 1], LastCharged(start, run, n)) && Tally(run.outcomes, n).free == 0
  {
    assert IsStep(rule, run.states[n - 1], run.times[n - 1], run.outcomes[n - 1], run.states[n]);
    if n == 1 {
      FirstIsShort(rule, run.times[0], run.outcomes[0], run.states[1]);
    } else {
      BriskStaysShort(rule, start, run, n - 1);
      assert ComesSoon(rule, start, run, n - 1);
      BriskStep(rule, start, run, n - 1);
    }
  }

  lemma BriskStep(rule: Rule, start: real, run: Run, n: nat)
    requires 1 <= n < |run.times| == |run.outcomes| && |run.states| == |run.times| + 1
    requires Short(rule, run.states[n], run.times[n - 1], LastCharged(start, run, n))
    requires ComesSoon(rule, start, run, n) && run.times[n - 1] <= run.times[n]
    requires IsStep(rule, run.states[n], run.times[n], run.outcomes[n], run.states[n + 1])
    ensures !run.outcomes[n].Free? && Short(rule, run.states[n + 1], run.times[n], LastCharged(start, run, n + 1))
  {
    ShortStep(rule, run.states[n], run.times[n - 1], LastCharged(start, run, n), run.times[n], run.outcomes[n],
              run.states[n + 1]);
  }

  lemma FirstIsShort(rule: Rule, now: real, o: Outcome, e: Option<Bucket>)
    requires rule.limit > 0 && IsStep(rule, None, now, o, e)
    ensures o.Opened? && Short(rule, e, now, now)
  {
    assert (now - now) * Rate(rule.limit, rule.window) == 0.0;
  }

  /** A stretch in which every call comes before the last charged token is back has no free admission and
      meets the plain bound. */
  lemma BriskMeetsPlainBound(rule: Rule, start: real, run: Run)
    requires IsRun(rule, start, run) && run.states[0] == None && Brisk(rule, start, run)
    ensures Tally(run.outcomes, |run.outcomes|).free == 0 && MeetsPlainBound(rule, start, run)
  {
    var n := |run.outcomes|;
    AdmissionBound(rule, start, run, n, Added(rule, start, Clock(start, run.times, n)));
    if rule.limit == 0 {
      ZeroAdmitsNone(rule, start, run, n);
    } else if n > 0 {
      BriskStaysShort(rule, start, run, n);
    }
  }

  /** Every call comes before one token's time since the call before it. */
  ghost predicate Close(rule: Rule, run: Run) {
    forall k {:trigger run.times[k]} :: 1 <= k < |run.times| ==> Soon(rule, run.times[k - 1], run.times[k])
  }

  /** One token or more are missing. */
  predicate MissesOne(rule: Rule, e: Option<Bucket>, clock: real) {
    && e.Some? && e.value.capacity == rule.limit as real && e.value.rate == Rate(rule.limit, rule.window)
    && e.value.last == clock && 0.0 <= e.value.tokens <= e.value.capacity - 1.0
  }

  lemma MissesOneStep(rule: Rule, e: Option<Bucket>, clock: real, now: real, o: Outcome, e': Option<Bucket>)
    requires rule.limit >= 2 && MissesOne(rule, e, clock) && clock <= now && IsStep(rule, e, now, o, e')
    requires Soon(rule, clock, now)
    ensures !o.Free? && MissesOne(rule, e', now)
  {
    RateNotNegative(rule);
    RefilledRange(e.value, now);
    assert Elapsed(now, e.value.last) == now - clock;
  }

  lemma {:induction false} CloseNeverFree(rule: Rule, start: real, run: Run, n: nat)
    requires rule.limit >= 2 && IsRun(rule, start, run) && run.states[0] == None
    requires Close(rule, run) && 1 <= n <= |run.times|
    ensures MissesOne(rule, run.states[n], run.times[n - 1]) && Tally(run.outcomes, n).free == 0
  {
    var now := run.times[n - 1];
    assert IsStep(rule, run.states[n - 1], now, run.outcomes[n - 1], run.states[n]);
    if n > 1 {
      CloseNeverFree(rule, start, run, n - 1);
      MissesOneStep(rule, run.states[n - 1], run.times[n - 2], now, run.outcomes[n - 1], run.states[n]);
    }
  }

  /** With a limit of two or more it is enough that each call follows the one before, admitted or not, before
      a token's time is over. */
  lemma CloseMeetsPlainBound(rule: Rule, start: real, run: Run)
    requires rule.limit >= 2 && IsRun(rule, start, run) && run.states[0] == None && Close(rule, run)
    ensures Tally(run.outcomes, |run.outcomes|).free == 0 && MeetsPlainBound(rule, start, run)
  {
    var n := |run.outcomes|;
    AdmissionBound(rule, start, run, n, Added(rule, start, Clock(start, run.times, n)));
    if n > 0 { CloseNeverFree(rule, start, run, n); }
  }

  lemma PartOfToken(rule: Rule) returns (u: real)
    requires rule.limit > 0
    ensures u > 0.0 && u * Rate(rule.limit, rule.window) == 0.6
  {
    OneTokenBack(rule);
    u := 0.6 * TokenTime(rule);
    Scale(0.6, TokenTime(rule), Rate(rule.limit, rule.window));
  }

  lemma Scale(x: real, y: real, z: real)
    ensures (x * y) * z == x * (y * z)
  {
  }

  /** A limit of one: the bucket is empty at 0, too low after 0.6 of a token's time, full after 1.2. */
  lemma EmptyLowFull(rule: Rule, u: real, low: Bucket)
    requires rule.limit == 1 && u > 0.0 && u * Rate(1, rule.window) == 0.6
    requires low == Bucket(0.6, 1.0, Rate(1, rule.window), u)
    ensures IsStep(rule, Some(Holding(rule, 0, 0.0)), u, Refused, Some(low))
    ensures IsStep(rule, Some(low), u + u, Free, None)
  {
    assert Refilled(Holding(rule, 0, 0.0), u) == 0.6 by { assert Elapsed(u, 0.0) == u; }
    assert Refilled(low, u + u) == 1.0 by { assert Elapsed(u + u, u) == u; }
  }

  lemma PartsAreClose(rule: Rule, u: real, run: Run)
    requires rule.limit == 1 && u > 0.0 && u * Rate(1, rule.window) == 0.6 && run.times == [0.0, u, u + u, u + u]
    ensures Close(rule, run) && Allowance(rule, 0.0, u + u) == 2.2
  {
    var rate := Rate(1, rule.window);
    assert (u + u - 0.0) * rate == u * rate + u * rate;
    assert (u + u - (u + u)) * rate == 0.0;
    assert u + u - u == u - 0.0 == u;
  }

  lemma PartsRun(rule: Rule, u: real) returns (run: Run)
    requires rule.limit == 1 && u > 0.0 && u * Rate(1, rule.window) == 0.6
    ensures IsRun(rule, 0.0, run) && run.states[0] == None
    ensures run.times == [0.0, u, u + u, u + u] && Admissions(run) == 3
  {
    var low := Bucket(0.6, 1.0, Rate(1, rule.window), u);
    EmptyLowFull(rule, u, low);
    run := Opening(rule, 0.0, Run([], [], [None]), 0.0);
    RunAppended(rule, 0.0, run, u, Refused, Some(low));
    AdmissionsAppended(run, u, Refused, Some(low));
    run := Appended(run, u, Refused, Some(low));
    RunAppended(rule, 0.0, run, u + u, Free, None);
    AdmissionsAppended(run, u + u, Free, None);
    run := Appended(run, u + u, Free, None);
    run := Opening(rule, 0.0, run, u + u);
  }

  /** With a limit of one it is not: a refused call in between keeps the calls close while the token comes
      back. */
  lemma CloseIsNotEnoughForOne(rule: Rule) returns (run: Run)
    requires rule.limit == 1
    ensures IsRun(rule, 0.0, run) && run.states[0] == None && Close(rule, run) && !MeetsPlainBound(rule, 0.0, run)
  {
    var u := PartOfToken(rule);
    run := PartsRun(rule, u);
    PartsAreClose(rule, u, run);
  }

  /** So close calls always meet the plain bound if and only if the limit is not one. */
  lemma CloseMeetsPlainBoundIff(rule: Rule)
    ensures (forall start, run :: IsRun(rule, start, run) && run.states[0] == None && Close(rule, run) ==>
                                    MeetsPlainBound(rule, start, run))
            <==> rule.limit != 1
  {
    if rule.limit == 0 {
      PlainBoundIff(rule);
    } else if rule.limit == 1 {
      var run := CloseIsNotEnoughForOne(rule);
    } else {
      forall start, run | IsRun(rule, start, run) && run.states[0] == None && Close(rule, run)
        ensures MeetsPlainBound(rule, start, run)
      {
        CloseMeetsPlainBound(rule, start, run);
      }
    }
  }
}
