/**
 The circuit breaker in local mode: a step function over allow and record events, the class
 that performs the steps in place, and what holds over every run. Time is a parameter and
 rates are real numbers.
 */
module Breaker {
  import opened Common

  datatype Config = Config(window: nat, failureRateThreshold: real, minRequests: nat, wait: nat, halfOpenMax: nat)

  datatype Mode = Closed | Open | HalfOpen

  datatype State = State(mode: Mode, failures: nat, successes: nat, windowStart: nat, lastFailure: Option<nat>)

  datatype Event = Allow(now: nat) | Success(now: nat) | Failure(now: nat)

  predicate Expires(cfg: Config, s: State, now: nat) { Elapsed(now, s.windowStart) >= cfg.window }

  function Refreshed(cfg: Config, s: State, now: nat): State {
    if Expires(cfg, s, now) then s.(failures := 0, successes := 0, windowStart := now) else s
  }

  predicate MeetsThresholds(cfg: Config, successes: nat, failures: nat) {
    var total := successes + failures;
    total >= cfg.minRequests && total > 0 && failures as real / total as real >= cfg.failureRateThreshold
  }

  predicate WaitOver(cfg: Config, s: State, now: nat) {
    s.lastFailure.Some? && Elapsed(now, s.lastFailure.value) >= cfg.wait
  }

  function Step(cfg: Config, s: State, e: Event): State {
    var s := Refreshed(cfg, s, e.now);
    match e
    case Allow(now) =>
      if s.mode.Open? && WaitOver(cfg, s, now) then s.(mode := HalfOpen, failures := 0, successes := 0) else s
    case Success(now) =>
      var s := s.(successes := s.successes + 1);
      if s.mode.HalfOpen? && s.successes >= cfg.halfOpenMax then s.(mode := Closed, failures := 0, successes := 0)
      else s
    case Failure(now) =>
      var s := s.(failures := s.failures + 1, lastFailure := Some(now));
      match s.mode
      case Closed => if MeetsThresholds(cfg, s.successes, s.failures) then s.(mode := Open) else s
      case HalfOpen => s.(mode := Open)
      case Open => s
  }

  /** Whether an allow event at `now` lets the request through. */
  predicate Admits(cfg: Config, s: State, now: nat) {
    var s := Refreshed(cfg, s, now);
    match s.mode
    case Closed => true
    case Open => WaitOver(cfg, s, now)
    case HalfOpen => s.successes + s.failures < cfg.halfOpenMax
  }

  class CircuitBreaker {
    const cfg: Config
    var mode: Mode
    var failures: nat
    var successes: nat
    var windowStart: nat
    var lastFailure: Option<nat>

    function Current(): State reads this { State(mode, failures, successes, windowStart, lastFailure) }

    constructor (cfg: Config, now: nat)
      ensures this.cfg == cfg && Current() == Initial(now)
    {
      this.cfg := cfg;
      mode, failures, successes, windowStart, lastFailure := Closed, 0, 0, now, None;
    }

    method RefreshWindow(now: nat)
      modifies this
      ensures Current() == Refreshed(cfg, old(Current()), now)
    {
      if Elapsed(now, windowStart) >= cfg.window {
        failures := 0;
        successes := 0;
        windowStart := now;
      }
    }

    method TryAllow(now: nat) returns (ok: bool)
      modifies this
      ensures ok == Admits(cfg, old(Current()), now) && Current() == Step(cfg, old(Current()), Allow(now))
    {
      RefreshWindow(now);
      match mode {
        case Closed => ok := true;
        case Open =>
          if lastFailure.Some? && Elapsed(now, lastFailure.value) >= cfg.wait {
            mode := HalfOpen;
            successes := 0;
            failures := 0;
            return true;
          }
          ok := false;
        case HalfOpen => ok := successes + failures < cfg.halfOpenMax;
      }
    }

    method RecordSuccess(now: nat)
      modifies this
      ensures Current() == Step(cfg, old(Current()), Success(now))
    {
      RefreshWindow(now);
      successes := successes + 1;
      if mode.HalfOpen? && successes >= cfg.halfOpenMax {
        mode := Closed;
        failures := 0;
        successes := 0;
      }
    }

    method RecordFailure(now: nat)
      modifies this
      ensures Current() == Step(cfg, old(Current()), Failure(now))
    {
      RefreshWindow(now);
      failures := failures + 1;
      lastFailure := Some(now);
      match mode {
        case Closed =>
          var total := successes + failures;
          if total >= cfg.minRequests && failures as real / total as real >= cfg.failureRateThreshold { mode := Open; }
        case HalfOpen => mode := Open;
        case Open =>
      }
    }
  }

  // ---------- one step ----------

  /** All the ways the mode can change, and when. */
  lemma ModeChanges(cfg: Config, s: State, e: Event)
    ensures s.mode.Closed? ==>
              && !Step(cfg, s, e).mode.HalfOpen?
              && (Step(cfg, s, e).mode.Open? <==>
                   && e.Failure?
                   && MeetsThresholds(cfg, Refreshed(cfg, s, e.now).successes, Refreshed(cfg, s, e.now).failures + 1))
    ensures s.mode.Open? ==>
              && !Step(cfg, s, e).mode.Closed?
              && (Step(cfg, s, e).mode.HalfOpen? <==> e.Allow? && Admits(cfg, s, e.now))
    ensures s.mode.HalfOpen? ==>
              && (Step(cfg, s, e).mode.Open? <==> e.Failure?)
              && (Step(cfg, s, e).mode.Closed? <==>
                   e.Success? && Refreshed(cfg, s, e.now).successes + 1 >= cfg.halfOpenMax)
  {
  }

  // ---------- runs ----------

  function Initial(start: nat): State { State(Closed, 0, 0, start, None) }

  /** The state after the first `n` events of a breaker made at `start`. */
  function After(cfg: Config, start: nat, es: seq<Event>, n: nat): State
    requires n <= |es|
  {
    if n == 0 then Initial(start) else Step(cfg, After(cfg, start, es, n - 1), es[n - 1])
  }

  /** A breaker that was open and is closed has been half-open in between. */
  lemma {:induction false} NeverStraightToClosed(cfg: Config, start: nat, es: seq<Event>, i: nat, j: nat)
    returns (k: nat)
    requires i < j <= |es| && After(cfg, start, es, i).mode.Open? && After(cfg, start, es, j).mode.Closed?
    ensures i < k < j && After(cfg, start, es, k).mode.HalfOpen?
  {
    var before := After(cfg, start, es, j - 1);
    ModeChanges(cfg, before, es[j - 1]);
    if before.mode.HalfOpen? { k := j - 1; } else { k := NeverStraightToClosed(cfg, start, es, i, j - 1); }
  }

  // ---------- waiting ----------

  /** The time of the latest failure among the first `n` events. */
  function LatestFailure(es: seq<Event>, n: nat): Option<nat>
    requires n <= |es|
  {
    if n == 0 then None else if es[n - 1].Failure? then Some(es[n - 1].now) else LatestFailure(es, n - 1)
  }

  lemma {:induction false} RemembersFailure(cfg: Config, start: nat, es: seq<Event>, n: nat)
    requires n <= |es|
    ensures After(cfg, start, es, n).lastFailure == LatestFailure(es, n)
    ensures After(cfg, start, es, n).mode.Open? ==> LatestFailure(es, n).Some?
  {
    if n > 0 { RemembersFailure(cfg, start, es, n - 1); }
  }

  /** An open breaker admits exactly when the wait has passed since the latest failure in the trace, and
      admitting is then what makes it half-open. */
  lemma {:induction false} OpenWaits(cfg: Config, start: nat, es: seq<Event>, n: nat, now: nat)
    requires n <= |es| && After(cfg, start, es, n).mode.Open?
    ensures LatestFailure(es, n).Some?
    ensures Admits(cfg, After(cfg, start, es, n), now) <==>
              cfg.wait == 0 || now >= LatestFailure(es, n).value + cfg.wait
  {
    RemembersFailure(cfg, start, es, n);
  }

  /** After a trip, a later admission takes an allow that found the breaker open once `wait` had passed since
      the latest failure before it, a failure no earlier than the trip. */
  lemma {:induction false} NothingAdmittedWhileOpen(cfg: Config, start: nat, es: seq<Event>, i: nat, j: nat)
    returns (k: nat)
    requires 0 < i <= j < |es| && es[j].Allow?
    requires After(cfg, start, es, i).mode.Open? && es[i - 1].Failure?
    requires InOrder(es)
    requires Admits(cfg, After(cfg, start, es, j), es[j].now)
    ensures i <= k <= j && es[k].Allow? && After(cfg, start, es, k).mode.Open?
    ensures LatestFailure(es, k).Some? && es[k].now >= LatestFailure(es, k).value + cfg.wait
    ensures LatestFailure(es, k).value >= es[i - 1].now
  {
    k := FirstLeaving(cfg, start, es, i, j);
    OpenWaits(cfg, start, es, k, es[k].now);
    FailureNotBefore(es, i, k);
    LatestIsPast(es, k);
  }

  ghost predicate InOrder(es: seq<Event>) { forall k, l :: 0 <= k <= l < |es| ==> es[k].now <= es[l].now }

  lemma {:induction false} LatestIsPast(es: seq<Event>, n: nat)
    requires n < |es| && InOrder(es) && LatestFailure(es, n).Some?
    ensures LatestFailure(es, n).value <= es[n].now
  {
    if n > 0 && !es[n - 1].Failure? { LatestIsPast(es, n - 1); }
  }

  /** The event at which the breaker, open after `i` events, first lets a request through. */
  lemma {:induction false} FirstLeaving(cfg: Config, start: nat, es: seq<Event>, i: nat, j: nat) returns (k: nat)
    requires i <= j < |es| && After(cfg, start, es, i).mode.Open?
    requires es[j].Allow? && Admits(cfg, After(cfg, start, es, j), es[j].now)
    ensures i <= k <= j && es[k].Allow? && After(cfg, start, es, k).mode.Open?
    ensures Admits(cfg, After(cfg, start, es, k), es[k].now)
    decreases j - i
  {
    ModeChanges(cfg, After(cfg, start, es, i), es[i]);
    if es[i].Allow? && Admits(cfg, After(cfg, start, es, i), es[i].now) {
      k := i;
    } else {
      k := FirstLeaving(cfg, start, es, i + 1, j);
    }
  }

  lemma {:induction false} FailureNotBefore(es: seq<Event>, i: nat, n: nat)
    requires 0 < i <= n <= |es| && es[i - 1].Failure?
    requires InOrder(es)
    ensures LatestFailure(es, n).Some? && LatestFailure(es, n).value >= es[i - 1].now
  {
    if n > i && !es[n - 1].Failure? { FailureNotBefore(es, i, n - 1); }
  }

  // ---------- half-open ----------

  lemma {:induction false} HalfOpenIsClean(cfg: Config, start: nat, es: seq<Event>, n: nat)
    requires n <= |es|
    ensures After(cfg, start, es, n).mode.HalfOpen? ==>
              && After(cfg, start, es, n).failures == 0
              && (After(cfg, start, es, n).successes == 0 || After(cfg, start, es, n).successes < cfg.halfOpenMax)
  {
    if n > 0 { HalfOpenIsClean(cfg, start, es, n - 1); }
  }

  /** Whenever it is half-open it has no failures on record, and it refuses nobody exactly when
      `halfOpenMax` is at least one. */
  lemma {:induction false} HalfOpenAdmits(cfg: Config, start: nat, es: seq<Event>, n: nat, now: nat)
    requires n <= |es| && After(cfg, start, es, n).mode.HalfOpen?
    ensures After(cfg, start, es, n).failures == 0
    ensures cfg.halfOpenMax >= 1 ==> After(cfg, start, es, n).successes < cfg.halfOpenMax
    ensures Admits(cfg, After(cfg, start, es, n), now) <==> cfg.halfOpenMax >= 1
  {
    HalfOpenIsClean(cfg, start, es, n);
  }

  /** Who is let through: everyone by a closed breaker, by an open one those who come `wait` or more after the
      latest failure, and by a half-open one everyone unless `halfOpenMax` is zero. */
  lemma AdmitsIff(cfg: Config, start: nat, es: seq<Event>, n: nat, now: nat)
    requires n <= |es|
    ensures var mode := After(cfg, start, es, n).mode;
            Admits(cfg, After(cfg, start, es, n), now) <==>
              || mode.Closed?
              || (mode.Open? && LatestFailure(es, n).Some?
                  && (cfg.wait == 0 || now >= LatestFailure(es, n).value + cfg.wait))
              || (mode.HalfOpen? && cfg.halfOpenMax >= 1)
  {
    match After(cfg, start, es, n).mode
    case Closed =>
    case Open => OpenWaits(cfg, start, es, n, now);
    case HalfOpen => HalfOpenAdmits(cfg, start, es, n, now);
  }

  /** How many of the events `from..to` are successes, and how many failures. */
  function Successes(es: seq<Event>, from: nat, to: nat): nat
    requires to <= |es|
  {
    if to <= from then 0 else Successes(es, from, to - 1) + if es[to - 1].Success? then 1 else 0
  }

  function Failures(es: seq<Event>, from: nat, to: nat): nat
    requires to <= |es|
  {
    if to <= from then 0 else Failures(es, from, to - 1) + if es[to - 1].Failure? then 1 else 0
  }

  /** How many events had happened when the current half-open period began. */
  function EnteredAt(cfg: Config, start: nat, es: seq<Event>, n: nat): nat
    requires n <= |es|
  {
    if n > 0 && After(cfg, start, es, n - 1).mode.HalfOpen? then EnteredAt(cfg, start, es, n - 1) else n
  }

  lemma {:induction false} Probation(cfg: Config, start: nat, es: seq<Event>, n: nat)
    requires n <= |es| && After(cfg, start, es, n).mode.HalfOpen?
    ensures var from := EnteredAt(cfg, start, es, n);
            && 0 < from <= n
            && After(cfg, start, es, from - 1).mode.Open? && After(cfg, start, es, from).mode.HalfOpen?
            && Failures(es, from, n) == 0
            && After(cfg, start, es, n).successes <= Successes(es, from, n)
  {
    var before := After(cfg, start, es, n - 1);
    ModeChanges(cfg, before, es[n - 1]);
    if before.mode.HalfOpen? { Probation(cfg, start, es, n - 1); }
  }

  /** Closing takes at least `halfOpenMax` successes, and not one failure, since the breaker became
      half-open. */
  lemma ClosingIsEarned(cfg: Config, start: nat, es: seq<Event>, n: nat)
    requires 0 < n <= |es| && After(cfg, start, es, n - 1).mode.HalfOpen? && After(cfg, start, es, n).mode.Closed?
    ensures var from := EnteredAt(cfg, start, es, n - 1);
            && 0 < from < n
            && After(cfg, start, es, from - 1).mode.Open? && After(cfg, start, es, from).mode.HalfOpen?
            && Failures(es, from, n) == 0
            && Successes(es, from, n) >= cfg.halfOpenMax
  {
    Probation(cfg, start, es, n - 1);
    ModeChanges(cfg, After(cfg, start, es, n - 1), es[n - 1]);
  }

  // ---------- counting ----------

  /** When the window current after `n` events began: with the last event that came a whole window or more
      after the beginning of the one before. */
  function WindowFrom(cfg: Config, start: nat, es: seq<Event>, n: nat): nat
    requires n <= |es|
    decreases n, 0
  {
    if n == 0 then start else if Opens(cfg, start, es, n - 1) then es[n - 1].now else WindowFrom(cfg, start, es, n - 1)
  }

  predicate Opens(cfg: Config, start: nat, es: seq<Event>, k: nat)
    requires k < |es|
    decreases k, 1
  {
    cfg.window == 0 || es[k].now >= WindowFrom(cfg, start, es, k) + cfg.window
  }

  lemma {:induction false} KeepsWindow(cfg: Config, start: nat, es: seq<Event>, n: nat)
    requires n <= |es|
    ensures After(cfg, start, es, n).windowStart == WindowFrom(cfg, start, es, n)
    ensures n < |es| ==> (Expires(cfg, After(cfg, start, es, n), es[n].now) <==> Opens(cfg, start, es, n))
  {
    if n > 0 { KeepsWindow(cfg, start, es, n - 1); }
  }

  /** Where the counts start: after the last event that closed or half-opened the breaker, or with the first
      event of the current window, whichever is later. */
  function ResetAt(cfg: Config, start: nat, es: seq<Event>, n: nat): nat
    requires n <= |es|
    decreases n, 1
  {
    if n == 0 then 0
    else
      var before, now := After(cfg, start, es, n - 1), After(cfg, start, es, n);
      if before.mode != now.mode && !now.mode.Open? then n else CountFrom(cfg, start, es, n)
  }

  /** Where the counts that event `n - 1` is judged by start. */
  function CountFrom(cfg: Config, start: nat, es: seq<Event>, n: nat): nat
    requires 0 < n <= |es|
    decreases n, 0
  {
    if Opens(cfg, start, es, n - 1) then n - 1 else ResetAt(cfg, start, es, n - 1)
  }

  /** The counts are exactly the outcomes in the trace since the last reset. */
  lemma {:induction false} CountsAreTheTrace(cfg: Config, start: nat, es: seq<Event>, n: nat)
    requires n <= |es|
    ensures ResetAt(cfg, start, es, n) <= n
    ensures After(cfg, start, es, n).successes == Successes(es, ResetAt(cfg, start, es, n), n)
    ensures After(cfg, start, es, n).failures == Failures(es, ResetAt(cfg, start, es, n), n)
  {
    if n > 0 {
      CountsAreTheTrace(cfg, start, es, n - 1);
      KeepsWindow(cfg, start, es, n - 1);
      ModeChanges(cfg, After(cfg, start, es, n - 1), es[n - 1]);
    }
  }

  /** What an event is judged by: the outcomes before it since the counts start. */
  lemma CountsBefore(cfg: Config, start: nat, es: seq<Event>, n: nat, from: nat)
    requires 0 < n <= |es| && from == CountFrom(cfg, start, es, n)
    ensures from < n
    ensures var s := Refreshed(cfg, After(cfg, start, es, n - 1), es[n - 1].now);
            s.successes == Successes(es, from, n - 1) && s.failures == Failures(es, from, n - 1)
  {
    CountsAreTheTrace(cfg, start, es, n - 1);
    KeepsWindow(cfg, start, es, n - 1);
  }

  lemma MeetsIff(cfg: Config, successes: nat, failures: nat)
    ensures MeetsThresholds(cfg, successes, failures) <==>
              && successes + failures > 0 && successes + failures >= cfg.minRequests
              && failures as real >= cfg.failureRateThreshold * (successes + failures) as real
  {
    if successes + failures > 0 { QuotientBelow(failures, successes + failures, cfg.failureRateThreshold); }
  }

  /** A closed breaker trips exactly on a failure at which the outcomes since the counts start, that failure
      included, are enough and enough of them failed. */
  lemma TripsIff(cfg: Config, start: nat, es: seq<Event>, n: nat, successes: nat, failures: nat)
    requires 0 < n <= |es| && After(cfg, start, es, n - 1).mode.Closed?
    requires successes == Successes(es, CountFrom(cfg, start, es, n), n)
    requires failures == Failures(es, CountFrom(cfg, start, es, n), n)
    ensures After(cfg, start, es, n).mode.Open? <==>
              && es[n - 1].Failure? && successes + failures >= cfg.minRequests
              && failures as real >= cfg.failureRateThreshold * (successes + failures) as real
  {
    CountsBefore(cfg, start, es, n, CountFrom(cfg, start, es, n));
    ModeChanges(cfg, After(cfg, start, es, n - 1), es[n - 1]);
    MeetsIff(cfg, successes, failures);
  }

  /** A half-open breaker closes exactly on a success that makes the successes since the counts start enough,
      and opens exactly on a failure. */
  lemma ClosesIff(cfg: Config, start: nat, es: seq<Event>, n: nat)
    requires 0 < n <= |es| && After(cfg, start, es, n - 1).mode.HalfOpen?
    ensures After(cfg, start, es, n).mode.Closed? <==>
              es[n - 1].Success? && Successes(es, CountFrom(cfg, start, es, n), n) >= cfg.halfOpenMax
    ensures After(cfg, start, es, n).mode.Open? <==> es[n - 1].Failure?
  {
    CountsBefore(cfg, start, es, n, CountFrom(cfg, start, es, n));
    ModeChanges(cfg, After(cfg, start, es, n - 1), es[n - 1]);
  }

  // ---------- closed and below the thresholds ----------

  /** The configurations in which no success can bring the counts over the thresholds: a rate of zero is
      under the threshold, and `minRequests - 1` failures followed by a success are too. With a window of
      zero the counts never get past one. */
  predicate Decisive(cfg: Config) {
    if cfg.window == 0 then cfg.failureRateThreshold > 0.0 || cfg.minRequests > 1
    else
      && cfg.failureRateThreshold > 0.0
      && (cfg.minRequests <= 1 || cfg.failureRateThreshold * cfg.minRequests as real > (cfg.minRequests - 1) as real)
  }

  predicate Below(cfg: Config, s: State) { s.mode.Closed? ==> !MeetsThresholds(cfg, s.successes, s.failures) }

  lemma QuotientBelow(f: nat, n: nat, t: real)
    requires n > 0
    ensures f as real / n as real < t <==> f as real < t * n as real
  {
    var q := f as real / n as real;
    assert q * n as real == f as real;
    if q < t { assert (t - q) * n as real > 0.0; } else { assert (q - t) * n as real >= 0.0; }
  }

  /** One more success does not lift the counts over the thresholds. */
  lemma SuccessDilutes(cfg: Config, successes: nat, failures: nat)
    requires Decisive(cfg) && cfg.window > 0 && !MeetsThresholds(cfg, successes, failures)
    ensures !MeetsThresholds(cfg, successes + 1, failures)
  {
    var total, t := successes + failures, cfg.failureRateThreshold;
    QuotientBelow(failures, total + 1, t);
    if total >= cfg.minRequests && total > 0 {
      QuotientBelow(failures, total, t);
      Widen(t, total);
    } else if total > 0 && total + 1 == cfg.minRequests {
      assert failures as real <= (cfg.minRequests - 1) as real;
    } else if total == 0 {
      Widen(t, 0);
    }
  }

  lemma Widen(t: real, n: nat)
    requires t > 0.0
    ensures t * n as real < t * (n + 1) as real
  {
    assert (n + 1) as real == n as real + 1.0;
    assert t * (n as real + 1.0) == t * n as real + t;
  }

  lemma StepStaysBelow(cfg: Config, s: State, e: Event)
    requires Decisive(cfg) && Below(cfg, s)
    ensures Below(cfg, Step(cfg, s, e))
  {
    var r := Refreshed(cfg, s, e.now);
    if e.Success? && r.mode.Closed? && cfg.window > 0 { SuccessDilutes(cfg, r.successes, r.failures); }
    if e.Success? && cfg.window == 0 { ZeroOfOne(cfg); }
  }

  lemma ZeroOfOne(cfg: Config)
    requires cfg.failureRateThreshold > 0.0 || cfg.minRequests > 1
    ensures !MeetsThresholds(cfg, 1, 0)
  {
    assert 0.0 / 1.0 == 0.0;
  }

  /** In a decisive configuration every closed state of every run is below the thresholds. */
  lemma {:induction false} ClosedStaysBelow(cfg: Config, start: nat, es: seq<Event>, n: nat)
    requires n <= |es| && Decisive(cfg)
    ensures Below(cfg, After(cfg, start, es, n))
  {
    if n > 0 {
      ClosedStaysBelow(cfg, start, es, n - 1);
      StepStaysBelow(cfg, After(cfg, start, es, n - 1), es[n - 1]);
    }
  }

  /** `n` events of one kind at time zero, then perhaps a success. */
  function Burst(e: Event, n: nat, success: bool): (es: seq<Event>)
    ensures |es| == n + if success then 1 else 0
    ensures forall i :: 0 <= i < n ==> es[i] == e
    ensures success ==> es[n] == Success(0)
  {
    seq(n, _ => e) + if success then [Success(0)] else []
  }

  lemma {:induction false} AllSuccesses(cfg: Config, es: seq<Event>, n: nat)
    requires n <= |es| && cfg.window > 0 && forall i :: 0 <= i < n ==> es[i] == Success(0)
    ensures After(cfg, 0, es, n) == State(Closed, 0, n, 0, None)
  {
    if n > 0 { AllSuccesses(cfg, es, n - 1); }
  }

  lemma {:induction false} TooFewToTrip(cfg: Config, es: seq<Event>, n: nat)
    requires n <= |es| && cfg.window > 0 && n < cfg.minRequests && forall i :: 0 <= i < n ==> es[i] == Failure(0)
    ensures After(cfg, 0, es, n) == State(Closed, n, 0, 0, if n == 0 then None else Some(0))
  {
    if n > 0 { TooFewToTrip(cfg, es, n - 1); }
  }

  /** In any other configuration a breaker can be closed above the thresholds: successes only, when the
      threshold is not positive; otherwise one failure less than `minRequests` and then a success. */
  lemma ClosedAboveThreshold(cfg: Config) returns (es: seq<Event>)
    requires !Decisive(cfg)
    ensures InOrder(es) && !Below(cfg, After(cfg, 0, es, |es|))
  {
    if cfg.window == 0 {
      es := [Success(0)];
      assert After(cfg, 0, es, 0) == Initial(0);
      assert After(cfg, 0, es, 1) == State(Closed, 0, 1, 0, None);
      assert 0.0 / 1.0 == 0.0;
    } else if cfg.failureRateThreshold <= 0.0 {
      var n := if cfg.minRequests == 0 then 1 else cfg.minRequests;
      es := Burst(Success(0), n, false);
      AllSuccesses(cfg, es, n);
      NoneOf(n);
    } else {
      var n := cfg.minRequests - 1;
      es := Burst(Failure(0), n, true);
      TooFewToTrip(cfg, es, n);
      QuotientBelow(n, n + 1, cfg.failureRateThreshold);
      assert After(cfg, 0, es, n + 1) == State(Closed, n, 1, 0, Some(0));
    }
  }

  lemma NoneOf(n: nat)
    requires n > 0
    ensures 0 as real / n as real == 0.0
  {
  }

  /** A closed breaker is always below the thresholds if and only if its configuration is decisive. */
  lemma ClosedBelowIff(cfg: Config)
    ensures (forall start: nat, es, n: nat :: n <= |es| ==> Below(cfg, After(cfg, start, es, n))) <==> Decisive(cfg)
  {
    if Decisive(cfg) {
      forall start: nat, es, n: nat | n <= |es| ensures Below(cfg, After(cfg, start, es, n)) {
        ClosedStaysBelow(cfg, start, es, n);
      }
    } else {
      var es := ClosedAboveThreshold(cfg);
      assert !Below(cfg, After(cfg, 0, es, |es|));
    }
  }
}
