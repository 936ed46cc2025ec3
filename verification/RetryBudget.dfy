/**
 The retry budget: counts of all forwards and of retries in the current window, and the rule
 that grants a retry while the window is cold or the share of retries is below the ratio.
 Time is a parameter; ratios are real numbers.
 */
module RetryBudget {
  import opened Common

  datatype Config = Config(ratio: real, window: nat, minRequests: nat)

  datatype Counters = Counters(total: nat, retries: nat, start: nat)

  /** Whether `retries / total` reaches the ratio. With no requests the quotient is not a number when
      there are no retries either, which compares false, and infinite otherwise. */
  predicate Exhausted(ratio: real, total: nat, retries: nat) {
    if total == 0 then retries > 0 else retries as real / total as real >= ratio
  }

  predicate Grants(cfg: Config, total: nat, retries: nat) {
    total < cfg.minRequests || !Exhausted(cfg.ratio, total, retries)
  }

  /** In a warm window a retry is granted exactly when the retries are below their share, or nothing at all
      has been counted. */
  lemma WarmGrant(cfg: Config, total: nat, retries: nat)
    requires total >= cfg.minRequests
    ensures Grants(cfg, total, retries)
            <==> if total == 0 then retries == 0 else retries as real < cfg.ratio * total as real
  {
    if total > 0 { BelowRatio(cfg.ratio, total as real, retries as real); }
  }

  lemma BelowRatio(ratio: real, t: real, r: real)
    requires t > 0.0
    ensures r / t < ratio <==> r < ratio * t
  {
    assert r == r / t * t;
    if r / t < ratio { Scale(r / t, ratio, t); }
    if ratio < r / t { Scale(ratio, r / t, t); }
  }

  lemma Scale(a: real, b: real, t: real)
    requires a < b && t > 0.0
    ensures a * t < b * t
  {
    assert (b - a) * t > 0.0;
  }

  predicate Expired(cfg: Config, c: Counters, now: nat) { Elapsed(now, c.start) >= cfg.window }

  function Refreshed(cfg: Config, c: Counters, now: nat): Counters {
    if Expired(cfg, c, now) then Counters(0, 0, now) else c
  }

  function Recorded(cfg: Config, c: Counters, now: nat): Counters {
    var c := Refreshed(cfg, c, now);
    c.(total := c.total + 1)
  }

  function Consumed(cfg: Config, c: Counters, now: nat): Counters {
    var c := Refreshed(cfg, c, now);
    if Grants(cfg, c.total, c.retries) then c.(total := c.total + 1, retries := c.retries + 1) else c
  }

  predicate ConsumeGranted(cfg: Config, c: Counters, now: nat) {
    var c := Refreshed(cfg, c, now);
    Grants(cfg, c.total, c.retries)
  }

  /** The budget as one thread sees it. */
  class Budget {
    const cfg: Config
    var total: nat
    var retries: nat
    var start: nat

    function State(): Counters reads this { Counters(total, retries, start) }

    constructor (cfg: Config, now: nat)
      ensures this.cfg == cfg && State() == Counters(0, 0, now)
    {
      this.cfg := cfg;
      total, retries, start := 0, 0, now;
    }

    method RefreshWindow(now: nat)
      modifies this
      ensures State() == Refreshed(cfg, old(State()), now)
    {
      if Elapsed(now, start) >= cfg.window {
        total := 0;
        retries := 0;
        start := now;
      }
    }

    method TryConsume(now: nat) returns (granted: bool)
      modifies this
      ensures granted == ConsumeGranted(cfg, old(State()), now)
      ensures State() == Consumed(cfg, old(State()), now)
    {
      RefreshWindow(now);
      if total < cfg.minRequests {
        retries := retries + 1;
        total := total + 1;
        return true;
      }
      if Exhausted(cfg.ratio, total, retries) { return false; }
      retries := retries + 1;
      total := total + 1;
      granted := true;
    }

    method RecordRequest(now: nat)
      modifies this
      ensures State() == Recorded(cfg, old(State()), now)
    {
      RefreshWindow(now);
      total := total + 1;
    }
  }

  // ---------- the counters are the trace ----------

  datatype Event = Record(now: nat) | Consume(now: nat)

  function Stepped(cfg: Config, c: Counters, e: Event): Counters {
    match e
    case Record(now) => Recorded(cfg, c, now)
    case Consume(now) => Consumed(cfg, c, now)
  }

  /** The counters after the first `n` events of a budget made at `start`. */
  function After(cfg: Config, start: nat, es: seq<Event>, n: nat): Counters
    requires n <= |es|
  {
    if n == 0 then Counters(0, 0, start) else Stepped(cfg, After(cfg, start, es, n - 1), es[n - 1])
  }

  /** Event `k` is a forward: a recorded request, or a consume that was granted. */
  predicate Forwards(cfg: Config, start: nat, es: seq<Event>, k: nat)
    requires k < |es|
  {
    es[k].Consume? ==> ConsumeGranted(cfg, After(cfg, start, es, k), es[k].now)
  }

  /** When the window current after `n` events began: with the last event that came a whole window or more
      after the beginning of the one before. */
  function WindowFrom(cfg: Config, start: nat, es: seq<Event>, n: nat): nat
    requires n <= |es|
    decreases n, 0
  {
    if n == 0 then start else if Opens(cfg, start, es, n - 1) then es[n - 1].now else WindowFrom(cfg, start, es, n - 1)
  }

  predicate Opens(cfg: Config, start: nat, es: seq<Event>, k: nat)
    requires k < |es|
    decreases k, 1
  {
    cfg.window == 0 || es[k].now >= WindowFrom(cfg, start, es, k) + cfg.window
  }

  /** The first event of that window. */
  function FirstIn(cfg: Config, start: nat, es: seq<Event>, n: nat): (from: nat)
    requires n <= |es|
    ensures from <= n
  {
    if n == 0 then 0 else if Opens(cfg, start, es, n - 1) then n - 1 else FirstIn(cfg, start, es, n - 1)
  }

  /** How many of the events `from..to` are forwards. */
  function CountForwards(cfg: Config, start: nat, es: seq<Event>, from: nat, to: nat): nat
    requires to <= |es|
  {
    if to <= from then 0
    else CountForwards(cfg, start, es, from, to - 1) + if Forwards(cfg, start, es, to - 1) then 1 else 0
  }

  /** How many of them are granted consumes. */
  function CountRetries(cfg: Config, start: nat, es: seq<Event>, from: nat, to: nat): nat
    requires to <= |es|
  {
    if to <= from then 0
    else CountRetries(cfg, start, es, from, to - 1)
         + if es[to - 1].Consume? && Forwards(cfg, start, es, to - 1) then 1 else 0
  }

  /** Over any trace and any number of windows, the counters are the forwards and the granted consumes since
      the current window began. */
  lemma {:induction false} CountersAreTheTrace(cfg: Config, start: nat, es: seq<Event>, n: nat)
    requires n <= |es|
    ensures After(cfg, start, es, n).start == WindowFrom(cfg, start, es, n)
    ensures After(cfg, start, es, n).total == CountForwards(cfg, start, es, FirstIn(cfg, start, es, n), n)
    ensures After(cfg, start, es, n).retries == CountRetries(cfg, start, es, FirstIn(cfg, start, es, n), n)
  {
    if n > 0 { CountersAreTheTrace(cfg, start, es, n - 1); }
  }

  /** The first event before event `n` that is in its window, `n` itself if there is none. */
  function FirstBefore(cfg: Config, start: nat, es: seq<Event>, n: nat): nat
    requires n < |es|
  {
    if Opens(cfg, start, es, n) then n else FirstIn(cfg, start, es, n)
  }

  lemma CountersBefore(cfg: Config, start: nat, es: seq<Event>, n: nat, from: nat)
    requires n < |es| && from == FirstBefore(cfg, start, es, n)
    ensures Refreshed(cfg, After(cfg, start, es, n), es[n].now).total == CountForwards(cfg, start, es, from, n)
    ensures Refreshed(cfg, After(cfg, start, es, n), es[n].now).retries == CountRetries(cfg, start, es, from, n)
  {
    CountersAreTheTrace(cfg, start, es, n);
  }

  /** A consume is granted exactly when, of the events before it in its window, fewer than `minRequests` are
      forwards, or the granted consumes among them are below their share, or there are none at all. */
  lemma GrantedIff(cfg: Config, start: nat, es: seq<Event>, n: nat, t: nat, r: nat)
    requires n < |es| && es[n].Consume?
    requires t == CountForwards(cfg, start, es, FirstBefore(cfg, start, es, n), n)
    requires r == CountRetries(cfg, start, es, FirstBefore(cfg, start, es, n), n)
    ensures Forwards(cfg, start, es, n) <==>
              t < cfg.minRequests || (if t == 0 then r == 0 else r as real < cfg.ratio * t as real)
  {
    CountersBefore(cfg, start, es, n, FirstBefore(cfg, start, es, n));
    if t >= cfg.minRequests { WarmGrant(cfg, t, r); }
  }
}
