/**
 Many threads acquiring, releasing and adjusting at once, one atomic operation at a time. The
 limit a thread acquires against may be out of date, and two adjustments may read the same
 limit before either writes.
 */
module AdaptiveRace {
  import opened AdaptiveLimit

  datatype Thread =
    | Idle
    | Adjusting(seen: nat, bad: bool)
    | Ready(limit: nat)
    | Looping(limit: nat)
    | Loaded(limit: nat, current: nat)
    | Won
    | Holding

  datatype System = System(limit: nat, inflight: nat, accepted: nat, rejected: nat, released: nat, threads: seq<Thread>)

  datatype Action = BeginAdjust(i: nat, bad: bool) | Advance(i: nat)

  function Becomes(s: System, i: nat, th: Thread): System
    requires i < |s.threads|
  {
    s.(threads := s.threads[i := th])
  }

  /** What thread `i` does next: an idle thread starts an acquisition, a holding one releases. */
  function Advanced(cfg: Config, s: System, i: nat): System
    requires i < |s.threads|
  {
    match s.threads[i]
    case Idle => Becomes(s, i, Ready(s.limit))
    case Adjusting(seen, bad) =>
      var next := NextLimit(cfg, seen, bad);
      Becomes(if next != seen then s.(limit := next) else s, i, Idle)
    case Ready(limit) =>
      if s.inflight >= limit then Becomes(s.(rejected := s.rejected + 1), i, Idle) else Becomes(s, i, Looping(limit))
    case Looping(limit) =>
      if s.inflight >= limit then Becomes(s.(rejected := s.rejected + 1), i, Idle)
      else Becomes(s, i, Loaded(limit, s.inflight))
    case Loaded(limit, current) =>
      if s.inflight == current then Becomes(s.(inflight := current + 1), i, Won) else Becomes(s, i, Looping(limit))
    case Won => Becomes(s.(accepted := s.accepted + 1), i, Holding)
    case Holding =>
      Becomes(s.(inflight := if s.inflight > 0 then s.inflight - 1 else 0, released := s.released + 1), i, Idle)
  }

  function Step(cfg: Config, s: System, a: Action): System {
    if a.i >= |s.threads| then s
    else
      match a
      case BeginAdjust(i, bad) => if s.threads[i].Idle? then Becomes(s, i, Adjusting(s.limit, bad)) else s
      case Advance(i) => Advanced(cfg, s, i)
  }

  function Run(cfg: Config, s: System, actions: seq<Action>): System
    decreases |actions|
  {
    if actions == [] then s else Run(cfg, Step(cfg, s, actions[0]), actions[1..])
  }

  // ---------- permits ----------

  /** Threads that hold a slot: counted as accepted or about to be. */
  function Permits(ths: seq<Thread>): nat {
    if ths == [] then 0 else (if ths[0].Won? || ths[0].Holding? then 1 else 0) + Permits(ths[1..])
  }

  function Holders(ths: seq<Thread>): nat {
    if ths == [] then 0 else (if ths[0].Holding? then 1 else 0) + Holders(ths[1..])
  }

  lemma {:induction false} TalliesUpdate(ths: seq<Thread>, i: nat, th: Thread)
    requires i < |ths|
    ensures Permits(ths[i := th]) - (if th.Won? || th.Holding? then 1 else 0)
            == Permits(ths) - (if ths[i].Won? || ths[i].Holding? then 1 else 0) >= 0
    ensures Holders(ths[i := th]) - (if th.Holding? then 1 else 0) == Holders(ths) - (if ths[i].Holding? then 1 else 0)
  {
    if i == 0 {
      assert ths[i := th][1..] == ths[1..];
    } else {
      TalliesUpdate(ths[1..], i - 1, th);
      assert ths[i := th][1..] == ths[1..][i - 1 := th];
    }
  }

  ghost predicate ThreadOk(cfg: Config, th: Thread) {
    match th
    case Adjusting(seen, _) => InRange(cfg, seen)
    case Ready(limit) => InRange(cfg, limit)
    case Looping(limit) => InRange(cfg, limit)
    case Loaded(limit, current) => InRange(cfg, limit) && current < limit
    case _ => true
  }

  ghost predicate Inv(cfg: Config, s: System) {
    && InRange(cfg, s.limit)
    && s.inflight == Permits(s.threads) <= cfg.maxLimit
    && s.accepted == s.released + Holders(s.threads)
    && forall th :: th in s.threads ==> ThreadOk(cfg, th)
  }

  lemma ThreadsStayOk(cfg: Config, ths: seq<Thread>, i: nat, th: Thread)
    requires i < |ths| && ThreadOk(cfg, th) && forall x :: x in ths ==> ThreadOk(cfg, x)
    ensures forall x :: x in ths[i := th] ==> ThreadOk(cfg, x)
  {
    var next := ths[i := th];
    forall j | 0 <= j < |next| ensures ThreadOk(cfg, next[j]) {
      if j != i { assert ths[j] in ths; }
    }
  }

  lemma StepKeepsInv(cfg: Config, s: System, a: Action)
    requires ValidConfig(cfg) && Bounded(cfg) && Inv(cfg, s)
    ensures Inv(cfg, Step(cfg, s, a))
  {
    if a.i < |s.threads| {
      var th := s.threads[a.i];
      assert ThreadOk(cfg, th);
      if th.Adjusting? { NextInRange(cfg, th.seen, th.bad); }
      var s' := Step(cfg, s, a);
      assert s'.threads == s.threads[a.i := s'.threads[a.i]];
      TalliesUpdate(s.threads, a.i, s'.threads[a.i]);
      ThreadsStayOk(cfg, s.threads, a.i, s'.threads[a.i]);
    }
  }

  lemma {:induction false} RunKeepsInv(cfg: Config, s: System, actions: seq<Action>)
    requires ValidConfig(cfg) && Bounded(cfg) && Inv(cfg, s)
    ensures Inv(cfg, Run(cfg, s, actions))
    decreases |actions|
  {
    if actions != [] {
      StepKeepsInv(cfg, s, actions[0]);
      RunKeepsInv(cfg, Step(cfg, s, actions[0]), actions[1..]);
    }
  }

  ghost predicate Start(cfg: Config, s: System) {
    InRange(cfg, s.limit) && s.inflight == s.accepted == s.released == 0 && forall th :: th in s.threads ==> th.Idle?
  }

  lemma {:induction false} IdleTallies(ths: seq<Thread>)
    requires forall th :: th in ths ==> th.Idle?
    ensures Permits(ths) == 0 && Holders(ths) == 0
  {
    if ths != [] {
      assert ths[0] in ths;
      IdleTallies(ths[1..]);
    }
  }

  lemma {:induction false} NobodyWaits(ths: seq<Thread>)
    requires forall th :: th in ths ==> !th.Won?
    ensures Permits(ths) == Holders(ths)
  {
    if ths != [] {
      assert ths[0] in ths;
      NobodyWaits(ths[1..]);
    }
  }

  /** In every interleaving the limit stays in its range, the count in flight is exactly the live permits
      and never above the maximum; once no thread is between winning and being counted, every accepted
      request is either released or in flight. */
  lemma PermitsConserved(cfg: Config, s: System, actions: seq<Action>, s': System)
    requires ValidConfig(cfg) && Bounded(cfg) && Start(cfg, s) && s' == Run(cfg, s, actions)
    ensures InRange(cfg, s'.limit)
    ensures s'.inflight == Permits(s'.threads) <= cfg.maxLimit
    ensures (forall th :: th in s'.threads ==> !th.Won?) ==> s'.accepted == s'.released + s'.inflight
  {
    IdleTallies(s.threads);
    RunKeepsInv(cfg, s, actions);
    if forall th :: th in s'.threads ==> !th.Won? { NobodyWaits(s'.threads); }
  }

  // ---------- one thread alone ----------

  lemma RunHead(cfg: Config, s: System, a: Action, rest: seq<Action>)
    ensures Run(cfg, s, [a] + rest) == Run(cfg, Step(cfg, s, a), rest)
  {
    assert ([a] + rest)[1..] == rest;
  }

  /** Thread `i` takes the last `n` of these steps. */
  lemma {:induction false} RunAlone(cfg: Config, i: nat, steps: seq<System>, n: nat)
    requires n < |steps| && forall k :: 0 <= k < |steps| ==> i < |steps[k].threads|
    requires forall k {:trigger steps[k]} :: 0 <= k < |steps| - 1 ==> Advanced(cfg, steps[k], i) == steps[k + 1]
    ensures Run(cfg, steps[|steps| - 1 - n], seq(n, _ => Advance(i))) == steps[|steps| - 1]
  {
    if n > 0 {
      RunAlone(cfg, i, steps, n - 1);
      assert seq(n, _ => Advance(i)) == [Advance(i)] + seq(n - 1, _ => Advance(i));
      RunHead(cfg, steps[|steps| - 1 - n], Advance(i), seq(n - 1, _ => Advance(i)));
    }
  }

  /** A thread that meets nobody gets a slot exactly when fewer are taken than the limit. */
  lemma AloneIsOneCall(cfg: Config, s: System, i: nat)
    requires i < |s.threads| && s.threads[i].Idle?
    ensures s.inflight < s.limit ==>
              Run(cfg, s, seq(5, _ => Advance(i)))
              == s.(inflight := s.inflight + 1, accepted := s.accepted + 1, threads := s.threads[i := Holding])
    ensures s.inflight >= s.limit ==> Run(cfg, s, seq(2, _ => Advance(i))) == s.(rejected := s.rejected + 1)
  {
    var ready := Becomes(s, i, Ready(s.limit));
    if s.inflight < s.limit {
      var taken := s.(inflight := s.inflight + 1);
      var steps := [s, ready, Becomes(s, i, Looping(s.limit)), Becomes(s, i, Loaded(s.limit, s.inflight)),
                    Becomes(taken, i, Won), Becomes(taken.(accepted := s.accepted + 1), i, Holding)];
      RunAlone(cfg, i, steps, 5);
    } else {
      var end := s.(rejected := s.rejected + 1);
      assert ready.threads[i := Idle] == s.threads;
      RunAlone(cfg, i, [s, ready, end], 2);
    }
  }

  /** Giving it back undoes that, and an adjustment alone sets the next limit. */
  lemma AloneGivesBack(cfg: Config, s: System, i: nat, bad: bool)
    requires i < |s.threads|
    ensures s.threads[i].Holding? && s.inflight > 0 ==>
              Step(cfg, s, Advance(i))
              == s.(inflight := s.inflight - 1, released := s.released + 1, threads := s.threads[i := Idle])
    ensures s.threads[i].Idle? ==>
              Step(cfg, Step(cfg, s, BeginAdjust(i, bad)), Advance(i)) == s.(limit := NextLimit(cfg, s.limit, bad))
  {
    assert s.threads[i].Idle? ==> s.threads[i := Adjusting(s.limit, bad)][i := Idle] == s.threads;
  }
}
