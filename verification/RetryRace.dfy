/**
 Any number of threads inside `try_consume` at once, one atomic operation at a time: load the
 total, load the retries, then either the two plain increments of a cold window or the
 compare-and-swap of a warm one followed by the increment of the total. Requests are recorded
 at any moment, and windows expire at any moment by two separate stores, so a thread can act
 on what it read before the expiry.
 */
module RetryRace {
  import opened RetryBudget

  /** A thread between calls, after its loads, or between its two increments. `stale` says that the
      window expired since. */
  datatype Thread =
    | Idle
    | SawTotal(t: nat, stale: bool)
    | SawBoth(t: nat, r: nat, stale: bool)
    | Counted(stale: bool)

  /** `granted` counts the calls that finished both increments in this window. */
  datatype System = System(total: nat, retries: nat, granted: nat, resetting: bool, threads: seq<Thread>)

  datatype Action = Record | ClearTotal | ClearRetries | Advance(i: nat)

  function MarkStale(ths: seq<Thread>): (r: seq<Thread>)
    ensures |r| == |ths|
  {
    if ths == [] then []
    else
      var th := match ths[0]
        case Idle => Idle
        case SawTotal(t, _) => SawTotal(t, true)
        case SawBoth(t, r, _) => SawBoth(t, r, true)
        case Counted(_) => Counted(true);
      [th] + MarkStale(ths[1..])
  }

  /** What thread `i` does next. */
  function Advanced(cfg: Config, s: System, i: nat): System
    requires i < |s.threads|
  {
    match s.threads[i]
    case Idle => s.(threads := s.threads[i := SawTotal(s.total, false)])
    case SawTotal(t, stale) => s.(threads := s.threads[i := SawBoth(t, s.retries, stale)])
    case SawBoth(t, r, _) =>
      if t < cfg.minRequests || (!Exhausted(cfg.ratio, t, r) && s.retries == r) then
        s.(retries := s.retries + 1, threads := s.threads[i := Counted(false)])
      else
        s.(threads := s.threads[i := Idle])
    case Counted(stale) =>
      s.(total := s.total + 1, granted := if stale then s.granted else s.granted + 1, threads := s.threads[i := Idle])
  }

  function Step(cfg: Config, s: System, a: Action): System {
    match a
    case Record => s.(total := s.total + 1)
    case ClearTotal => if s.resetting then s else s.(total := 0, resetting := true)
    case ClearRetries =>
      if s.resetting then s.(retries := 0, granted := 0, resetting := false, threads := MarkStale(s.threads)) else s
    case Advance(i) => if i < |s.threads| then Advanced(cfg, s, i) else s
  }

  function Run(cfg: Config, s: System, actions: seq<Action>): System
    decreases |actions|
  {
    if actions == [] then s else Run(cfg, Step(cfg, s, actions[0]), actions[1..])
  }

  // ---------- tallies ----------

  /** Will this thread count a retry whatever the counters say now? */
  predicate Free(cfg: Config, th: Thread) {
    (th.SawTotal? || th.SawBoth?) && (th.stale || th.t < cfg.minRequests)
  }

  predicate Between(th: Thread) { th.Counted? && !th.stale }

  /** How many threads are free to count one more retry. */
  function Frees(cfg: Config, ths: seq<Thread>): nat {
    if ths == [] then 0 else (if Free(cfg, ths[0]) then 1 else 0) + Frees(cfg, ths[1..])
  }

  /** How many threads are between their two increments. */
  function Betweens(ths: seq<Thread>): nat {
    if ths == [] then 0 else (if Between(ths[0]) then 1 else 0) + Betweens(ths[1..])
  }

  lemma {:induction false} TalliesUpdate(cfg: Config, ths: seq<Thread>, i: nat, th: Thread)
    requires i < |ths|
    ensures Frees(cfg, ths[i := th]) - (if Free(cfg, th) then 1 else 0)
            == Frees(cfg, ths) - (if Free(cfg, ths[i]) then 1 else 0)
    ensures Betweens(ths[i := th]) - (if Between(th) then 1 else 0)
            == Betweens(ths) - (if Between(ths[i]) then 1 else 0)
  {
    if i == 0 {
      assert ths[i := th][1..] == ths[1..];
    } else {
      TalliesUpdate(cfg, ths[1..], i - 1, th);
      assert ths[i := th][1..] == ths[1..][i - 1 := th];
    }
  }

  lemma {:induction false} TalliesFit(cfg: Config, ths: seq<Thread>)
    ensures Frees(cfg, ths) + Betweens(ths) <= |ths|
  {
    if ths != [] { TalliesFit(cfg, ths[1..]); }
  }

  lemma {:induction false} StaleTallies(ths: seq<Thread>)
    ensures Betweens(MarkStale(ths)) == 0
    ensures forall th :: th in MarkStale(ths) ==> th.Idle? || th.stale
  {
    if ths != [] {
      StaleTallies(ths[1..]);
      assert MarkStale(ths)[1..] == MarkStale(ths[1..]);
    }
  }

  // ---------- the bound ----------

  function FirstOne(min: nat): nat { if min == 0 then 1 else min }

  /** `count` retries are within the cold allowance or within the ratio's share, up to one per thread. */
  predicate Within(cfg: Config, total: nat, count: nat, threads: nat) {
    count <= FirstOne(cfg.minRequests) - 1 + threads || count as real < cfg.ratio * total as real + threads as real
  }

  ghost predicate FreshReads(s: System) {
    forall th :: th in s.threads && (th.SawTotal? || th.SawBoth?) && !th.stale ==> th.t <= s.total
  }

  ghost predicate Inv(cfg: Config, s: System) {
    !s.resetting ==>
      && s.retries == s.granted + Betweens(s.threads)
      && s.granted <= s.total
      && FreshReads(s)
      && Within(cfg, s.total, s.retries + Frees(cfg, s.threads), |s.threads|)
  }

  lemma ShareGrows(ratio: real, t: nat, total: nat)
    requires ratio >= 0.0 && t <= total
    ensures ratio * t as real <= ratio * total as real
  {
    assert ratio * (total as real - t as real) >= 0.0;
  }

  lemma WithinGrows(cfg: Config, total: nat, total': nat, count: nat, count': nat, n: nat)
    requires cfg.ratio >= 0.0 && Within(cfg, total, count, n) && total <= total' && count' <= count
    ensures Within(cfg, total', count', n)
  {
    ShareGrows(cfg.ratio, total, total');
  }

  lemma FreshReadsUpdate(s: System, i: nat, th: Thread, total: nat, retries: nat, granted: nat)
    requires i < |s.threads| && FreshReads(s) && s.total <= total
    requires (th.SawTotal? || th.SawBoth?) && !th.stale ==> th.t <= total
    ensures FreshReads(System(total, retries, granted, s.resetting, s.threads[i := th]))
  {
    var ths := s.threads[i := th];
    forall j | 0 <= j < |ths| && (ths[j].SawTotal? || ths[j].SawBoth?) && !ths[j].stale ensures ths[j].t <= total {
      if j != i { assert ths[j] in s.threads; }
    }
  }

  /** Loading the total: a cold window leaves room for one more retry per thread. */
  lemma LoadKeepsInv(cfg: Config, s: System, i: nat)
    requires cfg.ratio >= 0.0 && Inv(cfg, s) && !s.resetting && i < |s.threads| && s.threads[i].Idle?
    ensures Inv(cfg, Advanced(cfg, s, i))
  {
    var th := SawTotal(s.total, false);
    TalliesUpdate(cfg, s.threads, i, th);
    TalliesFit(cfg, s.threads[i := th]);
    FreshReadsUpdate(s, i, th, s.total, s.retries, s.granted);
  }

  /** A thread that counts its retry: either it was free to, or its compare-and-swap proves the share. */
  lemma CountKeepsBound(cfg: Config, s: System, i: nat)
    requires cfg.ratio >= 0.0 && Inv(cfg, s) && !s.resetting && i < |s.threads| && s.threads[i].SawBoth?
    requires Advanced(cfg, s, i).threads[i].Counted?
    ensures Within(cfg, s.total, s.retries + 1 + Frees(cfg, s.threads[i := Counted(false)]), |s.threads|)
  {
    var th := s.threads[i];
    TalliesUpdate(cfg, s.threads, i, Counted(false));
    if !Free(cfg, th) {
      assert th in s.threads;
      TalliesFit(cfg, s.threads[i := Counted(false)]);
      SwapIsWithin(cfg, th.t, s.total, s.retries, Frees(cfg, s.threads[i := Counted(false)]), |s.threads|);
    }
  }

  /** A warm grant on `t <= total` requests, with `frees` other threads still free. */
  lemma SwapIsWithin(cfg: Config, t: nat, total: nat, retries: nat, frees: nat, threads: nat)
    requires cfg.ratio >= 0.0 && t <= total && Grants(cfg, t, retries) && t >= cfg.minRequests && 1 + frees <= threads
    ensures Within(cfg, total, retries + 1 + frees, threads)
  {
    WarmGrant(cfg, t, retries);
    ShareGrows(cfg.ratio, t, total);
    var share := cfg.ratio * total as real;
    assert retries == 0 || retries as real < share;
  }

  lemma DecideKeepsInv(cfg: Config, s: System, i: nat)
    requires cfg.ratio >= 0.0 && Inv(cfg, s) && !s.resetting && i < |s.threads| && s.threads[i].SawBoth?
    ensures Inv(cfg, Advanced(cfg, s, i))
  {
    var s' := Advanced(cfg, s, i);
    var th := s'.threads[i];
    TalliesUpdate(cfg, s.threads, i, th);
    FreshReadsUpdate(s, i, th, s'.total, s'.retries, s'.granted);
    if th.Counted? {
      CountKeepsBound(cfg, s, i);
    } else {
      WithinGrows(cfg, s.total, s.total, s.retries + Frees(cfg, s.threads), s'.retries + Frees(cfg, s'.threads),
                  |s.threads|);
    }
  }

  lemma OtherAdvanceKeepsInv(cfg: Config, s: System, i: nat)
    requires cfg.ratio >= 0.0 && Inv(cfg, s) && !s.resetting && i < |s.threads|
    requires s.threads[i].SawTotal? || s.threads[i].Counted?
    ensures Inv(cfg, Advanced(cfg, s, i))
  {
    var s' := Advanced(cfg, s, i);
    var th := s'.threads[i];
    assert s.threads[i] in s.threads;
    TalliesUpdate(cfg, s.threads, i, th);
    FreshReadsUpdate(s, i, th, s'.total, s'.retries, s'.granted);
    WithinGrows(cfg, s.total, s'.total, s.retries + Frees(cfg, s.threads), s'.retries + Frees(cfg, s'.threads),
                |s.threads|);
  }

  lemma ClearKeepsInv(cfg: Config, s: System)
    requires s.resetting
    ensures Inv(cfg, Step(cfg, s, ClearRetries))
  {
    StaleTallies(s.threads);
    TalliesFit(cfg, MarkStale(s.threads));
  }

  lemma StepKeepsInv(cfg: Config, s: System, a: Action)
    requires cfg.ratio >= 0.0 && Inv(cfg, s)
    ensures Inv(cfg, Step(cfg, s, a)) && |Step(cfg, s, a).threads| == |s.threads|
  {
    match a
    case Record =>
      if !s.resetting {
        var count := s.retries + Frees(cfg, s.threads);
        WithinGrows(cfg, s.total, s.total + 1, count, count, |s.threads|);
        assert FreshReads(s);
        assert FreshReads(s.(total := s.total + 1));
      }
    case ClearTotal =>
    case ClearRetries => if s.resetting { ClearKeepsInv(cfg, s); }
    case Advance(i) =>
      if i < |s.threads| && !s.resetting {
        match s.threads[i]
        case Idle => LoadKeepsInv(cfg, s, i);
        case SawTotal(_, _) => OtherAdvanceKeepsInv(cfg, s, i);
        case SawBoth(_, _, _) => DecideKeepsInv(cfg, s, i);
        case Counted(_) => OtherAdvanceKeepsInv(cfg, s, i);
      }
  }

  lemma {:induction false} RunKeepsInv(cfg: Config, s: System, actions: seq<Action>)
    requires cfg.ratio >= 0.0 && Inv(cfg, s)
    ensures Inv(cfg, Run(cfg, s, actions)) && |Run(cfg, s, actions).threads| == |s.threads|
    decreases |actions|
  {
    if actions != [] {
      StepKeepsInv(cfg, s, actions[0]);
      RunKeepsInv(cfg, Step(cfg, s, actions[0]), actions[1..]);
    }
  }

  ghost predicate Start(s: System) {
    s.total == 0 && s.retries == 0 && s.granted == 0 && !s.resetting && forall th :: th in s.threads ==> th.Idle?
  }

  lemma {:induction false} IdleTallies(cfg: Config, ths: seq<Thread>)
    requires forall th :: th in ths ==> th.Idle?
    ensures Frees(cfg, ths) == 0 && Betweens(ths) == 0
  {
    if ths != [] {
      assert ths[0] in ths;
      IdleTallies(cfg, ths[1..]);
    }
  }

  /** In every interleaving, outside the moment between the two stores of an expiry, the retries of the
      window exceed neither the cold allowance nor the ratio's share by more than one per thread, and
      they are exactly the granted calls plus the threads between their two increments. */
  lemma RetriesStayBounded(cfg: Config, s: System, actions: seq<Action>, s': System)
    requires cfg.ratio >= 0.0 && Start(s) && s' == Run(cfg, s, actions) && !s'.resetting
    ensures Within(cfg, s'.total, s'.retries, |s.threads|)
    ensures s'.retries == s'.granted + Betweens(s'.threads) && s'.granted <= s'.total
  {
    IdleTallies(cfg, s.threads);
    RunKeepsInv(cfg, s, actions);
    WithinGrows(cfg, s'.total, s'.total, s'.retries + Frees(cfg, s'.threads), s'.retries, |s.threads|);
  }

  // ---------- one thread alone ----------

  /** A thread that meets nobody does what one call of the budget does: granted, both counters go up by one;
      refused, nothing changes. */
  lemma AloneIsOneCall(cfg: Config, s: System, i: nat)
    requires i < |s.threads| && s.threads[i].Idle?
    ensures var end := Run(cfg, s, seq(if Grants(cfg, s.total, s.retries) then 4 else 3, _ => Advance(i)));
            if Grants(cfg, s.total, s.retries)
            then end == s.(total := s.total + 1, retries := s.retries + 1, granted := s.granted + 1)
            else end == s
  {
    var one := s.(threads := s.threads[i := SawTotal(s.total, false)]);
    var two := s.(threads := s.threads[i := SawBoth(s.total, s.retries, false)]);
    assert one.threads[i := SawBoth(s.total, s.retries, false)] == two.threads;
    assert Advanced(cfg, s, i) == one && Advanced(cfg, one, i) == two;
    if Grants(cfg, s.total, s.retries) {
      var three := s.(retries := s.retries + 1, threads := s.threads[i := Counted(false)]);
      var end := s.(total := s.total + 1, retries := s.retries + 1, granted := s.granted + 1);
      assert two.threads[i := Counted(false)] == three.threads;
      assert three.threads[i := Idle] == s.threads;
      assert Advanced(cfg, two, i) == three && Advanced(cfg, three, i) == end;
      RunFour(cfg, s, i, one, two, three, end);
    } else {
      assert two.threads[i := Idle] == s.threads;
      assert Advanced(cfg, two, i) == s;
      RunThree(cfg, s, i, one, two, s);
    }
  }

  lemma RunThree(cfg: Config, s: System, i: nat, one: System, two: System, three: System)
    requires i < |s.threads| && Advanced(cfg, s, i) == one && |one.threads| == |s.threads|
    requires Advanced(cfg, one, i) == two && |two.threads| == |s.threads| && Advanced(cfg, two, i) == three
    ensures Run(cfg, s, seq(3, _ => Advance(i))) == three
  {
    var acts := seq(3, _ => Advance(i));
    assert acts == [Advance(i)] + ([Advance(i)] + ([Advance(i)] + []));
    RunHead(cfg, s, Advance(i), [Advance(i)] + ([Advance(i)] + []));
    RunHead(cfg, one, Advance(i), [Advance(i)] + []);
    RunHead(cfg, two, Advance(i), []);
  }

  lemma RunFour(cfg: Config, s: System, i: nat, one: System, two: System, three: System, four: System)
    requires i < |s.threads| && Advanced(cfg, s, i) == one && |one.threads| == |s.threads|
    requires Advanced(cfg, one, i) == two && |two.threads| == |s.threads|
    requires Advanced(cfg, two, i) == three && |three.threads| == |s.threads| && Advanced(cfg, three, i) == four
    ensures Run(cfg, s, seq(4, _ => Advance(i))) == four
  {
    assert seq(4, _ => Advance(i)) == [Advance(i)] + seq(3, _ => Advance(i));
    RunHead(cfg, s, Advance(i), seq(3, _ => Advance(i)));
    RunThree(cfg, one, i, two, three, four);
  }

  lemma RunHead(cfg: Config, s: System, a: Action, rest: seq<Action>)
    ensures Run(cfg, s, [a] + rest) == Run(cfg, Step(cfg, s, a), rest)
  {
    assert ([a] + rest)[1..] == rest;
  }
}
