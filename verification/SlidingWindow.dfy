/**
 The sliding-window limiter: per key the times of the admissions still inside the window. The
 table is swept of idle keys when it is full, judged by the window of whoever is calling.
 */
module SlidingWindow {
  import opened Common
  import opened RateCalls

  type Table = map<string, seq<nat>>

  predicate Live(t: nat, now: nat, window: nat) { Elapsed(now, t) < window }

  function Retained(ts: seq<nat>, now: nat, window: nat): (r: seq<nat>)
    ensures |r| <= |ts|
  {
    if ts == [] then []
    else
      var r := Retained(ts[..|ts| - 1], now, window);
      if Live(ts[|ts| - 1], now, window) then r + [ts[|ts| - 1]] else r
  }

  predicate Idle(ts: seq<nat>, now: nat, window: nat) { ts == [] || !Live(ts[|ts| - 1], now, window) }

  function Swept(table: Table, now: nat, window: nat): Table {
    if |table| >= MAX_ENTRIES then map k | k in table && !Idle(table[k], now, window) :: table[k] else table
  }

  function Times(table: Table, key: string): seq<nat> { if key in table then table[key] else [] }

  /** The caller's own admissions that count against it. */
  function Current(table: Table, c: Call): seq<nat> {
    Retained(Times(Swept(table, c.now, c.window), c.key), c.now, c.window)
  }

  predicate Admits(table: Table, c: Call) { |Current(table, c)| < c.limit }

  function Next(table: Table, c: Call): Table {
    Swept(table, c.now, c.window)[c.key := Extended(Current(table, c), Admits(table, c), c.now)]
  }

  // ---------- in place ----------

  class Limiter {
    var windows: Table

    constructor ()
      ensures windows == map[]
    {
      windows := map[];
    }

    method Acquire(key: string, limit: nat, window: nat, now: nat) returns (ok: bool)
      modifies this
      ensures ok == Admits(old(windows), Call(key, limit, window, now))
      ensures windows == Next(old(windows), Call(key, limit, window, now))
    {
      if |windows| >= MAX_ENTRIES { Sweep(now, window); }
      var kept := Retain(Times(windows, key), now, window);
      if |kept| >= limit {
        windows := windows[key := kept];
        return false;
      }
      windows := windows[key := kept + [now]];
      ok := true;
    }

    method Sweep(now: nat, window: nat)
      requires |windows| >= MAX_ENTRIES
      modifies this
      ensures windows == Swept(old(windows), now, window)
    {
      var todo := windows.Keys;
      var stale: set<string> := {};
      while todo != {}
        invariant windows == old(windows) && todo <= windows.Keys && stale <= windows.Keys
        invariant forall k :: k in windows && k !in todo ==> (k in stale <==> Idle(windows[k], now, window))
        invariant stale !! todo
      {
        var k :| k in todo;
        if Idle(windows[k], now, window) { stale := stale + {k}; }
        todo := todo - {k};
      }
      windows := windows - stale;
    }
  }

  method Retain(ts: seq<nat>, now: nat, window: nat) returns (kept: seq<nat>)
    ensures kept == Retained(ts, now, window)
  {
    kept := [];
    for i := 0 to |ts|
      invariant kept == Retained(ts[..i], now, window)
    {
      assert ts[..i + 1][..i] == ts[..i];
      if Live(ts[i], now, window) { kept := kept + [ts[i]]; }
    }
    assert ts[..|ts|] == ts;
  }

  // ---------- retaining ----------

  lemma RetainedAppend(ts: seq<nat>, t: nat, now: nat, window: nat)
    ensures Retained(ts + [t], now, window) == Extended(Retained(ts, now, window), Live(t, now, window), t)
  {
    assert (ts + [t])[..|ts|] == ts;
  }

  lemma {:induction false} RetainedTwice(ts: seq<nat>, now: nat, later: nat, window: nat)
    requires now <= later
    ensures Retained(Retained(ts, now, window), later, window) == Retained(ts, later, window)
  {
    if ts != [] {
      var front, t := ts[..|ts| - 1], ts[|ts| - 1];
      RetainedTwice(front, now, later, window);
      if Live(t, now, window) { RetainedAppend(Retained(front, now, window), t, later, window); }
    }
  }

  ghost predicate Upto(ts: seq<nat>, bound: nat) { forall i :: 0 <= i < |ts| ==> ts[i] <= bound }

  lemma {:induction false} RetainedUpto(ts: seq<nat>, now: nat, window: nat, bound: nat)
    requires Upto(ts, bound)
    ensures Upto(Retained(ts, now, window), bound)
  {
    if ts != [] { RetainedUpto(ts[..|ts| - 1], now, window, bound); }
  }

  /** Once the last admission is over, all are. */
  lemma {:induction false} AllOver(ts: seq<nat>, bound: nat, now: nat, window: nat)
    requires Upto(ts, bound) && !Live(bound, now, window)
    ensures Retained(ts, now, window) == []
  {
    if ts != [] { AllOver(ts[..|ts| - 1], bound, now, window); }
  }

  lemma {:induction false} FewerLater(ts: seq<nat>, now: nat, later: nat, window: nat)
    requires now <= later
    ensures |Retained(ts, later, window)| <= |Retained(ts, now, window)|
  {
    if ts != [] { FewerLater(ts[..|ts| - 1], now, later, window); }
  }

  // ---------- what a sweep does to one key ----------

  ghost predicate Ascending(ts: seq<nat>) { forall i, j :: 0 <= i < j < |ts| ==> ts[i] <= ts[j] }

  lemma {:induction false} LastIsLive(ts: seq<nat>, now: nat, window: nat)
    requires ts != [] && Live(ts[|ts| - 1], now, window)
    ensures Retained(ts, now, window) != []
  {
  }

  /** The branch of a sweep that is felt: the table is full and the key's last admission is over for the
      caller but not for the key. */
  predicate Forgets(rule: Rule, table: Table, now: nat, window: nat) {
    && |table| >= MAX_ENTRIES && rule.key in table
    && Idle(table[rule.key], now, window) && !Idle(table[rule.key], now, rule.window)
  }

  /** The same admissions count for the key in both tables. */
  predicate SameLive(rule: Rule, s: Table, t: Table, now: nat) {
    Retained(Times(s, rule.key), now, rule.window) == Retained(Times(t, rule.key), now, rule.window)
  }

  /** A sweep leaves the admissions that count for a key as they are exactly when it does not forget it; a
      caller whose window is no shorter never makes the table forget. */
  lemma SweepHarmlessIff(rule: Rule, table: Table, now: nat, window: nat)
    requires Ascending(Times(table, rule.key))
    ensures SameLive(rule, Swept(table, now, window), table, now) <==> !Forgets(rule, table, now, window)
    ensures window >= rule.window ==> !Forgets(rule, table, now, window)
  {
    var ts := Times(table, rule.key);
    if ts != [] {
      if Idle(ts, now, rule.window) {
        AllOver(ts, ts[|ts| - 1], now, rule.window);
      } else {
        LastIsLive(ts, now, rule.window);
      }
    }
  }

  /** A caller with a shorter window makes a full table forget: a key that was at its limit is let in again
      although its admissions are still inside its own window. */
  lemma ShorterWindowForgets(table: Table, own: Call, other: Call)
    requires |table| >= MAX_ENTRIES && own.key in table && own.key != other.key && own.now == other.now && own.limit > 0
    requires Idle(table[own.key], other.now, other.window) && !Admits(table, own)
    ensures Admits(Next(table, other), own)
  {
    assert own.key !in Swept(table, other.now, other.window);
    assert own.key !in Next(table, other);
  }

  // ---------- runs ----------

  ghost predicate IsStep(table: Table, c: Call, ok: bool, table': Table) {
    ok == Admits(table, c) && table' == Next(table, c)
  }

  ghost predicate IsRun(r: Run<Table>) {
    && Shaped(r) && r.tables[0] == map[]
    && forall k {:trigger r.oks[k]} :: 0 <= k < |r.oks| ==> IsStep(r.tables[k], r.calls[k], r.oks[k], r.tables[k + 1])
  }

  /** No call of the run makes the table forget the key. */
  ghost predicate NeverForgets(rule: Rule, r: Run<Table>)
    requires Shaped(r)
  {
    forall k {:trigger r.calls[k]} :: 0 <= k < |r.calls| ==>
      !Forgets(rule, r.tables[k], r.calls[k].now, r.calls[k].window)
  }

  /** That is so when every call that finds the table full has a window no shorter than the key's. */
  lemma LongEnough(rule: Rule, r: Run<Table>)
    requires Shaped(r)
    requires forall k {:trigger r.calls[k]} :: 0 <= k < |r.calls| ==>
               r.calls[k].window >= rule.window || |r.tables[k]| < MAX_ENTRIES
    ensures NeverForgets(rule, r)
  {
  }

  /** A run in which the rule's key keeps its rule and is never forgotten. */
  ghost predicate Proper(rule: Rule, r: Run<Table>) { IsRun(r) && Orderly(rule, r.calls) && NeverForgets(rule, r) }

  lemma RunAppended(r: Run<Table>, c: Call, ok: bool, table: Table)
    requires IsRun(r) && IsStep(Last(r), c, ok, table)
    ensures IsRun(Appended(r, c, ok, table))
  {
    var s := Appended(r, c, ok, table);
    forall k | 0 <= k < |s.oks| ensures IsStep(s.tables[k], s.calls[k], s.oks[k], s.tables[k + 1]) {
      if k < |r.oks| { assert IsStep(r.tables[k], r.calls[k], r.oks[k], r.tables[k + 1]); }
    }
  }

  ghost predicate AgreesAt(ts: seq<nat>, all: seq<nat>, now: nat, window: nat) {
    Retained(ts, now, window) == Retained(all, now, window)
  }

  /** From `from` on, `ts` and `all` have the same admissions inside the window. */
  ghost predicate Agrees(ts: seq<nat>, all: seq<nat>, from: nat, window: nat) {
    forall now :: now >= from ==> AgreesAt(ts, all, now, window)
  }

  lemma AgreesAfterOwn(ts: seq<nat>, all: seq<nat>, from: nat, now: nat, window: nat)
    requires Agrees(ts, all, from, window) && from <= now
    ensures Agrees(Retained(ts, now, window), all, now, window)
    ensures Agrees(Retained(ts, now, window) + [now], all + [now], now, window)
  {
    forall later | later >= now
      ensures AgreesAt(Retained(ts, now, window), all, later, window)
      ensures AgreesAt(Retained(ts, now, window) + [now], all + [now], later, window)
    {
      assert AgreesAt(ts, all, later, window);
      RetainedTwice(ts, now, later, window);
      RetainedAppend(Retained(ts, now, window), now, later, window);
      RetainedAppend(all, now, later, window);
    }
  }

  lemma AgreesAfterSweep(table: Table, key: string, all: seq<nat>, from: nat, now: nat, window: nat, own: nat)
    requires Agrees(Times(table, key), all, from, own) && from <= now && Ascending(Times(table, key))
    requires !Forgets(Rule(key, 0, own), table, now, window)
    ensures Agrees(Times(Swept(table, now, window), key), all, now, own)
    ensures Ascending(Times(Swept(table, now, window), key))
  {
    var ts := Times(table, key);
    if key in table && |table| >= MAX_ENTRIES && ts != [] && Idle(ts, now, window) {
      forall later | later >= now ensures AgreesAt([], all, later, own) {
        AllOver(ts, ts[|ts| - 1], later, own);
        assert AgreesAt(ts, all, later, own);
      }
    }
  }

  ghost predicate Tracks(rule: Rule, ts: seq<nat>, all: seq<nat>, from: nat) {
    Agrees(ts, all, from, rule.window) && Ascending(ts) && Upto(ts, from)
  }

  lemma {:induction false} RetainedAscending(ts: seq<nat>, now: nat, window: nat, bound: nat)
    requires Ascending(ts) && Upto(ts, bound)
    ensures Ascending(Retained(ts, now, window)) && Upto(Retained(ts, now, window), bound)
  {
    if ts != [] {
      var front, t := ts[..|ts| - 1], ts[|ts| - 1];
      RetainedAscending(front, now, window, t);
      RetainedUpto(ts, now, window, bound);
    }
  }

  lemma TracksSwept(rule: Rule, table: Table, c: Call, all: seq<nat>, from: nat)
    requires Tracks(rule, Times(table, rule.key), all, from) && from <= c.now
    requires !Forgets(rule, table, c.now, c.window)
    ensures Tracks(rule, Times(Swept(table, c.now, c.window), rule.key), all, c.now)
  {
    AgreesAfterSweep(table, rule.key, all, from, c.now, c.window, rule.window);
  }

  lemma TracksOwn(rule: Rule, ts: seq<nat>, now: nat, all: seq<nat>, ok: bool)
    requires Tracks(rule, ts, all, now)
    ensures Retained(ts, now, rule.window) == Retained(all, now, rule.window)
    ensures Tracks(rule, Extended(Retained(ts, now, rule.window), ok, now), Extended(all, ok, now), now)
  {
    assert AgreesAt(ts, all, now, rule.window);
    AgreesAfterOwn(ts, all, now, now, rule.window);
    RetainedAscending(ts, now, rule.window, now);
  }

  lemma TracksStep(rule: Rule, table: Table, c: Call, all: seq<nat>, from: nat)
    requires Tracks(rule, Times(table, rule.key), all, from) && from <= c.now
    requires !Forgets(rule, table, c.now, c.window)
    requires c.key == rule.key ==> c.window == rule.window
    ensures c.key == rule.key ==> |Current(table, c)| == |Retained(all, c.now, rule.window)|
    ensures Tracks(rule, Times(Next(table, c), rule.key),
                   Extended(all, c.key == rule.key && Admits(table, c), c.now), c.now)
  {
    TracksSwept(rule, table, c, all, from);
    var swept := Times(Swept(table, c.now, c.window), rule.key);
    if c.key == rule.key {
      TracksOwn(rule, swept, c.now, all, Admits(table, c));
    } else {
      assert Times(Next(table, c), rule.key) == swept;
    }
  }

  /** One call: the decision is the one all the admissions so far give, and they stay tracked. */
  lemma CallTracks(
    rule: Rule, r: Run<Table>, n: nat, ts: seq<nat>, all: seq<nat>, ts': seq<nat>, all': seq<nat>, now: nat)
    requires Proper(rule, r) && n < |r.calls| && now == r.calls[n].now
    requires ts == Times(r.tables[n], rule.key) && Tracks(rule, ts, all, Clock(r.calls, n))
    requires ts' == Times(r.tables[n + 1], rule.key)
    requires all' == Extended(all, r.calls[n].key == rule.key && r.oks[n], now)
    ensures r.calls[n].key == rule.key ==> (r.oks[n] <==> |Retained(all, now, rule.window)| < rule.limit)
    ensures Tracks(rule, ts', all', now)
  {
    var c := r.calls[n];
    assert c in r.calls && Clock(r.calls, n) <= c.now;
    assert IsStep(r.tables[n], c, r.oks[n], r.tables[n + 1]);
    TracksStep(rule, r.tables[n], c, all, Clock(r.calls, n));
  }

  lemma {:induction false} RunTracks(rule: Rule, r: Run<Table>, n: nat, ts: seq<nat>, all: seq<nat>, now: nat)
    requires Proper(rule, r) && n <= |r.calls| && ts == Times(r.tables[n], rule.key)
    requires all == Admissions(r.calls, r.oks, rule.key, n) && now == Clock(r.calls, n)
    ensures Tracks(rule, ts, all, now)
  {
    if n > 0 {
      var ts', all' := Times(r.tables[n - 1], rule.key), Admissions(r.calls, r.oks, rule.key, n - 1);
      RunTracks(rule, r, n - 1, ts', all', Clock(r.calls, n - 1));
      CallTracks(rule, r, n - 1, ts', all', ts, all, now);
    }
  }

  lemma DecidesByRetained(rule: Rule, r: Run<Table>, n: nat)
    requires Proper(rule, r) && n < |r.calls| && r.calls[n].key == rule.key
    ensures r.oks[n] <==>
              |Retained(Admissions(r.calls, r.oks, rule.key, n), r.calls[n].now, rule.window)| < rule.limit
  {
    var ts, all := Times(r.tables[n], rule.key), Admissions(r.calls, r.oks, rule.key, n);
    RunTracks(rule, r, n, ts, all, Clock(r.calls, n));
    CallTracks(rule, r, n, ts, all, Times(r.tables[n + 1], rule.key), Admissions(r.calls, r.oks, rule.key, n + 1),
               r.calls[n].now);
  }

  lemma LiveStep(all: seq<nat>, ok: bool, at: nat, now: nat, window: nat, limit: nat)
    requires at <= now && |Retained(all, now, window)| <= limit
    requires ok ==> |Retained(all, at, window)| < limit
    ensures |Retained(Extended(all, ok, at), now, window)| <= limit
  {
    RetainedAppend(all, at, now, window);
    FewerLater(all, at, now, window);
  }

  /** If call `k` was an admission of the key, it found room among all the earlier ones. */
  predicate HadRoom(rule: Rule, calls: seq<Call>, oks: seq<bool>, k: nat)
    requires k < |calls| == |oks|
  {
    calls[k].key == rule.key && oks[k] ==>
      |Retained(Admissions(calls, oks, rule.key, k), calls[k].now, rule.window)| < rule.limit
  }

  ghost predicate AllHadRoom(rule: Rule, calls: seq<Call>, oks: seq<bool>)
    requires |calls| == |oks|
  {
    forall k :: 0 <= k < |calls| ==> HadRoom(rule, calls, oks, k)
  }

  lemma ProperHasRoom(rule: Rule, r: Run<Table>)
    requires Proper(rule, r)
    ensures AllHadRoom(rule, r.calls, r.oks)
  {
    forall k | 0 <= k < |r.calls| ensures HadRoom(rule, r.calls, r.oks, k) {
      if r.calls[k].key == rule.key { DecidesByRetained(rule, r, k); }
    }
  }

  lemma {:induction false} NeverOverLimit(rule: Rule, calls: seq<Call>, oks: seq<bool>, n: nat, now: nat)
    requires n <= |calls| == |oks| && InOrder(calls) && AllHadRoom(rule, calls, oks) && Clock(calls, n) <= now
    ensures |Retained(Admissions(calls, oks, rule.key, n), now, rule.window)| <= rule.limit
  {
    if n > 0 {
      var c, ok := calls[n - 1], calls[n - 1].key == rule.key && oks[n - 1];
      assert Clock(calls, n - 1) <= c.now && HadRoom(rule, calls, oks, n - 1);
      NeverOverLimit(rule, calls, oks, n - 1, now);
      LiveStep(Admissions(calls, oks, rule.key, n - 1), ok, c.now, now, rule.window, rule.limit);
    }
  }

  /** The first moment that is still inside the window at `now`. */
  function WindowStart(now: nat, window: nat): nat { if now + 1 <= window then 0 else now + 1 - window }

  lemma {:induction false} RetainedIsWithin(all: seq<nat>, now: nat, window: nat)
    requires Upto(all, now)
    ensures |Retained(all, now, window)| == Within(all, WindowStart(now, window), now + 1)
  {
    if all != [] { RetainedIsWithin(all[..|all| - 1], now, window); }
  }

  lemma {:induction false} AdmissionsUpto(calls: seq<Call>, oks: seq<bool>, key: string, n: nat)
    requires n <= |calls| == |oks| && InOrder(calls)
    ensures Upto(Admissions(calls, oks, key, n), Clock(calls, n))
  {
    if n > 0 { AdmissionsUpto(calls, oks, key, n - 1); }
  }

  lemma RetainedSoFar(calls: seq<Call>, oks: seq<bool>, key: string, n: nat, all: seq<nat>, now: nat, window: nat)
    requires n < |calls| == |oks| && InOrder(calls) && all == Admissions(calls, oks, key, n) && now == calls[n].now
    ensures |Retained(all, now, window)| == Within(all, WindowStart(now, window), now + 1)
  {
    AdmissionsUpto(calls, oks, key, n);
    UptoLater(all, Clock(calls, n), now);
    RetainedIsWithin(all, now, window);
  }

  lemma UptoLater(all: seq<nat>, bound: nat, now: nat)
    requires Upto(all, bound) && bound <= now
    ensures Upto(all, now)
  {
  }

  /** Neither pruning nor sweeping is felt: a call at `now` is admitted exactly when fewer than `limit` of all
      the key's admissions so far lie in the `window` moments up to `now`. */
  lemma DecidesAsUnforgetting(rule: Rule, r: Run<Table>, n: nat, now: nat)
    requires Proper(rule, r) && n < |r.calls| && r.calls[n].key == rule.key && now == r.calls[n].now
    ensures r.oks[n] <==>
              Within(Admissions(r.calls, r.oks, rule.key, n), WindowStart(now, rule.window), now + 1) < rule.limit
  {
    DecidesByRetained(rule, r, n);
    RetainedSoFar(r.calls, r.oks, rule.key, n, Admissions(r.calls, r.oks, rule.key, n), now, rule.window);
  }

  /** A request is refused exactly when the window before it already holds the full `limit` of admissions. */
  lemma RefusedIffFull(rule: Rule, r: Run<Table>, n: nat, now: nat)
    requires Proper(rule, r) && n < |r.calls| && r.calls[n].key == rule.key && now == r.calls[n].now
    ensures !r.oks[n] <==>
              Within(Admissions(r.calls, r.oks, rule.key, n), WindowStart(now, rule.window), now + 1) == rule.limit
  {
    assert Clock(r.calls, n) <= r.calls[n].now;
    DecidesByRetained(rule, r, n);
    RetainedSoFar(r.calls, r.oks, rule.key, n, Admissions(r.calls, r.oks, rule.key, n), now, rule.window);
    ProperHasRoom(rule, r);
    NeverOverLimit(rule, r.calls, r.oks, n, r.calls[n].now);
  }

  lemma {:induction false} WithinIsLive(all: seq<nat>, a: nat, now: nat, window: nat)
    requires a <= now < a + window
    ensures Within(all, a, a + window) <= |Retained(all, now, window)|
  {
    if all != [] { WithinIsLive(all[..|all| - 1], a, now, window); }
  }

  lemma WithinStep(all: seq<nat>, ok: bool, now: nat, a: nat, window: nat, limit: nat)
    requires Within(all, a, a + window) <= limit
    requires ok ==> |Retained(all, now, window)| < limit
    ensures Within(Extended(all, ok, now), a, a + window) <= limit
  {
    WithinAppend(all, now, a, a + window);
    if a <= now < a + window { WithinIsLive(all, a, now, window); }
  }

  lemma {:induction false} IntervalHasRoom(rule: Rule, calls: seq<Call>, oks: seq<bool>, n: nat, a: nat)
    requires n <= |calls| == |oks| && AllHadRoom(rule, calls, oks)
    ensures Within(Admissions(calls, oks, rule.key, n), a, a + rule.window) <= rule.limit
  {
    if n > 0 {
      var c, ok := calls[n - 1], calls[n - 1].key == rule.key && oks[n - 1];
      assert HadRoom(rule, calls, oks, n - 1);
      IntervalHasRoom(rule, calls, oks, n - 1, a);
      WithinStep(Admissions(calls, oks, rule.key, n - 1), ok, c.now, a, rule.window, rule.limit);
    }
  }

  /** No interval as long as the window, wherever it starts, holds more than `limit` admissions. */
  lemma AtMostLimitPerWindow(rule: Rule, r: Run<Table>, a: nat)
    requires Proper(rule, r)
    ensures Within(AllAdmissions(r, rule.key), a, a + rule.window) <= rule.limit
  {
    ProperHasRoom(rule, r);
    IntervalHasRoom(rule, r.calls, r.oks, |r.calls|, a);
  }

  // ---------- forgetting breaks the bound ----------

  /** `n` times the same moment. */
  function Copies(now: nat, n: nat): seq<nat> { if n == 0 then [] else Copies(now, n - 1) + [now] }

  lemma {:induction false} CopiesLive(now: nat, n: nat, window: nat)
    requires window > 0
    ensures Retained(Copies(now, n), now, window) == Copies(now, n) && |Copies(now, n)| == n
    ensures n > 0 ==> !Idle(Copies(now, n), now, window)
  {
    if n > 0 { CopiesLive(now, n - 1, window); }
  }

  /** The key has made `n` admissions since it was forgotten, all at `now`. */
  predicate Restarted(rule: Rule, table: Table, now: nat, n: nat) {
    Times(table, rule.key) == Copies(now, n) && (n == 0 ==> rule.key !in table)
  }

  lemma OwnCallStep(rule: Rule, table: Table, now: nat, n: nat, c: Call)
    requires rule.window > 0 && n < rule.limit && Restarted(rule, table, now, n)
    requires c == Call(rule.key, rule.limit, rule.window, now)
    ensures Admits(table, c) && Restarted(rule, Next(table, c), now, n + 1)
  {
    CopiesLive(now, n, rule.window);
    assert Times(Swept(table, now, rule.window), rule.key) == Copies(now, n);
  }

  /** A forgotten key gets its full limit again, all at once. */
  lemma {:induction false} GetsLimitAgain(rule: Rule, r: Run<Table>, now: nat, n: nat) returns (s: Run<Table>)
    requires IsRun(r) && Orderly(rule, r.calls) && Clock(r.calls, |r.calls|) == now
    requires rule.window > 0 && n <= rule.limit && Restarted(rule, Last(r), now, n)
    ensures IsRun(s) && Orderly(rule, s.calls) && r.calls <= s.calls
    ensures AllAdmissions(s, rule.key) == AllAdmissions(r, rule.key) + Copies(now, rule.limit - n)
    decreases rule.limit - n
  {
    if n == rule.limit {
      s := r;
    } else {
      var c := Call(rule.key, rule.limit, rule.window, now);
      var table := Next(Last(r), c);
      OwnCallStep(rule, Last(r), now, n, c);
      RunAppended(r, c, true, table);
      OrderlyAppended(rule, r.calls, c);
      AllAdmissionsAppended(r, rule.key, c, true, table);
      s := GetsLimitAgain(rule, Appended(r, c, true, table), now, n + 1);
      CopiesFirst(AllAdmissions(r, rule.key), now, rule.limit - n);
    }
  }

  lemma {:induction false} CopiesCommute(now: nat, n: nat)
    ensures [now] + Copies(now, n) == Copies(now, n + 1)
  {
    if n > 0 {
      CopiesCommute(now, n - 1);
      assert [now] + Copies(now, n) == [now] + Copies(now, n - 1) + [now];
    }
  }

  lemma CopiesFirst(all: seq<nat>, now: nat, n: nat)
    requires n > 0
    ensures all + [now] + Copies(now, n - 1) == all + Copies(now, n)
  {
    CopiesCommute(now, n - 1);
    assert all + [now] + Copies(now, n - 1) == all + ([now] + Copies(now, n - 1));
  }

  /** The start of the window that ends with `now`. */
  lemma {:induction false} LiveIsWithin(all: seq<nat>, now: nat, window: nat)
    requires Upto(all, now) && window > 0
    ensures Within(all, WindowStart(now, window), WindowStart(now, window) + window) >= |Retained(all, now, window)|
  {
    if all != [] { LiveIsWithin(all[..|all| - 1], now, window); }
  }

  lemma {:induction false} WithinCopies(all: seq<nat>, now: nat, n: nat, a: nat, b: nat)
    requires a <= now < b
    ensures Within(all + Copies(now, n), a, b) == Within(all, a, b) + n
  {
    if n == 0 {
      assert all + [] == all;
    } else {
      WithinCopies(all, now, n - 1, a, b);
      WithinAppend(all + Copies(now, n - 1), now, a, b);
      assert all + Copies(now, n) == all + Copies(now, n - 1) + [now];
    }
  }

  lemma TooMany(adm: seq<nat>, now: nat, n: nat, window: nat)
    requires Upto(adm, now) && window > 0 && Retained(adm, now, window) != []
    ensures var a := WindowStart(now, window);
            Within(adm + Copies(now, n), a, a + window) > n
  {
    var a := WindowStart(now, window);
    LiveIsWithin(adm, now, window);
    WithinCopies(adm, now, n, a, a + window);
  }

  /** Whoever makes the table forget a key is another key, and what is forgotten still counts. */
  lemma ForgetStep(rule: Rule, table: Table, c: Call)
    requires Forgets(rule, table, c.now, c.window) && (c.key == rule.key ==> c.window == rule.window)
    ensures c.key != rule.key && rule.window > 0 && rule.key !in Next(table, c)
    ensures Retained(Times(table, rule.key), c.now, rule.window) != []
  {
    LastIsLive(table[rule.key], c.now, rule.window);
    assert rule.key !in Swept(table, c.now, c.window);
  }

  /** What is about to be forgotten: admissions that are still inside the window. */
  lemma BeforeForgetting(rule: Rule, r: Run<Table>, c: Call, adm: seq<nat>)
    requires Proper(rule, r) && Orderly(rule, r.calls + [c]) && Forgets(rule, Last(r), c.now, c.window)
    requires adm == AllAdmissions(r, rule.key)
    ensures c.key != rule.key && rule.window > 0 && rule.key !in Next(Last(r), c) && Clock(r.calls, |r.calls|) <= c.now
    ensures Upto(adm, c.now) && Retained(adm, c.now, rule.window) != []
  {
    var n := |r.calls|;
    LastCallFits(rule, r.calls, c);
    ForgetStep(rule, Last(r), c);
    RunTracks(rule, r, n, Times(Last(r), rule.key), adm, Clock(r.calls, n));
    AdmissionsUpto(r.calls, r.oks, rule.key, n);
    UptoLater(adm, Clock(r.calls, n), c.now);
    assert AgreesAt(Times(Last(r), rule.key), adm, c.now, rule.window);
  }

  /** The condition is exact: if a call `c` makes the table forget the key, then `limit` more calls of the key
      at that moment are all admitted, and an interval as long as the window holds more than `limit`
      admissions. */
  lemma ForgettingBreaksBound(rule: Rule, r: Run<Table>, c: Call) returns (s: Run<Table>, a: nat)
    requires Proper(rule, r) && Orderly(rule, r.calls + [c]) && rule.limit > 0
    requires Forgets(rule, Last(r), c.now, c.window)
    ensures IsRun(s) && Orderly(rule, s.calls) && r.calls + [c] <= s.calls
    ensures Within(AllAdmissions(s, rule.key), a, a + rule.window) > rule.limit
  {
    var adm := AllAdmissions(r, rule.key);
    BeforeForgetting(rule, r, c, adm);
    var ok, table := Admits(Last(r), c), Next(Last(r), c);
    RunAppended(r, c, ok, table);
    AllAdmissionsAppended(r, rule.key, c, ok, table);
    s := GetsLimitAgain(rule, Appended(r, c, ok, table), c.now, 0);
    a := WindowStart(c.now, rule.window);
    TooMany(adm, c.now, rule.limit, rule.window);
  }
}
