/**
 The fixed-window limiter: per key a count and the time its window began. A full table is
 swept of expired windows, judged by the window of whoever is calling.
 */
module FixedWindow {
  import opened Common
  import opened RateCalls

  datatype Entry = Entry(count: nat, start: nat)

  type Table = map<string, Entry>

  predicate Expired(e: Entry, now: nat, window: nat) { Elapsed(now, e.start) >= window }

  function Swept(table: Table, now: nat, window: nat): Table {
    if |table| >= MAX_ENTRIES then map k | k in table && !Expired(table[k], now, window) :: table[k] else table
  }

  function Lookup(table: Table, key: string): Option<Entry> { if key in table then Some(table[key]) else None }

  /** One key's entry after a call, and whether the call is admitted. */
  function Opened(e: Option<Entry>, now: nat, window: nat): Entry {
    if e.None? || Expired(e.value, now, window) then Entry(0, now) else e.value
  }

  predicate Admitted(e: Option<Entry>, limit: nat, window: nat, now: nat) { Opened(e, now, window).count < limit }

  function Counted(e: Option<Entry>, limit: nat, window: nat, now: nat): Option<Entry> {
    var o := Opened(e, now, window);
    if o.count < limit then Some(o.(count := o.count + 1)) else if e.None? then None else Some(o)
  }

  predicate Admits(table: Table, c: Call) {
    Admitted(Lookup(Swept(table, c.now, c.window), c.key), c.limit, c.window, c.now)
  }

  function Next(table: Table, c: Call): Table {
    var swept := Swept(table, c.now, c.window);
    var e := Counted(Lookup(swept, c.key), c.limit, c.window, c.now);
    if e.Some? then swept[c.key := e.value] else swept
  }

  class Limiter {
    var windows: Table

    constructor ()
      ensures windows == map[]
    {
      windows := map[];
    }

    method Acquire(key: string, limit: nat, window: nat, now: nat) returns (ok: bool)
      modifies this
      ensures ok == Admits(old(windows), Call(key, limit, window, now))
      ensures windows == Next(old(windows), Call(key, limit, window, now))
    {
      if |windows| >= MAX_ENTRIES { Sweep(now, window); }
      if key in windows {
        if Elapsed(now, windows[key].start) >= window { windows := windows[key := Entry(0, now)]; }
        if windows[key].count >= limit { return false; }
        windows := windows[key := windows[key].(count := windows[key].count + 1)];
        return true;
      }
      if limit == 0 { return false; }
      windows := windows[key := Entry(1, now)];
      ok := true;
    }

    method Sweep(now: nat, window: nat)
      requires |windows| >= MAX_ENTRIES
      modifies this
      ensures windows == Swept(old(windows), now, window)
    {
      var todo := windows.Keys;
      var stale: set<string> := {};
      while todo != {}
        invariant windows == old(windows) && todo <= windows.Keys && stale <= windows.Keys
        invariant forall k :: k in windows && k !in todo ==> (k in stale <==> Expired(windows[k], now, window))
        invariant stale !! todo
      {
        var k :| k in todo;
        if Expired(windows[k], now, window) { stale := stale + {k}; }
        todo := todo - {k};
      }
      windows := windows - stale;
    }
  }

  // ---------- what a sweep does to one key ----------

  /** The branch of a sweep that is felt: the table is full and the key's window is over for the caller but
      not for the key. */
  predicate Forgets(rule: Rule, table: Table, now: nat, window: nat) {
    && |table| >= MAX_ENTRIES && rule.key in table
    && Expired(table[rule.key], now, window) && !Expired(table[rule.key], now, rule.window)
  }

  /** The next call of the key finds the same window in both tables. */
  predicate SameWindow(rule: Rule, s: Table, t: Table, now: nat) {
    Opened(Lookup(s, rule.key), now, rule.window) == Opened(Lookup(t, rule.key), now, rule.window)
  }

  /** A sweep leaves the window a key counts in as it is exactly when it does not forget it; a window that
      began just now and counted nothing is not missed either. A caller whose window is no shorter never
      makes the table forget. */
  lemma SweepHarmlessIff(rule: Rule, table: Table, now: nat, window: nat)
    ensures SameWindow(rule, Swept(table, now, window), table, now) <==>
              !Forgets(rule, table, now, window) || table[rule.key] == Entry(0, now)
    ensures window >= rule.window ==> !Forgets(rule, table, now, window)
  {
  }

  /** A caller with a shorter window makes a full table forget: a key that was at its limit is let in again
      in the same window of its own. */
  lemma ShorterWindowForgets(table: Table, own: Call, other: Call)
    requires own.key != other.key && own.now == other.now && own.limit > 0
    requires Forgets(Rule(own.key, own.limit, own.window), table, other.now, other.window) && !Admits(table, own)
    ensures Admits(Next(table, other), own)
  {
    assert own.key !in Swept(table, other.now, other.window);
    assert own.key !in Next(table, other);
  }

  // ---------- runs ----------

  ghost predicate IsStep(table: Table, c: Call, ok: bool, table': Table) {
    ok == Admits(table, c) && table' == Next(table, c)
  }

  ghost predicate IsRun(r: Run<Table>) {
    && Shaped(r) && r.tables[0] == map[]
    && forall k {:trigger r.oks[k]} :: 0 <= k < |r.oks| ==> IsStep(r.tables[k], r.calls[k], r.oks[k], r.tables[k + 1])
  }

  /** No call of the run makes the table forget the key. */
  ghost predicate NeverForgets(rule: Rule, r: Run<Table>)
    requires Shaped(r)
  {
    forall k {:trigger r.calls[k]} :: 0 <= k < |r.calls| ==>
      !Forgets(rule, r.tables[k], r.calls[k].now, r.calls[k].window)
  }

  /** That is so when every call that finds the table full has a window no shorter than the key's. */
  lemma LongEnough(rule: Rule, r: Run<Table>)
    requires Shaped(r)
    requires forall k {:trigger r.calls[k]} :: 0 <= k < |r.calls| ==>
               r.calls[k].window >= rule.window || |r.tables[k]| < MAX_ENTRIES
    ensures NeverForgets(rule, r)
  {
  }

  /** A run in which the rule's key keeps its rule and is never forgotten. */
  ghost predicate Proper(rule: Rule, r: Run<Table>) { IsRun(r) && Orderly(rule, r.calls) && NeverForgets(rule, r) }

  lemma RunAppended(r: Run<Table>, c: Call, ok: bool, table: Table)
    requires IsRun(r) && IsStep(Last(r), c, ok, table)
    ensures IsRun(Appended(r, c, ok, table))
  {
    var s := Appended(r, c, ok, table);
    forall k | 0 <= k < |s.oks| ensures IsStep(s.tables[k], s.calls[k], s.oks[k], s.tables[k + 1]) {
      if k < |r.oks| { assert IsStep(r.tables[k], r.calls[k], r.oks[k], r.tables[k + 1]); }
    }
  }

  /** The key's entry if the table were never swept. */
  function Unswept(calls: seq<Call>, key: string, n: nat): Option<Entry>
    requires n <= |calls|
  {
    if n == 0 then None else Followed(Unswept(calls, key, n - 1), calls[n - 1], key)
  }

  function Followed(e: Option<Entry>, c: Call, key: string): Option<Entry> {
    if c.key == key then Counted(e, c.limit, c.window, c.now) else e
  }

  /** From `from` on the two entries cannot be told apart: they are equal, or one was swept and the other
      has expired. */
  predicate Alike(e: Option<Entry>, u: Option<Entry>, from: nat, window: nat) {
    e == u || (e.None? && u.Some? && from >= u.value.start + window)
  }

  lemma AlikeSwept(table: Table, key: string, u: Option<Entry>, from: nat, now: nat, window: nat, own: nat)
    requires Alike(Lookup(table, key), u, from, own) && from <= now
    requires !Forgets(Rule(key, 0, own), table, now, window)
    requires u.Some? ==> u.value.start <= from
    ensures Alike(Lookup(Swept(table, now, window), key), u, now, own)
  {
  }

  lemma AlikeCounted(e: Option<Entry>, u: Option<Entry>, limit: nat, window: nat, now: nat)
    requires Alike(e, u, now, window) && limit > 0
    ensures Admitted(e, limit, window, now) == Admitted(u, limit, window, now)
    ensures Alike(Counted(e, limit, window, now), Counted(u, limit, window, now), now, window)
  {
  }

  /** What the entry of the key under study satisfies: a limit of zero never admits; otherwise the entry is
      alike to the unswept one, which began in the past and has counted something, within the limit. */
  ghost predicate Tracks(rule: Rule, e: Option<Entry>, u: Option<Entry>, from: nat) {
    rule.limit > 0 ==>
      Alike(e, u, from, rule.window) && (u.Some? ==> u.value.start <= from && 0 < u.value.count <= rule.limit)
  }

  lemma TracksStep(rule: Rule, table: Table, c: Call, u: Option<Entry>, from: nat)
    requires Tracks(rule, Lookup(table, rule.key), u, from) && from <= c.now
    requires !Forgets(rule, table, c.now, c.window)
    requires c.key == rule.key ==> c.limit == rule.limit && c.window == rule.window
    ensures c.key == rule.key ==> Admits(table, c) == Admitted(u, c.limit, c.window, c.now)
    ensures Tracks(rule, Lookup(Next(table, c), rule.key), Followed(u, c, rule.key), c.now)
  {
    if rule.limit > 0 {
      AlikeSwept(table, rule.key, u, from, c.now, c.window, rule.window);
      var e := Lookup(Swept(table, c.now, c.window), rule.key);
      if c.key == rule.key { AlikeCounted(e, u, rule.limit, rule.window, c.now); }
    }
  }

  lemma {:induction false} RunTracks(rule: Rule, r: Run<Table>, n: nat)
    requires Proper(rule, r) && n <= |r.calls|
    ensures Tracks(rule, Lookup(r.tables[n], rule.key), Unswept(r.calls, rule.key, n), Clock(r.calls, n))
  {
    if n > 0 {
      RunTracks(rule, r, n - 1);
      CallTracks(rule, r, n - 1, Unswept(r.calls, rule.key, n - 1));
    }
  }

  /** One call: the decision is the unswept window's, and the two stay alike. */
  lemma CallTracks(rule: Rule, r: Run<Table>, n: nat, u: Option<Entry>)
    requires Proper(rule, r) && n < |r.calls| && Tracks(rule, Lookup(r.tables[n], rule.key), u, Clock(r.calls, n))
    ensures r.calls[n].key == rule.key ==> r.oks[n] == Admitted(u, rule.limit, rule.window, r.calls[n].now)
    ensures Tracks(rule, Lookup(r.tables[n + 1], rule.key), Followed(u, r.calls[n], rule.key), r.calls[n].now)
  {
    var c := r.calls[n];
    assert c in r.calls && Clock(r.calls, n) <= c.now;
    assert IsStep(r.tables[n], c, r.oks[n], r.tables[n + 1]);
    TracksStep(rule, r.tables[n], c, u, Clock(r.calls, n));
  }

  /** Sweeping never changes a decision. */
  lemma DecidesAsUnswept(rule: Rule, r: Run<Table>, n: nat)
    requires Proper(rule, r) && n < |r.calls| && r.calls[n].key == rule.key
    ensures r.oks[n] <==> Admitted(Unswept(r.calls, rule.key, n), rule.limit, rule.window, r.calls[n].now)
  {
    RunTracks(rule, r, n);
    CallTracks(rule, r, n, Unswept(r.calls, rule.key, n));
  }

  // ---------- decisions from the admissions alone ----------

  /** When the window current after these admissions began: with the last one that came a whole window or more
      after the beginning of the one before. */
  function WindowOf(times: seq<nat>, window: nat): Option<nat> {
    if times == [] then None
    else
      var w, last := WindowOf(times[..|times| - 1], window), times[|times| - 1];
      if w.None? || last >= w.value + window then Some(last) else w
  }

  lemma WindowOfAppend(times: seq<nat>, t: nat, window: nat)
    ensures var w := WindowOf(times, window);
            WindowOf(times + [t], window) == if w.None? || t >= w.value + window then Some(t) else w
  {
    assert (times + [t])[..|times|] == times;
  }

  /** The entry counts the admissions since the current window began. */
  ghost predicate Reflects(u: Option<Entry>, all: seq<nat>, window: nat, clock: nat) {
    && (u.None? <==> all == [])
    && (forall i :: 0 <= i < |all| ==> all[i] <= clock)
    && (u.Some? ==>
          && WindowOf(all, window) == Some(u.value.start)
          && u.value.count == Within(all, u.value.start, clock + 1)
          && forall i :: 0 <= i < |all| ==> all[i] < u.value.start + window)
  }

  lemma {:induction false} WithinLater(all: seq<nat>, a: nat, b: nat, c: nat)
    requires b <= c && forall i :: 0 <= i < |all| ==> all[i] < b
    ensures Within(all, a, b) == Within(all, a, c)
  {
    if all != [] { WithinLater(all[..|all| - 1], a, b, c); }
  }

  lemma {:induction false} WithinNone(all: seq<nat>, a: nat, b: nat)
    requires forall i :: 0 <= i < |all| ==> all[i] < a
    ensures Within(all, a, b) == 0
  {
    if all != [] { WithinNone(all[..|all| - 1], a, b); }
  }

  lemma ReflectsOwn(u: Option<Entry>, all: seq<nat>, limit: nat, window: nat, clock: nat, now: nat, ok: bool)
    requires Reflects(u, all, window, clock) && window > 0 && limit > 0 && clock <= now && Sound(u, limit, clock)
    requires ok == Admitted(u, limit, window, now)
    ensures Reflects(Counted(u, limit, window, now), Extended(all, ok, now), window, now)
    ensures ok <==> u.None? || now >= u.value.start + window || Within(all, u.value.start, now + 1) < limit
  {
    WindowOfAppend(all, now, window);
    WithinAppend(all, now, now, now + 1);
    if u.Some? {
      WithinLater(all, u.value.start, clock + 1, now + 1);
      WithinAppend(all, now, u.value.start, now + 1);
      if now >= u.value.start + window { WithinNone(all, now, now + 1); }
    }
  }

  lemma ReflectsOther(u: Option<Entry>, all: seq<nat>, window: nat, clock: nat, now: nat)
    requires Reflects(u, all, window, clock) && clock <= now
    ensures Reflects(u, all, window, now)
  {
    if u.Some? { WithinLater(all, u.value.start, clock + 1, now + 1); }
  }

  lemma {:induction false} RunReflects(rule: Rule, r: Run<Table>, n: nat, u: Option<Entry>, all: seq<nat>)
    requires Proper(rule, r) && n <= |r.calls| && rule.limit > 0 && rule.window > 0
    requires u == Unswept(r.calls, rule.key, n) && all == Admissions(r.calls, r.oks, rule.key, n)
    ensures Reflects(u, all, rule.window, Clock(r.calls, n))
  {
    if n > 0 {
      var u', all' := Unswept(r.calls, rule.key, n - 1), Admissions(r.calls, r.oks, rule.key, n - 1);
      RunReflects(rule, r, n - 1, u', all');
      CallReflects(rule, r, n - 1, u', all');
    }
  }

  lemma CallReflects(rule: Rule, r: Run<Table>, n: nat, u: Option<Entry>, all: seq<nat>)
    requires Proper(rule, r) && n < |r.calls| && rule.limit > 0 && rule.window > 0 && u == Unswept(r.calls, rule.key, n)
    requires Reflects(u, all, rule.window, Clock(r.calls, n))
    ensures Reflects(Followed(u, r.calls[n], rule.key),
                     Extended(all, r.calls[n].key == rule.key && r.oks[n], r.calls[n].now), rule.window, r.calls[n].now)
    ensures r.calls[n].key == rule.key ==>
              (r.oks[n] <==> u.None? || r.calls[n].now >= u.value.start + rule.window
                             || Within(all, u.value.start, r.calls[n].now + 1) < rule.limit)
  {
    var c := r.calls[n];
    RunTracks(rule, r, n);
    CallTracks(rule, r, n, u);
    assert c in r.calls && Clock(r.calls, n) <= c.now;
    if c.key == rule.key {
      ReflectsOwn(u, all, rule.limit, rule.window, Clock(r.calls, n), c.now, r.oks[n]);
    } else {
      ReflectsOther(u, all, rule.window, Clock(r.calls, n), c.now);
    }
  }

  /** A call at `now` is admitted exactly when no window has begun, or the last one is over, or it holds fewer
      than `limit` admissions, all read off the key's admissions so far. */
  lemma AdmittedIff(rule: Rule, r: Run<Table>, n: nat, all: seq<nat>, now: nat)
    requires Proper(rule, r) && n < |r.calls| && r.calls[n].key == rule.key && now == r.calls[n].now
    requires all == Admissions(r.calls, r.oks, rule.key, n)
    ensures var w := WindowOf(all, rule.window);
            r.oks[n] <==> rule.limit > 0
                          && (w.None? || now >= w.value + rule.window || Within(all, w.value, now + 1) < rule.limit)
  {
    if rule.limit > 0 && rule.window > 0 {
      RunReflects(rule, r, n, Unswept(r.calls, rule.key, n), all);
      CallReflects(rule, r, n, Unswept(r.calls, rule.key, n), all);
    } else {
      DecidesAsUnswept(rule, r, n);
      if rule.window == 0 { NoWindowPasses(rule, r, n, all, now); }
    }
  }

  /** With a window of zero the last admission is never after `now`. */
  lemma {:induction false} NoWindowPasses(rule: Rule, r: Run<Table>, n: nat, all: seq<nat>, now: nat)
    requires Proper(rule, r) && n < |r.calls| && now == r.calls[n].now && rule.window == 0
    requires all == Admissions(r.calls, r.oks, rule.key, n)
    ensures WindowOf(all, 0).Some? ==> WindowOf(all, 0).value <= now
  {
    AdmissionsPast(r.calls, r.oks, rule.key, n);
    assert Clock(r.calls, n) <= now;
    assert forall i :: 0 <= i < |all| ==> all[i] <= now;
    LastWindow(all);
  }

  lemma {:induction false} AdmissionsPast(calls: seq<Call>, oks: seq<bool>, key: string, n: nat)
    requires n <= |calls| == |oks| && InOrder(calls)
    ensures forall i :: 0 <= i < |Admissions(calls, oks, key, n)| ==>
              Admissions(calls, oks, key, n)[i] <= Clock(calls, n)
  {
    if n > 0 { AdmissionsPast(calls, oks, key, n - 1); }
  }

  lemma {:induction false} LastWindow(all: seq<nat>)
    ensures WindowOf(all, 0).Some? ==> WindowOf(all, 0).value in all
  {
    if all != [] { LastWindow(all[..|all| - 1]); }
  }

  // ---------- less than twice the limit ----------

  /** How many admissions an interval can have seen by time `clock`, given the key's entry: those of the
      window that was running at `a`, but for the one it began with, and those of the one window that began
      inside the interval. */
  function Seen(e: Option<Entry>, limit: nat, clock: nat, a: nat, b: nat): int {
    if clock < a || e.None? then 0
    else if e.value.start < a then e.value.count - 1
    else if e.value.start < b then limit - 1 + e.value.count
    else 2 * limit - 1
  }

  ghost predicate Sound(e: Option<Entry>, limit: nat, clock: nat) {
    e.Some? ==> e.value.start <= clock && 0 < e.value.count <= limit
  }

  lemma SeenStep(e: Option<Entry>, limit: nat, window: nat, clock: nat, now: nat, a: nat)
    requires Sound(e, limit, clock) && clock <= now && limit > 0
    ensures Seen(e, limit, clock, a, a + window)
            + (if Admitted(e, limit, window, now) && a <= now < a + window then 1 else 0)
            <= Seen(Counted(e, limit, window, now), limit, now, a, a + window)
  {
  }

  lemma SeenLater(e: Option<Entry>, limit: nat, clock: nat, now: nat, a: nat, b: nat)
    requires Sound(e, limit, clock) && clock <= now && limit > 0
    ensures Seen(e, limit, clock, a, b) <= Seen(e, limit, now, a, b) < 2 * limit
  {
  }

  lemma OwnInterval(all: seq<nat>, limit: nat, window: nat, now: nat, ok: bool, u: Option<Entry>, clock: nat, a: nat)
    requires Sound(u, limit, clock) && clock <= now && limit > 0 && ok == Admitted(u, limit, window, now)
    requires Within(all, a, a + window) <= Seen(u, limit, clock, a, a + window)
    ensures Within(Extended(all, ok, now), a, a + window)
            <= Seen(Counted(u, limit, window, now), limit, now, a, a + window)
  {
    WithinAppend(all, now, a, a + window);
    SeenStep(u, limit, window, clock, now, a);
  }

  lemma IntervalStep(rule: Rule, all: seq<nat>, c: Call, ok: bool, u: Option<Entry>, clock: nat, a: nat)
    requires Sound(u, rule.limit, clock) && clock <= c.now && rule.limit > 0
    requires c.key == rule.key ==>
               c.limit == rule.limit && c.window == rule.window && ok == Admitted(u, rule.limit, rule.window, c.now)
    requires Within(all, a, a + rule.window) <= Seen(u, rule.limit, clock, a, a + rule.window)
    ensures Within(Extended(all, c.key == rule.key && ok, c.now), a, a + rule.window)
            <= Seen(Followed(u, c, rule.key), rule.limit, c.now, a, a + rule.window)
  {
    if c.key == rule.key {
      OwnInterval(all, rule.limit, rule.window, c.now, ok, u, clock, a);
    } else {
      SeenLater(u, rule.limit, clock, c.now, a, a + rule.window);
    }
  }

  lemma {:induction false} IntervalCount(rule: Rule, r: Run<Table>, n: nat, a: nat)
    requires Proper(rule, r) && n <= |r.calls| && rule.limit > 0
    ensures Within(Admissions(r.calls, r.oks, rule.key, n), a, a + rule.window)
            <= Seen(Unswept(r.calls, rule.key, n), rule.limit, Clock(r.calls, n), a, a + rule.window)
  {
    if n > 0 {
      IntervalCount(rule, r, n - 1, a);
      IntervalCall(rule, r, n - 1, Admissions(r.calls, r.oks, rule.key, n - 1), Unswept(r.calls, rule.key, n - 1), a);
    }
  }

  lemma IntervalCall(rule: Rule, r: Run<Table>, n: nat, all: seq<nat>, u: Option<Entry>, a: nat)
    requires Proper(rule, r) && n < |r.calls| && rule.limit > 0 && u == Unswept(r.calls, rule.key, n)
    requires Within(all, a, a + rule.window) <= Seen(u, rule.limit, Clock(r.calls, n), a, a + rule.window)
    ensures Within(Extended(all, r.calls[n].key == rule.key && r.oks[n], r.calls[n].now), a, a + rule.window)
            <= Seen(Followed(u, r.calls[n], rule.key), rule.limit, r.calls[n].now, a, a + rule.window)
  {
    var c := r.calls[n];
    RunTracks(rule, r, n);
    CallTracks(rule, r, n, u);
    assert c in r.calls && Clock(r.calls, n) <= c.now;
    IntervalStep(rule, all, c, r.oks[n], u, Clock(r.calls, n), a);
  }

  lemma {:induction false} ZeroAdmitsNone(rule: Rule, r: Run<Table>, n: nat)
    requires IsRun(r) && Orderly(rule, r.calls) && n <= |r.calls| && rule.limit == 0
    ensures Admissions(r.calls, r.oks, rule.key, n) == []
  {
    if n > 0 {
      ZeroAdmitsNone(rule, r, n - 1);
      assert r.calls[n - 1] in r.calls;
      assert IsStep(r.tables[n - 1], r.calls[n - 1], r.oks[n - 1], r.tables[n]);
    }
  }

  /** No interval as long as the window holds twice the limit: the window that was running when it began had
      its first admission before. */
  lemma LessThanTwiceLimit(rule: Rule, r: Run<Table>, a: nat)
    requires Proper(rule, r)
    ensures Within(AllAdmissions(r, rule.key), a, a + rule.window) <= if rule.limit == 0 then 0 else 2 * rule.limit - 1
  {
    var n := |r.calls|;
    if rule.limit == 0 {
      ZeroAdmitsNone(rule, r, n);
    } else {
      IntervalCount(rule, r, n, a);
      RunTracks(rule, r, n);
      SeenLater(Unswept(r.calls, rule.key, n), rule.limit, Clock(r.calls, n), Clock(r.calls, n), a, a + rule.window);
    }
  }

  // ---------- forgetting changes a decision ----------

  lemma {:induction false} UnsweptAppended(calls: seq<Call>, c: Call, key: string, n: nat)
    requires n <= |calls|
    ensures Unswept(calls + [c], key, n) == Unswept(calls, key, n)
  {
    if n > 0 { UnsweptAppended(calls, c, key, n - 1); }
  }

  lemma UnsweptNext(calls: seq<Call>, c: Call, key: string)
    ensures Unswept(calls + [c], key, |calls| + 1) == Followed(Unswept(calls, key, |calls|), c, key)
  {
    UnsweptAppended(calls, c, key, |calls|);
  }

  /** The key has been admitted `n` times since it was forgotten, while its own window, never swept, would
      have gone on to `u`. */
  predicate Restarted(rule: Rule, table: Table, now: nat, n: nat, u: Option<Entry>) {
    && Lookup(table, rule.key) == (if n == 0 then None else Some(Entry(n, now)))
    && u.Some? && n < u.value.count <= rule.limit && !Expired(u.value, now, rule.window)
  }

  lemma OwnCallStep(rule: Rule, table: Table, now: nat, n: nat, u: Option<Entry>, c: Call)
    requires rule.window > 0 && Restarted(rule, table, now, n, u) && c == Call(rule.key, rule.limit, rule.window, now)
    ensures Admits(table, c)
    ensures u.value.count < rule.limit ==>
              Restarted(rule, Next(table, c), now, n + 1, Followed(u, c, rule.key))
              && Followed(u, c, rule.key).value.count == u.value.count + 1
  {
  }

  /** The calls at which the two still agree, up to the first that the unswept window refuses. */
  lemma {:induction false} UntilTheyDiffer(rule: Rule, r: Run<Table>, now: nat, n: nat) returns (s: Run<Table>)
    requires IsRun(r) && Orderly(rule, r.calls) && Clock(r.calls, |r.calls|) == now && rule.window > 0
    requires Restarted(rule, Last(r), now, n, Unswept(r.calls, rule.key, |r.calls|))
    ensures IsRun(s) && Orderly(rule, s.calls) && r.calls < s.calls
    ensures var k := |s.calls| - 1;
            && s.calls[k].key == rule.key && s.oks[k]
            && !Admitted(Unswept(s.calls, rule.key, k), rule.limit, rule.window, s.calls[k].now)
    decreases rule.limit - Unswept(r.calls, rule.key, |r.calls|).value.count
  {
    var c, u := Call(rule.key, rule.limit, rule.window, now), Unswept(r.calls, rule.key, |r.calls|);
    var table := Next(Last(r), c);
    s := Appended(r, c, true, table);
    OwnCallStep(rule, Last(r), now, n, u, c);
    RunAppended(r, c, true, table);
    OrderlyAppended(rule, r.calls, c);
    UnsweptNext(r.calls, c, rule.key);
    if u.value.count < rule.limit {
      s := UntilTheyDiffer(rule, s, now, n + 1);
    } else {
      UnsweptAppended(r.calls, c, rule.key, |r.calls|);
    }
  }

  /** Whoever makes the table forget a key is another key. */
  lemma ForgetStep(rule: Rule, table: Table, c: Call)
    requires Forgets(rule, table, c.now, c.window) && (c.key == rule.key ==> c.window == rule.window)
    ensures c.key != rule.key && rule.window > 0 && rule.key !in Next(table, c)
  {
    assert rule.key !in Swept(table, c.now, c.window);
  }

  /** The condition is exact: if a call `c` makes the table forget the key, then among further calls of the key
      at that moment one is admitted that the unswept window refuses. */
  lemma ForgettingChangesDecision(rule: Rule, r: Run<Table>, c: Call) returns (s: Run<Table>)
    requires Proper(rule, r) && Orderly(rule, r.calls + [c]) && rule.limit > 0
    requires Forgets(rule, Last(r), c.now, c.window)
    ensures IsRun(s) && Orderly(rule, s.calls) && r.calls + [c] < s.calls
    ensures var k := |s.calls| - 1;
            && s.calls[k].key == rule.key && s.oks[k]
            && !Admitted(Unswept(s.calls, rule.key, k), rule.limit, rule.window, s.calls[k].now)
  {
    LastCallFits(rule, r.calls, c);
    ForgetStep(rule, Last(r), c);
    RunTracks(rule, r, |r.calls|);
    var ok, table := Admits(Last(r), c), Next(Last(r), c);
    RunAppended(r, c, ok, table);
    UnsweptNext(r.calls, c, rule.key);
    s := UntilTheyDiffer(rule, Appended(r, c, ok, table), c.now, 0);
  }
}
