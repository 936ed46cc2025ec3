/**
 Runs of the fixed-window limiter that go as far as they can: to one short of twice the limit
 in one interval, and beyond it once a shorter window of somebody else sweeps the key away.
 */
module FixedWindowRuns {
  import opened Common
  import opened RateCalls
  import opened FixedWindow

  // ---------- building runs ----------

  /** A run that has got to `table`, with `seen` admissions of the key from `a` to `b` and no window below
      `least`. */
  ghost predicate Built(rule: Rule, r: Run<Table>, table: Table, now: nat, a: nat, b: nat, seen: nat, least: nat) {
    && IsRun(r) && Orderly(rule, r.calls) && Last(r) == table && Clock(r.calls, |r.calls|) <= now
    && Within(AllAdmissions(r, rule.key), a, b) == seen && NoneBelow(r, least)
  }

  ghost predicate NoneBelow(r: Run<Table>, least: nat) { forall k :: 0 <= k < |r.calls| ==> r.calls[k].window >= least }

  lemma Nothing(rule: Rule, a: nat, b: nat, least: nat) returns (r: Run<Table>)
    ensures Built(rule, r, map[], 0, a, b, 0, least)
  {
    r := Run([], [], [map[]]);
  }

  lemma AddCall(rule: Rule, r: Run<Table>, table: Table, c: Call, a: nat, b: nat, seen: nat, least: nat)
    returns (s: Run<Table>)
    requires Built(rule, r, table, c.now, a, b, seen, least) && c.window >= least
    requires c.key == rule.key ==> c.limit == rule.limit && c.window == rule.window
    ensures var counted := c.key == rule.key && Admits(table, c) && a <= c.now < b;
            Built(rule, s, Next(table, c), c.now, a, b, seen + if counted then 1 else 0, least)
  {
    var ok, next := Admits(table, c), Next(table, c);
    s := Appended(r, c, ok, next);
    RunAppended(r, c, ok, next);
    OrderlyAppended(rule, r.calls, c);
    AllAdmissionsAppended(r, rule.key, c, ok, next);
    WithinAppend(AllAdmissions(r, rule.key), c.now, a, b);
  }

  function Own(rule: Rule, now: nat): Call { Call(rule.key, rule.limit, rule.window, now) }

  /** A call of the key would sweep nothing, and still nothing once the key is in. */
  ghost predicate Calm(rule: Rule, table: Table, now: nat) {
    |table.Keys + {rule.key}| < MAX_ENTRIES || forall k :: k in table ==> !Expired(table[k], now, rule.window)
  }

  /** The key may be called at `now`, and its window is then `e`. */
  ghost predicate Open(rule: Rule, table: Table, now: nat, e: Entry) {
    && Calm(rule, table, now) && Opened(Lookup(table, rule.key), now, rule.window) == e
    && e.start <= now < e.start + rule.window
  }

  lemma OwnStep(rule: Rule, table: Table, now: nat, e: Entry)
    requires Open(rule, table, now, e) && e.count < rule.limit
    ensures Admits(table, Own(rule, now)) && Next(table, Own(rule, now)) == table[rule.key := e.(count := e.count + 1)]
    ensures Calm(rule, Next(table, Own(rule, now)), now)
  {
    CalmKeeps(rule, table, now);
    var next := table[rule.key := e.(count := e.count + 1)];
    assert next.Keys + {rule.key} == table.Keys + {rule.key};
  }

  lemma CalmKeeps(rule: Rule, table: Table, now: nat)
    requires Calm(rule, table, now)
    ensures Swept(table, now, rule.window) == table
  {
    if |table| >= MAX_ENTRIES && |table.Keys + {rule.key}| < MAX_ENTRIES {
      Subset(table.Keys, table.Keys + {rule.key});
      assert false;
    }
  }

  lemma {:induction false} Subset(x: set<string>, y: set<string>)
    requires x <= y
    ensures |x| <= |y|
  {
    if x != {} {
      var k :| k in x;
      Subset(x - {k}, y - {k});
    }
  }

  lemma OneCall(
    rule: Rule, r: Run<Table>, table: Table, now: nat, e: Entry, next: Table, a: nat, b: nat, seen: nat, more: nat,
    least: nat)
    returns (s: Run<Table>)
    requires Built(rule, r, table, now, a, b, seen, least) && least <= rule.window
    requires Open(rule, table, now, e) && e.count < rule.limit && next == table[rule.key := e.(count := e.count + 1)]
    requires more == seen + if a <= now < b then 1 else 0
    ensures Built(rule, s, next, now, a, b, more, least) && Open(rule, next, now, e.(count := e.count + 1))
  {
    OwnStep(rule, table, now, e);
    s := AddCall(rule, r, table, Own(rule, now), a, b, seen, least);
  }

  /** `n` calls of the key at one moment, all admitted. */
  lemma {:induction false} Batch(
    rule: Rule, r: Run<Table>, table: Table, now: nat, e: Entry, n: nat, end: Table, a: nat, b: nat, seen: nat,
    more: nat, least: nat)
    returns (s: Run<Table>)
    requires Built(rule, r, table, now, a, b, seen, least) && least <= rule.window
    requires Open(rule, table, now, e) && e.count + n <= rule.limit && n > 0
    requires end == table[rule.key := Entry(e.count + n, e.start)] && more == seen + if a <= now < b then n else 0
    ensures Built(rule, s, end, now, a, b, more, least)
    decreases n
  {
    var e' := e.(count := e.count + 1);
    var next, one := table[rule.key := e'], seen + if a <= now < b then 1 else 0;
    s := OneCall(rule, r, table, now, e, next, a, b, seen, one, least);
    if n > 1 {
      Overwritten(table, rule.key, e', Entry(e.count + n, e.start));
      s := Batch(rule, s, next, now, e', n - 1, end, a, b, one, more, least);
    }
  }

  lemma Overwritten(table: Table, key: string, e: Entry, e': Entry)
    ensures table[key := e][key := e'] == table[key := e']
  {
  }

  // ---------- one short of twice the limit ----------

  lemma AlwaysLongEnough(rule: Rule, r: Run<Table>)
    requires IsRun(r) && Orderly(rule, r.calls) && NoneBelow(r, rule.window)
    ensures Proper(rule, r)
  {
    LongEnough(rule, r);
  }

  lemma OpenAlone(rule: Rule, e: Option<Entry>, table: Table, now: nat, e': Entry)
    requires table == (if e.None? then map[] else map[rule.key := e.value])
    requires Opened(e, now, rule.window) == e' && e'.start <= now < e'.start + rule.window
    ensures Open(rule, table, now, e') && Lookup(table, rule.key) == e
  {
    assert table.Keys + {rule.key} == {rule.key};
  }

  /** One call, and the rest of the limit just before its window is over. */
  lemma LateBatch(rule: Rule, late: Table, b: nat) returns (r: Run<Table>)
    requires rule.limit > 0 && rule.window > 1 && late == map[rule.key := Entry(rule.limit, 0)] && b == 1 + rule.window
    ensures Built(rule, r, late, rule.window - 1, 1, b, rule.limit - 1, rule.window)
  {
    var w := rule.window;
    var first := map[rule.key := Entry(1, 0)];
    assert map[][rule.key := Entry(1, 0)] == first;
    r := Nothing(rule, 1, b, w);
    OpenAlone(rule, None, map[], 0, Entry(0, 0));
    r := Batch(rule, r, map[], 0, Entry(0, 0), 1, first, 1, b, 0, 0, w);
    if rule.limit > 1 {
      OpenAlone(rule, Some(Entry(1, 0)), first, w - 1, Entry(1, 0));
      Overwritten(map[], rule.key, Entry(1, 0), Entry(rule.limit, 0));
      r := Batch(rule, r, first, w - 1, Entry(1, 0), rule.limit - 1, late, 1, b, 0, rule.limit - 1, w);
    }
  }

  /** One call, the rest of the limit just before its window is over, and the whole limit just after. */
  lemma TwiceLessOneAttained(rule: Rule) returns (r: Run<Table>)
    requires rule.limit > 0 && rule.window > 1
    ensures Proper(rule, r) && Within(AllAdmissions(r, rule.key), 1, 1 + rule.window) == 2 * rule.limit - 1
  {
    var w, b, late := rule.window, 1 + rule.window, map[rule.key := Entry(rule.limit, 0)];
    r := LateBatch(rule, late, b);
    OpenAlone(rule, Some(Entry(rule.limit, 0)), late, w, Entry(0, w));
    var last := late[rule.key := Entry(rule.limit, w)];
    r := Batch(rule, r, late, w, Entry(0, w), rule.limit, last, 1, b, rule.limit - 1, 2 * rule.limit - 1, w);
    AlwaysLongEnough(rule, r);
  }

  // ---------- beyond it ----------

  /** A key that is not the one under study, a different one for each `m`. */
  function Filler(rule: Rule, m: nat): (k: string)
    ensures |k| == |rule.key| + 1 + m && k != rule.key
  {
    seq(|rule.key| + 1 + m, _ => 'x')
  }

  /** `m` other keys, all since `t`. */
  ghost predicate Filled(rule: Rule, table: Table, m: nat, t: nat) {
    && |table| == m && rule.key !in table
    && forall k :: k in table ==> table[k] == Entry(1, t) && |k| <= |rule.key| + m
  }

  lemma FillStep(rule: Rule, table: Table, m: nat, t: nat, c: Call)
    requires Filled(rule, table, m, t) && m < MAX_ENTRIES && c.key == Filler(rule, m) && c.limit == 1 && c.now == t
    ensures Filled(rule, Next(table, c), m + 1, t)
  {
    assert Next(table, c) == table[c.key := Entry(1, t)];
  }

  /** Other callers, with window `w`, fill the table but for one place. */
  lemma {:induction false} Fill(rule: Rule, r: Run<Table>, t: nat, w: nat, m: nat, a: nat, b: nat, seen: nat)
    returns (s: Run<Table>, table: Table)
    requires Built(rule, r, map[], t, a, b, seen, w) && m < MAX_ENTRIES
    ensures Built(rule, s, table, t, a, b, seen, w) && Filled(rule, table, m, t)
  {
    if m == 0 {
      s, table := r, map[];
    } else {
      s, table := Fill(rule, r, t, w, m - 1, a, b, seen);
      var c := Call(Filler(rule, m - 1), 1, w, t);
      FillStep(rule, table, m - 1, t, c);
      s := AddCall(rule, s, table, c, a, b, seen, w);
      table := Next(table, c);
    }
  }

  lemma OpenFilled(rule: Rule, table: Table, m: nat, t: nat)
    requires Filled(rule, table, m, t) && rule.window > 0
    ensures Open(rule, table, t, Entry(0, t))
  {
  }

  /** Whoever comes `w` later, with window `w`, sweeps everything away. */
  lemma SweepAll(rule: Rule, table: Table, full: Table, t: nat, w: nat, e: Entry, c: Call)
    requires Filled(rule, table, MAX_ENTRIES - 1, t) && full == table[rule.key := e] && e.start == t
    requires c.limit == 0 && c.window == w && c.now == t + w
    ensures Next(full, c) == map[] && !Admits(full, c)
  {
    assert |full| == MAX_ENTRIES;
    forall k | k in full ensures Expired(full[k], c.now, w) {
      if k != rule.key { assert k in table; }
    }
    assert Swept(full, c.now, w) == map[];
  }

  /** One round: the table fills up, the key is admitted to its limit, and `w` later all is forgotten. */
  lemma Round(rule: Rule, r: Run<Table>, t: nat, w: nat, b: nat, seen: nat) returns (s: Run<Table>)
    requires rule.limit > 0 && w < rule.window && t < b && Built(rule, r, map[], t, 0, b, seen, w)
    ensures Built(rule, s, map[], t + w, 0, b, seen + rule.limit, w)
  {
    var table;
    s, table := Fill(rule, r, t, w, MAX_ENTRIES - 1, 0, b, seen);
    OpenFilled(rule, table, MAX_ENTRIES - 1, t);
    var e := Entry(rule.limit, t);
    var full := table[rule.key := e];
    s := Batch(rule, s, table, t, Entry(0, t), rule.limit, full, 0, b, seen, seen + rule.limit, w);
    var c := Call(Filler(rule, 0), 0, w, t + w);
    SweepAll(rule, table, full, t, w, e, c);
    s := AddCall(rule, s, full, c, 0, b, seen + rule.limit, w);
  }

  lemma {:induction false} Rounds(rule: Rule, w: nat, k: nat) returns (r: Run<Table>)
    requires rule.limit > 0 && w < rule.window && (k > 0 ==> (k - 1) * w < rule.window)
    ensures Built(rule, r, map[], k * w, 0, rule.window, k * rule.limit, w)
  {
    if k == 0 {
      r := Nothing(rule, 0, rule.window, w);
    } else {
      Fewer(k, w);
      r := Rounds(rule, w, k - 1);
      r := Round(rule, r, (k - 1) * w, w, rule.window, (k - 1) * rule.limit);
      Fewer(k, rule.limit);
    }
  }

  lemma Fewer(k: nat, w: nat)
    requires k > 0
    ensures (k - 1) * w + w == k * w && (k > 1 ==> 0 <= (k - 2) * w <= (k - 1) * w)
  {
  }

  /** With callers whose window is `w`, shorter than the key's, one window of the key takes as many times the
      limit as `w` goes into it; with `w` zero, any number. */
  lemma ForgottenHasNoBound(rule: Rule, w: nat, k: nat) returns (r: Run<Table>)
    requires rule.limit > 0 && w < rule.window && (k > 0 ==> (k - 1) * w < rule.window)
    ensures IsRun(r) && Orderly(rule, r.calls) && NoneBelow(r, w)
    ensures Within(AllAdmissions(r, rule.key), 0, 0 + rule.window) == k * rule.limit
  {
    r := Rounds(rule, w, k);
  }

  /** The interval from `a`, as long as the key's window, holds less than twice its limit. */
  ghost predicate BelowTwice(rule: Rule, r: Run<Table>, a: nat)
    requires Shaped(r)
  {
    Within(AllAdmissions(r, rule.key), a, a + rule.window) < 2 * rule.limit
  }

  /** When no caller has a window below `w`, intervals stay below twice the limit in every run, if and only if
      `w` is no shorter than the key's own. */
  lemma BoundIff(rule: Rule, w: nat)
    requires rule.limit > 0
    ensures (forall r: Run<Table>, a: nat :: IsRun(r) && Orderly(rule, r.calls) && NoneBelow(r, w) ==>
                BelowTwice(rule, r, a))
            <==> w >= rule.window
  {
    if w >= rule.window {
      forall r: Run<Table>, a: nat | IsRun(r) && Orderly(rule, r.calls) && NoneBelow(r, w)
        ensures BelowTwice(rule, r, a)
      {
        AlwaysLongEnough(rule, r);
        LessThanTwiceLimit(rule, r, a);
      }
    } else {
      var r := ForgottenHasNoBound(rule, w, 2);
      assert !BelowTwice(rule, r, 0);
    }
  }
}
