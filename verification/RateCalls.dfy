/**
 Calls to a rate limiter, and what is assumed of a run of them: time never goes backwards,
 and the key under study always comes with the same limit and window.
 */
module RateCalls {
  /** Size at which a limiter's table is swept. */
  const MAX_ENTRIES: nat := 10_000

  datatype Call = Call(key: string, limit: nat, window: nat, now: nat)

  /** One key's limit and window. */
  datatype Rule = Rule(key: string, limit: nat, window: nat)

  ghost predicate InOrder(calls: seq<Call>) { forall i, j :: 0 <= i <= j < |calls| ==> calls[i].now <= calls[j].now }

  ghost predicate Follows(rule: Rule, calls: seq<Call>) {
    forall c :: c in calls && c.key == rule.key ==> c.limit == rule.limit && c.window == rule.window
  }

  /** Time never goes backwards and the rule's key keeps its limit and window. */
  ghost predicate Orderly(rule: Rule, calls: seq<Call>) { InOrder(calls) && Follows(rule, calls) }

  /** A run of calls: what each was answered, and the limiter's table before, between and after them. */
  datatype Run<T> = Run(calls: seq<Call>, oks: seq<bool>, tables: seq<T>)

  predicate Shaped<T>(r: Run<T>) { |r.oks| == |r.calls| && |r.tables| == |r.calls| + 1 }

  function Last<T>(r: Run<T>): T
    requires Shaped(r)
  {
    r.tables[|r.calls|]
  }

  function Appended<T>(r: Run<T>, c: Call, ok: bool, table: T): Run<T> {
    Run(r.calls + [c], r.oks + [ok], r.tables + [table])
  }

  lemma OrderlyAppended(rule: Rule, calls: seq<Call>, c: Call)
    requires Orderly(rule, calls) && Clock(calls, |calls|) <= c.now
    requires c.key == rule.key ==> c.limit == rule.limit && c.window == rule.window
    ensures Orderly(rule, calls + [c])
  {
    var all := calls + [c];
    forall i, j | 0 <= i <= j < |all| ensures all[i].now <= all[j].now {
      if i < |calls| { assert calls[i].now <= calls[|calls| - 1].now; }
    }
  }

  lemma LastCallFits(rule: Rule, calls: seq<Call>, c: Call)
    requires Orderly(rule, calls + [c])
    ensures Clock(calls, |calls|) <= c.now && (c.key == rule.key ==> c.limit == rule.limit && c.window == rule.window)
  {
    var all := calls + [c];
    assert all[|calls|] == c && c in all;
    if calls != [] { assert all[|calls| - 1] == calls[|calls| - 1]; }
  }

  function Extended(times: seq<nat>, ok: bool, now: nat): seq<nat> { if ok then times + [now] else times }

  /** Every admission of `key` among the first `n` calls, none forgotten. */
  function Admissions(calls: seq<Call>, oks: seq<bool>, key: string, n: nat): seq<nat>
    requires n <= |calls| == |oks|
  {
    if n == 0 then []
    else Extended(Admissions(calls, oks, key, n - 1), calls[n - 1].key == key && oks[n - 1], calls[n - 1].now)
  }

  lemma {:induction false} AdmissionsAppended(calls: seq<Call>, oks: seq<bool>, key: string, c: Call, ok: bool, n: nat)
    requires n <= |calls| == |oks|
    ensures Admissions(calls + [c], oks + [ok], key, n) == Admissions(calls, oks, key, n)
  {
    if n > 0 { AdmissionsAppended(calls, oks, key, c, ok, n - 1); }
  }

  /** All the admissions of `key` in a run. */
  function AllAdmissions<T>(r: Run<T>, key: string): seq<nat>
    requires Shaped(r)
  {
    Admissions(r.calls, r.oks, key, |r.calls|)
  }

  lemma AllAdmissionsAppended<T>(r: Run<T>, key: string, c: Call, ok: bool, table: T)
    requires Shaped(r)
    ensures AllAdmissions(Appended(r, c, ok, table), key) == Extended(AllAdmissions(r, key), c.key == key && ok, c.now)
  {
    AdmissionsAppended(r.calls, r.oks, key, c, ok, |r.calls|);
  }

  function Clock(calls: seq<Call>, n: nat): nat
    requires n <= |calls|
  {
    if n == 0 then 0 else calls[n - 1].now
  }

  /** How many of `times` lie in the half-open interval from `a` to `b`. */
  function Within(times: seq<nat>, a: nat, b: nat): nat {
    if times == [] then 0 else Within(times[..|times| - 1], a, b) + if a <= times[|times| - 1] < b then 1 else 0
  }

  lemma WithinAppend(times: seq<nat>, t: nat, a: nat, b: nat)
    ensures Within(times + [t], a, b) == Within(times, a, b) + if a <= t < b then 1 else 0
  {
    assert (times + [t])[..|times|] == times;
  }
}
