/**
 The retry loop of the buffered HTTP path, and how much it can multiply the load on the
 upstream when a retry budget feeds it.

 The upstream's answers and the clock are functions of the attempt number.
 */
module HttpRetry {
  import opened RetryBudget

  datatype Outcome = Response(status: nat) | UpstreamTimeout | ConnectFailed | OtherError

  predicate Retryable(o: Outcome) {
    match o
    case Response(status) => status >= 500
    case UpstreamTimeout => true
    case ConnectFailed => true
    case OtherError => false
  }

  // ---------- one request ----------

  /** The counters after `n` forwards of one request: the first is recorded, the others consume. */
  function After(cfg: Config, c: Counters, now: nat -> nat, n: nat): Counters {
    if n == 0 then c
    else if n == 1 then Recorded(cfg, c, now(0))
    else Consumed(cfg, After(cfg, c, now, n - 1), now(n - 1))
  }

  predicate GrantedAt(cfg: Config, c: Counters, now: nat -> nat, i: nat) {
    ConsumeGranted(cfg, After(cfg, c, now, i), now(i))
  }

  /** Every consume among the first `n` attempts was granted. */
  predicate AllGranted(cfg: Config, c: Counters, now: nat -> nat, n: nat) {
    n <= 1 || (AllGranted(cfg, c, now, n - 1) && GrantedAt(cfg, c, now, n - 1))
  }

  /** Charge attempt number `attempt`: the first is only recorded, a later one needs a grant. */
  method Charge(budget: Budget, attempt: nat, now: nat -> nat, ghost c: Counters) returns (granted: bool)
    requires budget.State() == After(budget.cfg, c, now, attempt)
    modifies budget
    ensures budget.State() == After(budget.cfg, c, now, attempt + 1)
    ensures granted == (attempt == 0 || GrantedAt(budget.cfg, c, now, attempt))
  {
    if attempt > 0 {
      granted := budget.TryConsume(now(attempt));
    } else {
      budget.RecordRequest(now(0));
      granted := true;
    }
  }

  /** At most one forward plus the allowed retries; every forward but the last failed in a retryable way
      and was followed by a granted consume; the loop stops early only for a reason. */
  method Handle(budget: Budget?, canRetry: bool, maxRetries: nat, upstream: nat -> Outcome, now: nat -> nat)
    returns (result: Outcome, forwards: nat, refused: bool)
    modifies if budget == null then {} else {budget}
    ensures 1 <= forwards <= maxRetries + 1 && result == upstream(forwards - 1)
    ensures forwards > 1 ==> canRetry
    ensures forall i :: 0 <= i < forwards - 1 ==>
              upstream(i) != OtherError && (upstream(i).Response? ==> upstream(i).status >= 500)
    ensures forwards == maxRetries + 1 || !canRetry || refused
            || result == OtherError || (result.Response? && result.status < 500)
    ensures refused ==> budget != null && !GrantedAt(budget.cfg, old(budget.State()), now, forwards)
    ensures budget != null ==>
              && AllGranted(budget.cfg, old(budget.State()), now, forwards)
              && budget.State()
                 == After(budget.cfg, old(budget.State()), now, if refused then forwards + 1 else forwards)
  {
    result, forwards, refused := ConnectFailed, 0, false;
    ghost var c := if budget == null then Counters(0, 0, 0) else budget.State();
    var attempt := 0;
    while attempt <= maxRetries
      invariant 0 <= attempt == forwards <= maxRetries + 1 && !refused
      invariant attempt > 0 ==> canRetry && attempt <= maxRetries && result == upstream(attempt - 1)
      invariant forall i :: 0 <= i < attempt ==> Retryable(upstream(i))
      invariant budget != null ==> AllGranted(budget.cfg, c, now, attempt)
      invariant budget != null ==> budget.State() == After(budget.cfg, c, now, attempt)
    {
      if attempt > 0 && !canRetry { break; }
      if budget != null {
        var granted := Charge(budget, attempt, now, c);
        if !granted {
          refused := true;
          break;
        }
      }
      result := upstream(attempt);
      forwards := forwards + 1;
      if Retryable(result) && canRetry && attempt < maxRetries {
        attempt := attempt + 1;
      } else {
        break;
      }
    }
  }

  // ---------- one window ----------

  ghost predicate InWindow(cfg: Config, c: Counters, now: nat -> nat, n: nat) {
    forall i :: 0 <= i < n ==> !Expired(cfg, c, now(i))
  }

  /** The budget, as request `before` found it, grants the retry after `i` others. */
  predicate Affords(cfg: Config, before: Counters, i: nat) { Grants(cfg, before.total + 1 + i, before.retries + i) }

  /** One request inside a window: `forwards` more in total, all but the first of them granted retries. */
  ghost predicate Served(cfg: Config, before: Counters, after: Counters, forwards: nat) {
    && forwards >= 1
    && after == Counters(before.total + forwards, before.retries + forwards - 1, before.start)
    && forall i :: 0 <= i < forwards - 1 ==> Affords(cfg, before, i)
  }

  lemma {:induction false} CountedOnce(cfg: Config, c: Counters, now: nat -> nat, n: nat)
    requires n >= 1 && InWindow(cfg, c, now, n) && AllGranted(cfg, c, now, n)
    ensures Served(cfg, c, After(cfg, c, now, n), n)
  {
    if n > 1 {
      CountedOnce(cfg, c, now, n - 1);
      assert GrantedAt(cfg, c, now, n - 1);
      assert Affords(cfg, c, n - 2);
    }
  }

  /** What `Handle` does to the counters is one served request, refused consume included. */
  lemma HandledIsServed(cfg: Config, c: Counters, now: nat -> nat, forwards: nat, refused: bool)
    requires forwards >= 1 && InWindow(cfg, c, now, forwards + 1) && AllGranted(cfg, c, now, forwards)
    requires refused ==> !GrantedAt(cfg, c, now, forwards)
    ensures Served(cfg, c, After(cfg, c, now, if refused then forwards + 1 else forwards), forwards)
  {
    CountedOnce(cfg, c, now, forwards);
  }

  /** Sequential requests in one window, from its opening. */
  ghost predicate IsWindow(cfg: Config, states: seq<Counters>, forwards: seq<nat>) {
    && |states| == |forwards| + 1 && states[0].total == 0 && states[0].retries == 0
    && forall k {:trigger forwards[k]} :: 0 <= k < |forwards| ==> Served(cfg, states[k], states[k + 1], forwards[k])
  }

  function Sum(s: seq<nat>): nat { if s == [] then 0 else Sum(s[..|s| - 1]) + s[|s| - 1] }

  /** What the ratio allows once `requests` requests have come: `r / (1 - r)` retries for each. */
  function Share(ratio: real, requests: nat): real
    requires ratio < 1.0
  {
    ratio * requests as real / (1.0 - ratio)
  }

  predicate Affordable(cfg: Config, requests: nat, retries: nat)
    requires cfg.ratio < 1.0
  {
    retries <= cfg.minRequests || retries as real < Share(cfg.ratio, requests) + 1.0
  }

  lemma DivideShare(ratio: real, q: real, x: real)
    requires 0.0 <= ratio < 1.0 && x < ratio * (q + x)
    ensures x < ratio * q / (1.0 - ratio)
  {
    var d := 1.0 - ratio;
    assert x * d < ratio * q;
    var y := ratio * q / d;
    assert y * d == ratio * q;
  }

  lemma ShareGrows(ratio: real, n: nat)
    requires 0.0 <= ratio < 1.0
    ensures Share(ratio, n) <= Share(ratio, n + 1)
  {
    var d := 1.0 - ratio;
    assert ratio * (n + 1) as real == ratio * n as real + ratio;
    Divide(ratio * n as real, ratio * (n + 1) as real, d);
  }

  lemma Divide(a: real, b: real, d: real)
    requires a <= b && d > 0.0
    ensures a / d <= b / d
  {
  }

  /** One more granted retry stays affordable. */
  lemma GrantIsAffordable(cfg: Config, requests: nat, retries: nat)
    requires 0.0 <= cfg.ratio < 1.0 && requests >= 1 && Grants(cfg, requests + retries, retries)
    ensures Affordable(cfg, requests, retries + 1)
  {
    if requests + retries >= cfg.minRequests {
      WarmGrant(cfg, requests + retries, retries);
      assert (requests + retries) as real == requests as real + retries as real;
      DivideShare(cfg.ratio, requests as real, retries as real);
      assert (retries + 1) as real == retries as real + 1.0;
      assert retries as real < Share(cfg.ratio, requests);
    }
  }

  lemma {:induction false} WindowLedger(cfg: Config, states: seq<Counters>, forwards: seq<nat>)
    requires 0.0 <= cfg.ratio < 1.0 && IsWindow(cfg, states, forwards)
    ensures states[|forwards|].total == Sum(forwards) == |forwards| + states[|forwards|].retries
    ensures Affordable(cfg, |forwards|, states[|forwards|].retries)
    decreases |forwards|
  {
    var n := |forwards|;
    if n > 0 {
      WindowLedger(cfg, states[..n], forwards[..n - 1]);
      ShareGrows(cfg.ratio, n - 1);
      var f := forwards[n - 1];
      assert Served(cfg, states[n - 1], states[n], f);
      if f > 1 {
        assert Affords(cfg, states[n - 1], f - 2);
        GrantIsAffordable(cfg, n, states[n - 1].retries + f - 2);
      }
    }
  }

  /** Load amplification: in one window the forwards are exactly what the budget counted, and they exceed
      the requests by at most the cold allowance or by `r / (1 - r)` per request and one. */
  lemma LoadAmplification(cfg: Config, states: seq<Counters>, forwards: seq<nat>)
    requires 0.0 <= cfg.ratio < 1.0 && IsWindow(cfg, states, forwards)
    ensures Sum(forwards) == states[|forwards|].total
    ensures Sum(forwards) <= |forwards| + cfg.minRequests
            || Sum(forwards) as real < |forwards| as real + Share(cfg.ratio, |forwards|) + 1.0
  {
    WindowLedger(cfg, states, forwards);
  }
}
