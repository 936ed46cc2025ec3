/**
 A one-entry cache filled by racing threads. A thread looks the cache up under the lock; on a
 miss it builds outside the lock, takes the lock again, writes unless an entry with its own
 signature is there by now, and leaves with whatever the cache then holds.

 Lists, signatures and built values are abstract.
 */
module CacheRace {
  import opened Common

  datatype Entry<K, R> = Entry(sig: K, built: R)

  datatype Thread<L, R> =
    Idle | Looking(list: L) | Building(list: L) | Writing(list: L, made: R) | Done(list: L, got: R)

  datatype System<K, L, R> = System(cache: Option<Entry<K, R>>, threads: seq<Thread<L, R>>)

  /** Either thread `t` begins a call with a list, or it takes its next atomic step. */
  datatype Action<L> = Call(t: nat, list: L) | Advance(t: nat)

  datatype Caching<!K, !L, !R> = Caching(sig: L -> K, build: L -> R)

  predicate Hits<K(==), R>(cache: Option<Entry<K, R>>, sig: K) { cache.Some? && cache.value.sig == sig }

  function Step<K(==), L, R>(c: Caching<K, L, R>, s: System<K, L, R>, a: Action<L>): System<K, L, R> {
    if a.t >= |s.threads| then s
    else
      var th := s.threads[a.t];
      match a
      case Call(t, list) => if th.Idle? || th.Done? then s.(threads := s.threads[t := Looking(list)]) else s
      case Advance(t) =>
        match th
        case Looking(list) =>
          if Hits(s.cache, c.sig(list)) then s.(threads := s.threads[t := Done(list, s.cache.value.built)])
          else s.(threads := s.threads[t := Building(list)])
        case Building(list) => s.(threads := s.threads[t := Writing(list, c.build(list))])
        case Writing(list, made) =>
          var cache := if Hits(s.cache, c.sig(list)) then s.cache else Some(Entry(c.sig(list), made));
          System(cache, s.threads[t := Done(list, cache.value.built)])
        case _ => s
  }

  function Run<K(==), L, R>(c: Caching<K, L, R>, s: System<K, L, R>, actions: seq<Action<L>>): System<K, L, R>
    decreases |actions|
  {
    if actions == [] then s else Run(c, Step(c, s, actions[0]), actions[1..])
  }

  /** Among the lists in play, the signature decides what gets built. */
  ghost predicate Decides<K, L(!new), R>(c: Caching<K, L, R>, lists: iset<L>) {
    forall a, b :: a in lists && b in lists && c.sig(a) == c.sig(b) ==> c.build(a) == c.build(b)
  }

  ghost predicate CacheOk<K, L(!new), R>(c: Caching<K, L, R>, lists: iset<L>, cache: Option<Entry<K, R>>) {
    cache.Some? ==> exists l :: l in lists && c.sig(l) == cache.value.sig && c.build(l) == cache.value.built
  }

  ghost predicate ThreadOk<K, L, R>(c: Caching<K, L, R>, lists: iset<L>, th: Thread<L, R>) {
    match th
    case Idle => true
    case Looking(list) => list in lists
    case Building(list) => list in lists
    case Writing(list, made) => list in lists && made == c.build(list)
    case Done(list, got) => list in lists && got == c.build(list)
  }

  ghost predicate Inv<K, L(!new), R>(c: Caching<K, L, R>, lists: iset<L>, s: System<K, L, R>) {
    CacheOk(c, lists, s.cache) && forall th :: th in s.threads ==> ThreadOk(c, lists, th)
  }

  lemma HitIsRight<K, L(!new), R>(c: Caching<K, L, R>, lists: iset<L>, cache: Option<Entry<K, R>>, list: L)
    requires Decides(c, lists) && CacheOk(c, lists, cache) && list in lists && Hits(cache, c.sig(list))
    ensures cache.value.built == c.build(list)
  {
  }

  lemma StepKeepsInv<K, L(!new), R>(c: Caching<K, L, R>, lists: iset<L>, s: System<K, L, R>, a: Action<L>)
    requires Decides(c, lists) && Inv(c, lists, s) && (a.Call? ==> a.list in lists)
    ensures Inv(c, lists, Step(c, s, a))
  {
    if a.t < |s.threads| {
      var th := s.threads[a.t];
      assert ThreadOk(c, lists, th);
      if !th.Idle? && Hits(s.cache, c.sig(th.list)) { HitIsRight(c, lists, s.cache, th.list); }
      var s' := Step(c, s, a);
      assert CacheOk(c, lists, s'.cache);
      assert ThreadOk(c, lists, s'.threads[a.t]);
      forall x | x in s'.threads ensures ThreadOk(c, lists, x) {
        var i :| 0 <= i < |s'.threads| && s'.threads[i] == x;
        if i != a.t { assert x == s.threads[i]; }
      }
    }
  }

  /** Whatever the interleaving, every finished call holds exactly what building its own list gives. */
  lemma {:induction false} EveryCallIsFresh<K, L(!new), R>(c: Caching<K, L, R>, lists: iset<L>, s: System<K, L, R>,
                                                     actions: seq<Action<L>>)
    requires Decides(c, lists) && Inv(c, lists, s)
    requires forall a :: a in actions && a.Call? ==> a.list in lists
    ensures Inv(c, lists, Run(c, s, actions))
    ensures forall th :: th in Run(c, s, actions).threads && th.Done? ==> th.got == c.build(th.list)
    decreases |actions|
  {
    if actions != [] {
      assert actions[0] in actions;
      StepKeepsInv(c, lists, s, actions[0]);
      EveryCallIsFresh(c, lists, Step(c, s, actions[0]), actions[1..]);
    } else {
      assert forall th :: th in s.threads ==> ThreadOk(c, lists, th);
    }
  }

  // ---------- exactly when ----------

  /** No thread has asked anything yet and the cache is empty. */
  ghost predicate Quiet<K, L, R>(s: System<K, L, R>) { s.cache.None? && forall th :: th in s.threads ==> th.Idle? }

  ghost predicate AsksFor<L(!new)>(actions: seq<Action<L>>, lists: iset<L>) {
    forall a :: a in actions && a.Call? ==> a.list in lists
  }

  ghost predicate Fresh<K, L, R>(c: Caching<K, L, R>, s: System<K, L, R>) {
    forall th :: th in s.threads && th.Done? ==> th.got == c.build(th.list)
  }

  /** In every run from an empty cache every finished call is fresh. */
  ghost predicate AlwaysFresh<K(!new), L(!new), R(!new)>(c: Caching<K, L, R>, lists: iset<L>) {
    forall s, actions :: Quiet(s) && AsksFor(actions, lists) ==> Fresh(c, Run(c, s, actions))
  }

  /** One thread that asks for `a` and then for `b`, which hits what it cached for `a`. */
  function OneThenOther<L>(a: L, b: L): seq<Action<L>> {
    [Call(0, a), Advance(0), Advance(0), Advance(0), Call(0, b), Advance(0)]
  }

  lemma OtherHits<K, L, R>(c: Caching<K, L, R>, s: System<K, L, R>, a: L, b: L)
    requires s == System(None, [Idle]) && c.sig(a) == c.sig(b)
    ensures Run(c, s, OneThenOther(a, b)).threads == [Done(b, c.build(a))]
  {
    var acts := OneThenOther(a, b);
    var s1 := System(None, [Looking(a)]);
    var s2 := System(None, [Building(a)]);
    var s3 := System(None, [Writing(a, c.build(a))]);
    var s4 := System(Some(Entry(c.sig(a), c.build(a))), [Done(a, c.build(a))]);
    var s5 := s4.(threads := [Looking(b)]);
    var s6 := s4.(threads := [Done(b, c.build(a))]);
    assert Step(c, s, acts[0]) == s1 && Step(c, s1, acts[1]) == s2 && Step(c, s2, acts[2]) == s3;
    assert Step(c, s3, acts[3]) == s4 && Step(c, s4, acts[4]) == s5 && Step(c, s5, acts[5]) == s6;
    RunSix(c, s, acts, s1, s2, s3, s4, s5, s6);
  }

  lemma RunStep<K, L, R>(c: Caching<K, L, R>, s: System<K, L, R>, actions: seq<Action<L>>, k: nat, s': System<K, L, R>)
    requires k < |actions| && s' == Step(c, s, actions[k])
    ensures Run(c, s, actions[k..]) == Run(c, s', actions[k + 1..])
  {
    assert actions[k..][1..] == actions[k + 1..];
  }

  lemma RunSix<K, L, R>(
    c: Caching<K, L, R>, s: System<K, L, R>, acts: seq<Action<L>>, s1: System<K, L, R>, s2: System<K, L, R>,
    s3: System<K, L, R>, s4: System<K, L, R>, s5: System<K, L, R>, s6: System<K, L, R>)
    requires |acts| == 6
    requires Step(c, s, acts[0]) == s1 && Step(c, s1, acts[1]) == s2 && Step(c, s2, acts[2]) == s3
    requires Step(c, s3, acts[3]) == s4 && Step(c, s4, acts[4]) == s5 && Step(c, s5, acts[5]) == s6
    ensures Run(c, s, acts) == s6
  {
    assert acts == acts[0..];
    RunStep(c, s, acts, 0, s1);
    RunStep(c, s1, acts, 1, s2);
    RunStep(c, s2, acts, 2, s3);
    RunStep(c, s3, acts, 3, s4);
    RunStep(c, s4, acts, 4, s5);
    RunStep(c, s5, acts, 5, s6);
  }

  lemma UndecidedIsStale<K(!new), L(!new), R(!new)>(c: Caching<K, L, R>, lists: iset<L>, a: L, b: L)
    requires a in lists && b in lists && c.sig(a) == c.sig(b) && c.build(a) != c.build(b)
    ensures !AlwaysFresh(c, lists)
  {
    var s: System<K, L, R> := System(None, [Idle]);
    OtherHits(c, s, a, b);
    var actions := OneThenOther(a, b);
    assert Quiet(s) && AsksFor(actions, lists);
    assert Run(c, s, actions).threads[0] in Run(c, s, actions).threads;
    assert !Fresh(c, Run(c, s, actions));
  }

  /** Every finished call of every run is fresh if and only if the signature decides what gets built. */
  lemma AlwaysFreshIff<K(!new), L(!new), R(!new)>(c: Caching<K, L, R>, lists: iset<L>)
    ensures AlwaysFresh(c, lists) <==> Decides(c, lists)
  {
    if Decides(c, lists) {
      forall s, actions | Quiet(s) && AsksFor(actions, lists) ensures Fresh(c, Run(c, s, actions)) {
        EveryCallIsFresh(c, lists, s, actions);
      }
    } else {
      var a, b :| a in lists && b in lists && c.sig(a) == c.sig(b) && c.build(a) != c.build(b);
      UndecidedIsStale(c, lists, a, b);
    }
  }
}
