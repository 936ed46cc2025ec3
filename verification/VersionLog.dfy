/**
 The configuration version log and the business tables under any interleaving of publishers
 and rollbacks.

 A publisher reads the latest version number and later inserts a row one above it. A rollback
 reads its target's snapshot, applies it to the tables in a transaction of its own, and only
 then reads the target row, reads the latest version and inserts. The only thing that orders
 two inserts is the unique index on the version column. Clients may arrive at any time and be
 delayed anywhere, and the tables may be edited at any time.
 */
module VersionLog {
  import opened Common
  import opened ConfigTables

  datatype Content = Content(snapshot: Snapshot, hash: string)

  datatype Kind = Published | RolledBack(target: nat)

  datatype Row = Row(base: nat, kind: Kind, content: Content)

  datatype Op = Publish(base: nat, snapshot: Snapshot) | Rollback(target: nat)

  datatype Outcome = Inserted(version: nat) | Conflict | NotFound | BadSnapshot | Duplicate

  datatype Client =
    | Start(op: Op)
    | SnapshotRead(target: nat, content: Content)
    | Committed(target: nat)
    | TargetRead(target: nat, content: Content)
    | LatestRead(latest: nat, kind: Kind, content: Content)
    | Done(op: Op, outcome: Outcome)

  /** What applying a snapshot did to the tables. */
  datatype Commit = Commit(before: Db, snapshot: Snapshot, after: Db)

  datatype State = State(log: map<nat, Row>, clients: map<nat, (Op, Client)>, tables: Db, commits: map<nat, Commit>)

  /** `Apply` is the transaction of a rollback, with the tables it leaves; it can only leave what
      `ConfigRollback.ApplySnapshot` promises. */
  datatype Action =
    Arrive(client: nat, op: Op) | Advance(client: nat) | Apply(client: nat, after: Option<Db>) | Edit(tables: Db)

  /** The content hash. */
  datatype Env = Env(hash: Snapshot -> string)

  const Init: State := State(map[], map[], Db(map[], map[], map[], map[]), map[])

  /** The greatest version in the log, 0 when it is empty. */
  ghost function Latest(versions: set<nat>): (m: nat)
    ensures versions != {} ==> m in versions
    ensures versions == {} ==> m == 0
    ensures forall v :: v in versions ==> v <= m
  {
    if versions == {} then 0
    else
      var v :| v in versions;
      var m := Latest(versions - {v});
      assert forall w :: w in versions ==> w == v || w in versions - {v};
      if m < v then v else m
  }

  ghost function Next(s: State, env: Env, a: Action): State {
    match a
    case Arrive(c, op) => if c in s.clients then s else Move(s, c, op, Start(op))
    case Advance(c) => if c in s.clients then StepClient(s, env, c, s.clients[c].0, s.clients[c].1) else s
    case Apply(c, after) => if CanApply(s, c, after) then Applied(s, c, s.clients[c].1, after) else s
    case Edit(tables) => s.(tables := tables)
  }

  ghost predicate CanApply(s: State, c: nat, after: Option<Db>) {
    && c in s.clients && s.clients[c].0.Rollback? && s.clients[c].1.SnapshotRead?
    && MayApply(s.tables, s.clients[c].1.content.snapshot, after)
  }

  ghost function Applied(s: State, c: nat, at: Client, after: Option<Db>): State
    requires c in s.clients && at.SnapshotRead?
  {
    var op := s.clients[c].0;
    match after
    case None => Finish(s, c, op, BadSnapshot)
    case Some(tables) =>
      var commits := s.commits[c := Commit(s.tables, at.content.snapshot, tables)];
      Move(s.(tables := tables, commits := commits), c, op, Committed(at.target))
  }

  ghost function StepClient(s: State, env: Env, c: nat, op: Op, at: Client): State {
    match at
    case Start(Publish(base, snapshot)) =>
      if base != Latest(s.log.Keys) then Finish(s, c, op, Conflict)
      else Move(s, c, op, LatestRead(Latest(s.log.Keys), Published, Content(snapshot, env.hash(snapshot))))
    case Start(Rollback(target)) =>
      if target in s.log then Move(s, c, op, SnapshotRead(target, s.log[target].content))
      else Finish(s, c, op, NotFound)
    case SnapshotRead(_, _) => s
    case Committed(target) =>
      if target in s.log then Move(s, c, op, TargetRead(target, s.log[target].content)) else Finish(s, c, op, NotFound)
    case TargetRead(target, content) => Move(s, c, op, LatestRead(Latest(s.log.Keys), RolledBack(target), content))
    case LatestRead(latest, kind, content) =>
      // the unique index rejects a version that is already present
      if latest + 1 in s.log then Finish(s, c, op, Duplicate)
      else Finish(s.(log := s.log[latest + 1 := Row(latest, kind, content)]), c, op, Inserted(latest + 1))
    case Done(_, _) => s
  }

  ghost function Move(s: State, c: nat, op: Op, at: Client): State { s.(clients := s.clients[c := (op, at)]) }

  ghost function Finish(s: State, c: nat, op: Op, o: Outcome): State { Move(s, c, op, Done(op, o)) }

  ghost function Run(env: Env, actions: seq<Action>): State {
    if actions == [] then Init else Next(Run(env, actions[..|actions| - 1]), env, actions[|actions| - 1])
  }

  // ---------- the invariant ----------

  /** Versions are 1..n, each based on its predecessor. */
  ghost predicate Contiguous(log: map<nat, Row>) {
    && (forall v :: v in log <==> 1 <= v <= |log|)
    && (forall v :: v in log ==> log[v].base == v - 1)
  }

  /** Every hash is its snapshot's, and a rollback row repeats the content of an earlier version. */
  ghost predicate Faithful(log: map<nat, Row>, hash: Snapshot -> string) {
    forall v {:trigger RowFaithful(log, hash, v)} :: v in log ==> RowFaithful(log, hash, v)
  }

  ghost predicate RowFaithful(log: map<nat, Row>, hash: Snapshot -> string, v: nat)
    requires v in log
  {
    && log[v].content.hash == hash(log[v].content.snapshot)
    && (log[v].kind.RolledBack? ==>
          log[v].kind.target in log && log[v].kind.target < v && log[v].content == log[log[v].kind.target].content)
  }

  ghost predicate ClientOk(s: State, env: Env, c: nat, op: Op, at: Client) {
    match at
    case Start(o) => o == op && c !in s.commits
    case SnapshotRead(target, content) =>
      op == Rollback(target) && target in s.log && content == s.log[target].content && c !in s.commits
    case Committed(target) => op == Rollback(target) && target in s.log && CommitOk(s, env, c, op)
    case TargetRead(target, content) =>
      op == Rollback(target) && target in s.log && content == s.log[target].content && CommitOk(s, env, c, op)
    case LatestRead(latest, kind, content) =>
      && latest <= |s.log| && content.hash == env.hash(content.snapshot) && PendingOk(s, op, latest, kind, content)
      && CommitOk(s, env, c, op)
    case Done(o, outcome) =>
      && o == op && (outcome.Inserted? ==> outcome.version in s.log && RowIsOf(s, op, outcome.version))
      && (if outcome.Inserted? || outcome.Duplicate? then CommitOk(s, env, c, op) else c !in s.commits)
  }

  /** A rollback that got this far has put its target's snapshot into the tables; a publisher never touches
      them. */
  ghost predicate CommitOk(s: State, env: Env, c: nat, op: Op) {
    match op
    case Publish(_, _) => c !in s.commits
    case Rollback(target) =>
      && c in s.commits && target in s.log && s.commits[c].snapshot == s.log[target].content.snapshot
      && MayApply(s.commits[c].before, s.commits[c].snapshot, Some(s.commits[c].after))
  }

  ghost predicate PendingOk(s: State, op: Op, latest: nat, kind: Kind, content: Content) {
    match op
    case Publish(base, snapshot) => base == latest && kind == Published && content.snapshot == snapshot
    case Rollback(target) =>
      target in s.log && target <= latest && kind == RolledBack(target) && content == s.log[target].content
  }

  /** Row `v` is what operation `op` asked for. */
  ghost predicate RowIsOf(s: State, op: Op, v: nat)
    requires v in s.log
  {
    match op
    case Publish(base, snapshot) => v == base + 1 && s.log[v].kind == Published && s.log[v].content.snapshot == snapshot
    case Rollback(target) => s.log[v].kind == RolledBack(target)
  }

  ghost predicate OwnRows(s: State) {
    forall c, d :: (c in s.clients && d in s.clients && SameRow(s.clients[c].1, s.clients[d].1)) ==> c == d
  }

  ghost predicate Wrote(at: Client) { at.Done? && at.outcome.Inserted? }

  ghost predicate SameRow(x: Client, y: Client) {
    Wrote(x) && Wrote(y) && x.outcome.version == y.outcome.version
  }

  ghost predicate ClientsOk(s: State, env: Env) {
    && (forall c :: c in s.clients ==> ClientOk(s, env, c, s.clients[c].0, s.clients[c].1))
    && (forall c :: c in s.commits ==> c in s.clients)
  }

  ghost predicate Inv(s: State, env: Env) {
    Contiguous(s.log) && Faithful(s.log, env.hash) && ClientsOk(s, env) && OwnRows(s)
  }

  lemma LatestIsCount(log: map<nat, Row>)
    requires Contiguous(log)
    ensures Latest(log.Keys) == |log|
  {
    if |log| > 0 { assert |log| in log; }
  }

  lemma AppendContiguous(log: map<nat, Row>, v: nat, row: Row)
    requires Contiguous(log) && row.base == |log| && v == |log| + 1
    ensures Contiguous(log[v := row])
  {
    var log' := log[v := row];
    assert v !in log;
    assert |log'| == |log| + 1;
    forall w ensures w in log' <==> 1 <= w <= |log'| {
      assert w in log' <==> w in log || w == v;
    }
  }

  lemma AppendFaithful(log: map<nat, Row>, hash: Snapshot -> string, v: nat, row: Row)
    requires Faithful(log, hash) && v !in log
    requires row.content.hash == hash(row.content.snapshot)
    requires row.kind.RolledBack? ==>
               row.kind.target in log && row.kind.target < v && row.content == log[row.kind.target].content
    ensures Faithful(log[v := row], hash)
  {
    var log' := log[v := row];
    forall w | w in log' ensures RowFaithful(log', hash, w) {
      if w != v { assert RowFaithful(log, hash, w); }
    }
  }

  lemma MovePreserves(s: State, env: Env, c: nat, op: Op, at: Client)
    requires Inv(s, env) && ClientOk(s, env, c, op, at)
    requires !Wrote(at)
    ensures Inv(Move(s, c, op, at), env)
  {
    var s' := Move(s, c, op, at);
    forall d | d in s'.clients ensures ClientOk(s', env, d, s'.clients[d].0, s'.clients[d].1) {
      if d != c { assert ClientOk(s, env, d, s.clients[d].0, s.clients[d].1); }
    }
  }

  lemma ApplyPreserves(s: State, env: Env, c: nat, after: Option<Db>)
    requires Inv(s, env) && CanApply(s, c, after)
    ensures Inv(Applied(s, c, s.clients[c].1, after), env)
  {
    var s' := Applied(s, c, s.clients[c].1, after);
    assert ClientOk(s, env, c, s.clients[c].0, s.clients[c].1);
    forall d | d in s'.clients ensures ClientOk(s', env, d, s'.clients[d].0, s'.clients[d].1) {
      if d != c { assert ClientOk(s, env, d, s.clients[d].0, s.clients[d].1); }
    }
  }

  lemma OthersSeeInsert(s: State, env: Env, s': State, d: nat, v: nat, row: Row)
    requires d in s.clients && ClientOk(s, env, d, s.clients[d].0, s.clients[d].1)
    requires s'.log == s.log[v := row] && v !in s.log && s'.commits == s.commits
    ensures ClientOk(s', env, d, s.clients[d].0, s.clients[d].1)
  {
    assert |s'.log| == |s.log| + 1;
  }

  lemma InsertPreserves(s: State, env: Env, c: nat, op: Op, at: Client)
    requires Inv(s, env) && c in s.clients && s.clients[c] == (op, at) && at.LatestRead? && at.latest + 1 !in s.log
    ensures Inv(StepClient(s, env, c, op, at), env)
  {
    var s', v, row := StepClient(s, env, c, op, at), at.latest + 1, Row(at.latest, at.kind, at.content);
    assert ClientOk(s, env, c, op, at);
    assert at.latest == |s.log|;
    AppendContiguous(s.log, v, row);
    AppendFaithful(s.log, env.hash, v, row);
    forall d | d in s'.clients ensures ClientOk(s', env, d, s'.clients[d].0, s'.clients[d].1) {
      if d != c { OthersSeeInsert(s, env, s', d, v, row); }
    }
    NewRowIsOwn(s, env, c, op, v, s');
  }

  lemma NewRowIsOwn(s: State, env: Env, c: nat, op: Op, v: nat, s': State)
    requires ClientsOk(s, env) && OwnRows(s) && v !in s.log
    requires s'.clients == s.clients[c := (op, Done(op, Inserted(v)))]
    ensures OwnRows(s')
  {
    forall d | d in s.clients && Wrote(s.clients[d].1) ensures s.clients[d].1.outcome.version in s.log {
      assert ClientOk(s, env, d, s.clients[d].0, s.clients[d].1);
    }
  }

  lemma AdvancePreserves(s: State, env: Env, c: nat, op: Op, at: Client)
    requires Inv(s, env) && c in s.clients && s.clients[c] == (op, at)
    ensures Inv(StepClient(s, env, c, op, at), env)
  {
    LatestIsCount(s.log);
    assert ClientOk(s, env, c, op, at);
    if at.LatestRead? && at.latest + 1 !in s.log {
      InsertPreserves(s, env, c, op, at);
    } else if !at.Done? && !at.SnapshotRead? {
      if at.TargetRead? { assert RowFaithful(s.log, env.hash, at.target); }
      var at' := StepClient(s, env, c, op, at).clients[c].1;
      assert ClientOk(s, env, c, op, at');
      MovePreserves(s, env, c, op, at');
    }
  }

  lemma NextPreserves(s: State, env: Env, a: Action)
    requires Inv(s, env)
    ensures Inv(Next(s, env, a), env)
  {
    match a
    case Arrive(c, op) => if c !in s.clients { MovePreserves(s, env, c, op, Start(op)); }
    case Advance(c) => if c in s.clients { AdvancePreserves(s, env, c, s.clients[c].0, s.clients[c].1); }
    case Apply(c, after) => if CanApply(s, c, after) { ApplyPreserves(s, env, c, after); }
    case Edit(tables) =>
      var s' := s.(tables := tables);
      forall d | d in s'.clients ensures ClientOk(s', env, d, s'.clients[d].0, s'.clients[d].1) {
        assert ClientOk(s, env, d, s.clients[d].0, s.clients[d].1);
      }
  }

  lemma {:induction false} RunKeepsInv(env: Env, actions: seq<Action>)
    ensures Inv(Run(env, actions), env)
  {
    if actions != [] {
      RunKeepsInv(env, actions[..|actions| - 1]);
      NextPreserves(Run(env, actions[..|actions| - 1]), env, actions[|actions| - 1]);
    }
  }

  // ---------- what follows for every run ----------

  /** The log is contiguous, and of two publishes from one base at most one succeeds. */
  lemma AtMostOnePublishPerBase(env: Env, actions: seq<Action>, c: nat, d: nat)
    requires var s := Run(env, actions);
             && c in s.clients && d in s.clients && Wrote(s.clients[c].1) && Wrote(s.clients[d].1)
             && s.clients[c].0.Publish? && s.clients[d].0.Publish? && s.clients[c].0.base == s.clients[d].0.base
    ensures c == d
    ensures Contiguous(Run(env, actions).log)
  {
    RunKeepsInv(env, actions);
    var s := Run(env, actions);
    assert ClientOk(s, env, c, s.clients[c].0, s.clients[c].1) && ClientOk(s, env, d, s.clients[d].0, s.clients[d].1);
  }

  lemma RunAppended(env: Env, actions: seq<Action>, a: Action)
    ensures Run(env, actions + [a]) == Next(Run(env, actions), env, a)
  {
    assert (actions + [a])[..|actions|] == actions;
  }

  ghost predicate Extends(more: map<nat, Row>, log: map<nat, Row>) {
    forall v :: v in log ==> v in more && more[v] == log[v]
  }

  lemma StepGrows(s: State, env: Env, a: Action)
    ensures Extends(Next(s, env, a).log, s.log)
  {
  }

  /** No action ever changes or removes a row. */
  lemma {:induction false} LogOnlyGrows(env: Env, actions: seq<Action>, more: seq<Action>)
    ensures Extends(Run(env, actions + more).log, Run(env, actions).log)
  {
    if more == [] {
      assert actions + more == actions;
    } else {
      var shorter := more[..|more| - 1];
      LogOnlyGrows(env, actions, shorter);
      assert actions + more == actions + shorter + [more[|more| - 1]];
      RunAppended(env, actions + shorter, more[|more| - 1]);
      StepGrows(Run(env, actions + shorter), env, more[|more| - 1]);
    }
  }

  /** Every version's content was published at some version no later: rollbacks invent nothing. */
  lemma {:induction false} ContentWasPublished(log: map<nat, Row>, hash: Snapshot -> string, v: nat)
    requires Faithful(log, hash) && v in log
    ensures exists p :: p in log && p <= v && log[p].kind == Published && log[p].content == log[v].content
    decreases v
  {
    assert RowFaithful(log, hash, v);
    if log[v].kind.RolledBack? {
      ContentWasPublished(log, hash, log[v].kind.target);
    }
  }

  /** An insert succeeds exactly when nothing was inserted since the client read the latest version. */
  lemma InsertSucceedsIff(env: Env, actions: seq<Action>, c: nat)
    requires c in Run(env, actions).clients && Run(env, actions).clients[c].1.LatestRead?
    ensures var s := Run(env, actions);
            Wrote(Next(s, env, Advance(c)).clients[c].1) <==> s.clients[c].1.latest == |s.log|
  {
    RunKeepsInv(env, actions);
    var s := Run(env, actions);
    assert ClientOk(s, env, c, s.clients[c].0, s.clients[c].1);
  }

  // ---------- a rollback is two transactions ----------

  /** At its end a rollback either found nothing to restore and left the tables alone, or it restored the
      tables, whether or not its row went in. */
  lemma RollbackOutcome(env: Env, actions: seq<Action>, c: nat)
    requires var s := Run(env, actions);
             c in s.clients && s.clients[c].0.Rollback? && s.clients[c].1.Done?
    ensures var s, outcome := Run(env, actions), Run(env, actions).clients[c].1.outcome;
            && (c in s.commits <==> outcome.Inserted? || outcome.Duplicate?)
            && (c in s.commits ==> RestoredBy(s, c))
  {
    RunKeepsInv(env, actions);
    var s := Run(env, actions);
    assert ClientOk(s, env, c, s.clients[c].0, s.clients[c].1);
  }

  /** The commit of rollback `c` put its target's snapshot into the tables. */
  ghost predicate RestoredBy(s: State, c: nat)
    requires c in s.commits && c in s.clients && s.clients[c].0.Rollback?
  {
    var k, target := s.commits[c], s.clients[c].0.target;
    && target in s.log && k.snapshot == s.log[target].content.snapshot
    && (Consistent(k.before) && Applicable(k.snapshot) ==>
          Restored(k.before, k.snapshot, k.after) && Consistent(k.after))
  }

  predicate Moves(a: Action, c: nat) { !a.Edit? && a.client == c }

  ghost predicate Untouched(middle: seq<Action>, c: nat) { forall a :: a in middle ==> !Moves(a, c) }

  lemma StepStaysPut(s: State, env: Env, a: Action, c: nat)
    requires c in s.clients && !Moves(a, c)
    ensures c in Next(s, env, a).clients && Next(s, env, a).clients[c] == s.clients[c]
  {
  }

  lemma {:induction false} StaysPut(env: Env, actions: seq<Action>, middle: seq<Action>, c: nat)
    requires c in Run(env, actions).clients && Untouched(middle, c)
    ensures c in Run(env, actions + middle).clients
    ensures Run(env, actions + middle).clients[c] == Run(env, actions).clients[c]
  {
    if middle == [] {
      assert actions + middle == actions;
    } else {
      var shorter, last := middle[..|middle| - 1], middle[|middle| - 1];
      assert last in middle;
      StaysPut(env, actions, shorter, c);
      assert actions + middle == actions + shorter + [last];
      RunAppended(env, actions + shorter, last);
      StepStaysPut(Run(env, actions + shorter), env, last, c);
    }
  }

  /** A rollback about to read the latest version, whatever the others do before it inserts: it has restored
      the tables already, and it ends without a row exactly when somebody else inserted one in between. */
  lemma HalfDoneIff(env: Env, first: seq<Action>, middle: seq<Action>, c: nat)
    requires c in Run(env, first).clients && Run(env, first).clients[c].1.TargetRead? && Untouched(middle, c)
    ensures var s, t := Run(env, first), Run(env, first + [Advance(c)] + middle);
            var end := Next(t, env, Advance(c));
            && c in end.commits && end.tables == t.tables && c in end.clients && end.clients[c].1.Done?
            && (end.clients[c].1.outcome == Duplicate && end.log == t.log <==> |s.log| < |t.log|)
            && (end.clients[c].1.outcome.Inserted? <==> |s.log| == |t.log|)
  {
    var s, u, t := Run(env, first), Run(env, first + [Advance(c)]), Run(env, first + [Advance(c)] + middle);
    RunKeepsInv(env, first);
    RunKeepsInv(env, first + [Advance(c)] + middle);
    LatestIsCount(s.log);
    RunAppended(env, first, Advance(c));
    StaysPut(env, first + [Advance(c)], middle, c);
    assert ClientOk(s, env, c, s.clients[c].0, s.clients[c].1);
    assert ClientOk(t, env, c, t.clients[c].0, t.clients[c].1);
  }

  /** It can happen to every rollback: a publisher that slips in leaves it half done. */
  lemma PublisherSlipsIn(env: Env, first: seq<Action>, c: nat, d: nat, snapshot: Snapshot)
    requires c in Run(env, first).clients && Run(env, first).clients[c].1.LatestRead? && d !in Run(env, first).clients
    requires Run(env, first).clients[c].1.latest == |Run(env, first).log|
    ensures var t := Run(env, first + Slip(d, |Run(env, first).log|, snapshot));
            && c in t.clients && t.clients[c] == Run(env, first).clients[c] && |t.log| == |Run(env, first).log| + 1
            && Next(t, env, Advance(c)).clients[c].1 == Done(t.clients[c].0, Duplicate)
  {
    var s, op := Run(env, first), Publish(|Run(env, first).log|, snapshot);
    RunKeepsInv(env, first);
    var one, two := first + [Arrive(d, op)], first + [Arrive(d, op)] + [Advance(d)];
    RunAppended(env, first, Arrive(d, op));
    RunAppended(env, one, Advance(d));
    RunAppended(env, two, Advance(d));
    assert first + Slip(d, |s.log|, snapshot) == two + [Advance(d)];
    Slipped(s, env, c, d, op);
  }

  lemma Slipped(s: State, env: Env, c: nat, d: nat, op: Op)
    requires Contiguous(s.log) && c in s.clients && d !in s.clients && op.Publish? && op.base == |s.log|
    requires s.clients[c].1.LatestRead? && s.clients[c].1.latest == |s.log|
    ensures var t := Next(Next(Next(s, env, Arrive(d, op)), env, Advance(d)), env, Advance(d));
            && c in t.clients && t.clients[c] == s.clients[c] && |t.log| == |s.log| + 1
            && Next(t, env, Advance(c)).clients[c].1 == Done(s.clients[c].0, Duplicate)
  {
    LatestIsCount(s.log);
    var s1 := Next(s, env, Arrive(d, op));
    var s2 := Next(s1, env, Advance(d));
    assert s1.clients[d] == (op, Start(op)) && s1.log == s.log;
    assert s2.clients[d].1.LatestRead? && s2.log == s.log;
    assert |s.log| + 1 !in s.log;
  }

  function Slip(d: nat, base: nat, snapshot: Snapshot): seq<Action> {
    [Arrive(d, Publish(base, snapshot)), Advance(d), Advance(d)]
  }

  /** `t` is `s` after rollback `c` to `target` has restored the tables to `after` and appended its row. */
  ghost predicate RolledBackTo(s: State, c: nat, target: nat, after: Db, t: State) {
    && target in s.log && t.tables == after
    && c in t.clients && t.clients[c].1 == Done(Rollback(target), Inserted(|s.log| + 1))
    && t.log == s.log[|s.log| + 1 := Row(|s.log|, RolledBack(target), s.log[target].content)]
  }

  lemma MoveAgain(s: State, c: nat, op: Op, at: Client, then_: Client)
    ensures Move(Move(s, c, op, at), c, op, then_) == Move(s, c, op, then_)
  {
    assert s.clients[c := (op, at)][c := (op, then_)] == s.clients[c := (op, then_)];
  }

  /** Arriving and reading the target's snapshot. */
  lemma ReadsSnapshot(s: State, env: Env, c: nat, op: Op, target: nat)
    requires op == Rollback(target) && c !in s.clients && target in s.log
    ensures Next(s, env, Arrive(c, op)) == Move(s, c, op, Start(op))
    ensures Next(Move(s, c, op, Start(op)), env, Advance(c))
            == Move(s, c, op, SnapshotRead(target, s.log[target].content))
  {
    MoveAgain(s, c, op, Start(op), SnapshotRead(target, s.log[target].content));
  }

  ghost function Restoring(s: State, c: nat, snapshot: Snapshot, after: Db): State {
    s.(tables := after, commits := s.commits[c := Commit(s.tables, snapshot, after)])
  }

  lemma AppliesIt(s: State, env: Env, c: nat, op: Op, target: nat, content: Content, after: Db)
    requires op == Rollback(target) && MayApply(s.tables, content.snapshot, Some(after))
    ensures Next(Move(s, c, op, SnapshotRead(target, content)), env, Apply(c, Some(after)))
            == Move(Restoring(s, c, content.snapshot, after), c, op, Committed(target))
  {
    MoveAgain(Restoring(s, c, content.snapshot, after), c, op, SnapshotRead(target, content), Committed(target));
  }

  /** Reading the target row and the latest version. */
  lemma ReadsRows(s: State, env: Env, c: nat, op: Op, target: nat)
    requires op == Rollback(target) && target in s.log && Latest(s.log.Keys) == |s.log|
    ensures var content := s.log[target].content;
            var last := LatestRead(|s.log|, RolledBack(target), content);
            && Next(Move(s, c, op, Committed(target)), env, Advance(c)) == Move(s, c, op, TargetRead(target, content))
            && Next(Move(s, c, op, TargetRead(target, content)), env, Advance(c)) == Move(s, c, op, last)
  {
    var content := s.log[target].content;
    MoveAgain(s, c, op, Committed(target), TargetRead(target, content));
    MoveAgain(s, c, op, TargetRead(target, content), LatestRead(|s.log|, RolledBack(target), content));
  }

  lemma InsertsRow(s: State, env: Env, c: nat, op: Op, latest: nat, kind: Kind, content: Content)
    requires latest + 1 !in s.log
    ensures Next(Move(s, c, op, LatestRead(latest, kind, content)), env, Advance(c))
            == Finish(s.(log := s.log[latest + 1 := Row(latest, kind, content)]), c, op, Inserted(latest + 1))
  {
    var t := s.(log := s.log[latest + 1 := Row(latest, kind, content)]);
    MoveAgain(t, c, op, LatestRead(latest, kind, content), Done(op, Inserted(latest + 1)));
  }

  /** The states along the steps of a rollback that nobody disturbs. */
  ghost predicate AloneRun(env: Env, ss: seq<State>, c: nat, target: nat, after: Db) {
    && |ss| == 7 && ss[1] == Next(ss[0], env, Arrive(c, Rollback(target))) && ss[2] == Next(ss[1], env, Advance(c))
    && ss[3] == Next(ss[2], env, Apply(c, Some(after))) && ss[4] == Next(ss[3], env, Advance(c))
    && ss[5] == Next(ss[4], env, Advance(c)) && ss[6] == Next(ss[5], env, Advance(c))
  }

  lemma AloneToTables(env: Env, ss: seq<State>, c: nat, target: nat, after: Db, s: State)
    requires AloneRun(env, ss, c, target, after) && ss[0] == s && c !in s.clients && target in s.log
    requires MayApply(s.tables, s.log[target].content.snapshot, Some(after))
    ensures ss[3]
            == Move(Restoring(s, c, s.log[target].content.snapshot, after), c, Rollback(target), Committed(target))
  {
    ReadsSnapshot(s, env, c, Rollback(target), target);
    AppliesIt(s, env, c, Rollback(target), target, s.log[target].content, after);
  }

  lemma AloneToLatest(env: Env, x: State, y: State, z: State, c: nat, target: nat, s: State)
    requires x == Move(s, c, Rollback(target), Committed(target)) && y == Next(x, env, Advance(c))
    requires z == Next(y, env, Advance(c)) && target in s.log && Latest(s.log.Keys) == |s.log|
    ensures z == Move(s, c, Rollback(target), LatestRead(|s.log|, RolledBack(target), s.log[target].content))
  {
    ReadsRows(s, env, c, Rollback(target), target);
  }

  lemma AloneToRow(env: Env, y: State, z: State, c: nat, target: nat, s: State, row: Row)
    requires target in s.log && Contiguous(s.log) && row == Row(|s.log|, RolledBack(target), s.log[target].content)
    requires y == Move(s, c, Rollback(target), LatestRead(|s.log|, row.kind, row.content))
    requires z == Next(y, env, Advance(c))
    ensures z == Finish(s.(log := s.log[|s.log| + 1 := row]), c, Rollback(target), Inserted(|s.log| + 1))
  {
    InsertsRow(s, env, c, Rollback(target), |s.log|, row.kind, row.content);
  }

  /** From any state a run can reach, a rollback that nobody disturbs finds its target, restores the tables and
      appends a copy of the row. */
  lemma AloneRollsBack(env: Env, first: seq<Action>, ss: seq<State>, c: nat, target: nat, after: Db)
    requires AloneRun(env, ss, c, target, after) && ss[0] == Run(env, first)
    requires c !in ss[0].clients && target in ss[0].log
    requires MayApply(ss[0].tables, ss[0].log[target].content.snapshot, Some(after))
    ensures RolledBackTo(ss[0], c, target, after, ss[6])
  {
    var s := ss[0];
    RunContiguous(env, first, s);
    AloneToTables(env, ss, c, target, after, s);
    var half := Restoring(s, c, s.log[target].content.snapshot, after);
    AloneToLatest(env, ss[3], ss[4], ss[5], c, target, half);
    AloneToRow(env, ss[5], ss[6], c, target, half, Row(|s.log|, RolledBack(target), s.log[target].content));
  }

  lemma RunContiguous(env: Env, actions: seq<Action>, s: State)
    requires s == Run(env, actions)
    ensures Contiguous(s.log) && Latest(s.log.Keys) == |s.log|
  {
    RunKeepsInv(env, actions);
    LatestIsCount(s.log);
  }
}
