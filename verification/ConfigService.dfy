/**
 Publish and rollback as the control plane performs them: the version table and the
 business tables together, one caller at a time (VersionLog treats concurrent callers).
 */
module ConfigService {
  import opened Common
  import opened ConfigTables
  import opened VersionLog
  import ConfigCapture
  import ConfigRollback
  import opened ConfigRoundTrip

  datatype Failure = ConcurrencyConflict | VersionNotFound | BadSnapshot(reason: string)

  /** Applying a snapshot; if it was captured from `published`, the outcome is judged against that. */
  method Restore(db: Db, snapshot: Snapshot, ghost published: Db) returns (r: Result<Db, string>)
    requires Consistent(db)
    ensures Applicable(snapshot) ==> r.Ok? && Restored(db, snapshot, r.value) && Consistent(r.value)
    ensures Consistent(published) && Captures(published, snapshot) ==>
              && r.Ok? && (SameConfiguration(published, r.value) <==> ReferencesLive(published))
              && (SameLiveBindings(published, r.value) <==> NoneParked(published))
  {
    r := ConfigRollback.ApplySnapshot(db, snapshot);
    if Consistent(published) && Captures(published, snapshot) {
      CapturedIsApplicable(published, snapshot);
      RollbackRoundTripIff(published, snapshot, db, r.value);
      LiveBindingsIff(published, snapshot, db, r.value);
    }
  }

  ghost predicate AllApplicable(log: map<nat, Row>) { forall v :: v in log ==> Applicable(log[v].content.snapshot) }

  lemma AppendApplicable(log: map<nat, Row>, v: nat, row: Row)
    requires AllApplicable(log) && Applicable(row.content.snapshot)
    ensures AllApplicable(log[v := row])
  {
  }

  class Service {
    var db: Db
    var versions: map<nat, Row>
    const hash: Snapshot -> string

    constructor (hash: Snapshot -> string)
      ensures db == Db(map[], map[], map[], map[]) && versions == map[] && this.hash == hash
      ensures Valid() && Restorable()
    {
      this.db := Db(map[], map[], map[], map[]);
      this.versions := map[];
      this.hash := hash;
    }

    ghost predicate Valid()
      reads this
    {
      Consistent(db) && Contiguous(versions) && Faithful(versions, hash)
    }

    /** Every version can be rolled back to. */
    ghost predicate Restorable()
      reads this
    {
      AllApplicable(versions)
    }

    method LatestVersion() returns (v: nat)
      ensures v == Latest(versions.Keys)
    {
      v := 0;
      var todo := versions.Keys;
      while todo != {}
        invariant todo <= versions.Keys
        invariant v == 0 || v in versions
        invariant forall w :: w in versions && w !in todo ==> w <= v
      {
        var w :| w in todo;
        if v < w { v := w; }
        todo := todo - {w};
      }
    }

    /** Appends one version based on the latest, or refuses because `base` is not the latest. */
    method Publish(base: nat, snapshot: Snapshot) returns (r: Result<nat, Failure>)
      requires Valid()
      modifies this
      ensures Valid() && db == old(db)
      ensures r.Ok? <==> base == old(|versions|)
      ensures r.Ok? ==> r.value == base + 1
                        && versions
                           == old(versions)[base + 1 := Row(base, Published, Content(snapshot, hash(snapshot)))]
      ensures r.Err? ==> r.error == ConcurrencyConflict && versions == old(versions)
      ensures old(Restorable()) && Applicable(snapshot) ==> Restorable()
    {
      var latest := LatestVersion();
      LatestIsCount(versions);
      if base != latest {
        return Err(ConcurrencyConflict);
      }
      var v := Append(latest, Row(base, Published, Content(snapshot, hash(snapshot))));
      r := Ok(v);
    }

    /** Inserts the next version. */
    method Append(latest: nat, row: Row) returns (v: nat)
      requires Contiguous(versions) && Faithful(versions, hash) && latest == |versions| == row.base
      requires row.content.hash == hash(row.content.snapshot)
      requires row.kind.RolledBack? ==> row.kind.target in versions && row.content == versions[row.kind.target].content
      modifies this`versions
      ensures v == old(|versions|) + 1 && versions == old(versions)[v := row]
      ensures Contiguous(versions) && Faithful(versions, hash)
      ensures old(Restorable()) && Applicable(row.content.snapshot) ==> Restorable()
    {
      v := latest + 1;
      AppendContiguous(versions, v, row);
      AppendFaithful(versions, hash, v, row);
      if AllApplicable(versions) && Applicable(row.content.snapshot) { AppendApplicable(versions, v, row); }
      versions := versions[v := row];
    }

    /** Publishes the live configuration: the new version's snapshot captures the tables as they are. */
    method PublishCurrent(base: nat) returns (r: Result<nat, Failure>)
      requires Valid()
      modifies this
      ensures Valid() && db == old(db)
      ensures r.Ok? <==> base == old(|versions|)
      ensures r.Ok? ==>
                && r.value == base + 1 && r.value in versions && versions == old(versions)[r.value := versions[r.value]]
                && Captures(db, versions[r.value].content.snapshot) && Applicable(versions[r.value].content.snapshot)
      ensures r.Err? ==> versions == old(versions)
      ensures old(Restorable()) ==> Restorable()
    {
      var snapshot := ConfigCapture.Capture(db);
      r := Publish(base, snapshot);
    }

    /** Restores the target's snapshot in the business tables and records it as a new version. With one caller
        at a time the second step cannot fail; VersionLog shows when it does. If the target holds what was
        captured from `published`, the configuration reads as it did then, exactly when no enabled route
        dangled, and the live bindings are as they were, exactly when none was switched off. */
    method RollbackConfig(target: nat, ghost published: Db) returns (r: Result<nat, Failure>)
      requires Valid()
      modifies this
      ensures r.Err? ==> db == old(db) && versions == old(versions)
      ensures target !in old(versions) <==> r == Err(VersionNotFound)
      ensures r.Ok? ==> target in old(versions) && r.value == old(|versions|) + 1
                        && versions == old(versions)[r.value := Row(old(|versions|), RolledBack(target),
                                                                    old(versions)[target].content)]
      ensures target in old(versions) && Applicable(old(versions)[target].content.snapshot) ==>
                r.Ok? && Valid() && Restored(old(db), old(versions)[target].content.snapshot, db)
      ensures target in old(versions) && Consistent(published)
              && Captures(published, old(versions)[target].content.snapshot) ==>
                && r.Ok? && (SameConfiguration(published, db) <==> ReferencesLive(published))
                && (SameLiveBindings(published, db) <==> NoneParked(published))
      ensures old(Restorable()) ==> Valid() && Restorable() && (r.Ok? <==> target in old(versions))
    {
      if target !in versions {
        return Err(VersionNotFound);
      }
      assert RowFaithful(versions, hash, target);
      var content := versions[target].content;
      var applied := Restore(db, content.snapshot, published);
      if applied.Err? {
        return Err(Failure.BadSnapshot(applied.error));
      }
      db := applied.value;
      var latest := LatestVersion();
      LatestIsCount(versions);
      var v := Append(latest, Row(latest, RolledBack(target), content));
      r := Ok(v);
    }
  }
}
