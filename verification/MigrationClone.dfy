/** The snapshot clone of a production database: which named objects it creates and
    deletes on the way, however far it gets. */
module MigrationClone {

  datatype Obj =
    | NamespaceObj(name: string)
    | ContentObj(name: string)
    | SnapshotObj(namespace: string, name: string)
    | BackupObj(namespace: string, name: string)
    | ClusterObj(namespace: string, name: string)
    | SecretObj(namespace: string, name: string)
    | JobObj(namespace: string, name: string)

  /** The clone as its caller names it; an empty `warm` asks for a snapshot of its own. */
  datatype CloneRequest = CloneRequest(
    sourceNS: string, targetNS: string, prodSnapshot: string, content: string, restore: string, cluster: string,
    warm: string, warmMaxAge: int)

  datatype WarmAnswer = WarmError | WarmMissing | WarmFound(ready: bool, age: int)

  datatype BackupAnswer = BackupError | BackupMissing | BackupFound(failed: bool)

  /** What each step is answered; a false one may still have had its effect. */
  datatype CloneAnswers = CloneAnswers(
    primary: bool, cold: bool, warm: WarmAnswer, backupGone: bool, snapshotGone: bool,
    backup: BackupAnswer, replaced: bool, backupCreated: bool, completed: bool,
    snapshotCreated: bool, ready: bool, metadata: bool, contentOk: bool, restoreOk: bool, clusterOk: bool)

  /** Creations and deletions sent, and whether the walk came to its end. */
  datatype Effects = Effects(created: set<Obj>, deleted: set<Obj>, ok: bool)

  function SourceName(c: CloneRequest): string { if c.warm != "" then c.warm else c.prodSnapshot }

  predicate Usable(warm: WarmAnswer, maxAge: int) { warm.WarmFound? && warm.ready && warm.age < maxAge }

  predicate Stale(warm: WarmAnswer, maxAge: int) { warm.WarmFound? && warm.age >= maxAge }

  function Refresh(c: CloneRequest, a: CloneAnswers): Effects {
    var backup, snapshot := BackupObj(c.sourceNS, SourceName(c)), SnapshotObj(c.sourceNS, SourceName(c));
    Effects({}, if a.backupGone then {backup, snapshot} else {backup}, a.backupGone && a.snapshotGone)
  }

  /** The Backup's snapshot carries the Backup's name. */
  function ColdBackup(c: CloneRequest, a: CloneAnswers): Effects {
    var backup := BackupObj(c.sourceNS, SourceName(c));
    var leftover := a.backup == BackupFound(true);
    if a.backup.BackupError? then Effects({}, {}, false)
    else if leftover && !a.replaced then Effects({}, {backup}, false)
    else Effects({backup, SnapshotObj(c.sourceNS, SourceName(c))}, if leftover then {backup} else {},
                 a.backupCreated && a.completed)
  }

  function Acquire(c: CloneRequest, a: CloneAnswers): Effects {
    var warm := c.warm != "";
    if warm && a.warm.WarmError? then Effects({}, {}, false)
    else if warm && Usable(a.warm, c.warmMaxAge) then Effects({}, {}, a.metadata)
    else
      var previous := if warm && Stale(a.warm, c.warmMaxAge) then Refresh(c, a) else Effects({}, {}, true);
      if !previous.ok then previous
      else
        var taken := if warm && a.cold then ColdBackup(c, a)
                     else Effects({SnapshotObj(c.sourceNS, SourceName(c))}, {}, a.snapshotCreated);
        Effects(taken.created, previous.deleted + taken.deleted, taken.ok && a.ready && a.metadata)
  }

  function Clone(c: CloneRequest, a: CloneAnswers): Effects {
    var source := Acquire(c, a);
    var content := source.created + {ContentObj(c.content)};
    var restore := content + {SnapshotObj(c.targetNS, c.restore)};
    if !a.primary then Effects({}, {}, false)
    else if !source.ok then source
    else if !a.contentOk then Effects(content, source.deleted, false)
    else if !a.restoreOk then Effects(restore, source.deleted, false)
    else Effects(restore + {ClusterObj(c.targetNS, c.cluster)}, source.deleted, a.clusterOk)
  }

  /** The objects one clone has asked the API server to create and to delete. */
  class SnapshotCloner {
    var created: set<Obj>
    var deleted: set<Obj>

    constructor ()
      ensures created == deleted == {}
    {
      created, deleted := {}, {};
    }

    method EnsureColdBackup(c: CloneRequest, a: CloneAnswers) returns (ok: bool)
      modifies this
      ensures var e := ColdBackup(c, a);
        created == old(created) + e.created && deleted == old(deleted) + e.deleted && ok == e.ok
    {
      var backup := BackupObj(c.sourceNS, SourceName(c));
      match a.backup {
        case BackupError => return false;
        case BackupFound(failed) =>
          if failed {
            deleted := deleted + {backup};
            if !a.replaced { return false; }
          }
        case BackupMissing =>
      }
      created := created + {backup, SnapshotObj(c.sourceNS, SourceName(c))};
      if !a.backupCreated { return false; }
      return a.completed;
    }

    method AcquireSourceSnapshot(c: CloneRequest, a: CloneAnswers) returns (ok: bool)
      modifies this
      ensures var e := Acquire(c, a);
        created == old(created) + e.created && deleted == old(deleted) + e.deleted && ok == e.ok
    {
      var name := if c.warm != "" then c.warm else c.prodSnapshot;
      var reuse := false;
      if c.warm != "" {
        match a.warm {
          case WarmError => return false;
          case WarmMissing =>
          case WarmFound(ready, age) =>
            if ready && age < c.warmMaxAge {
              reuse := true;
            } else if age >= c.warmMaxAge {
              deleted := deleted + {BackupObj(c.sourceNS, name)};
              if !a.backupGone { return false; }
              deleted := deleted + {SnapshotObj(c.sourceNS, name)};
              if !a.snapshotGone { return false; }
            }
        }
      }
      if !reuse {
        if c.warm != "" && a.cold {
          var taken := EnsureColdBackup(c, a);
          if !taken { return false; }
        } else {
          created := created + {SnapshotObj(c.sourceNS, name)};
          if !a.snapshotCreated { return false; }
        }
        if !a.ready { return false; }
      }
      return a.metadata;
    }

    method CloneFromSnapshot(c: CloneRequest, a: CloneAnswers) returns (ok: bool)
      modifies this
      ensures var e := Clone(c, a);
        created == old(created) + e.created && deleted == old(deleted) + e.deleted && ok == e.ok
    {
      if !a.primary { return false; }
      var acquired := AcquireSourceSnapshot(c, a);
      if !acquired { return false; }
      created := created + {ContentObj(c.content)};
      if !a.contentOk { return false; }
      created := created + {SnapshotObj(c.targetNS, c.restore)};
      if !a.restoreOk { return false; }
      created := created + {ClusterObj(c.targetNS, c.cluster)};
      return a.clusterOk;
    }
  }

  /** However far a clone gets, it leaves nothing but the source snapshot it shares or
      owns, its content object, and two objects inside the target namespace. */
  lemma CloneCreatesOnly(c: CloneRequest, a: CloneAnswers)
    ensures Clone(c, a).created <= {BackupObj(c.sourceNS, SourceName(c)), SnapshotObj(c.sourceNS, SourceName(c)),
                                    ContentObj(c.content), SnapshotObj(c.targetNS, c.restore),
                                    ClusterObj(c.targetNS, c.cluster)}
    ensures Clone(c, a).ok ==>
              ContentObj(c.content) in Clone(c, a).created && ClusterObj(c.targetNS, c.cluster) in Clone(c, a).created
    ensures c.warm == "" ==> Clone(c, a).deleted == {}
  {
  }

  /** The source snapshot has to be taken: none is shared, or the shared one is missing, not
      ready, or past its age and successfully removed. */
  predicate Takes(c: CloneRequest, a: CloneAnswers) {
    && a.primary
    && (c.warm != "" ==>
          && !a.warm.WarmError?
          && !(a.warm.WarmFound? && a.warm.ready && a.warm.age < c.warmMaxAge)
          && (a.warm.WarmFound? && a.warm.age >= c.warmMaxAge ==> a.backupGone && a.snapshotGone))
  }

  /** As a Backup of a standby, with no failed leftover in its way; or else directly. */
  predicate BacksUp(c: CloneRequest, a: CloneAnswers) {
    Takes(c, a) && c.warm != "" && a.cold && !a.backup.BackupError? && (a.backup == BackupFound(true) ==> a.replaced)
  }

  predicate Snapshots(c: CloneRequest, a: CloneAnswers) {
    Takes(c, a) && !(c.warm != "" && a.cold)
  }

  /** There is a source snapshot to restore from: the shared one as it is, or one taken. */
  predicate SourceReady(c: CloneRequest, a: CloneAnswers) {
    && a.primary && a.metadata
    && (|| (c.warm != "" && a.warm.WarmFound? && a.warm.ready && a.warm.age < c.warmMaxAge)
        || (BacksUp(c, a) && a.backupCreated && a.completed && a.ready)
        || (Snapshots(c, a) && a.snapshotCreated && a.ready))
  }

  lemma CloneOkExactly(c: CloneRequest, a: CloneAnswers)
    ensures Clone(c, a).ok <==> SourceReady(c, a) && a.contentOk && a.restoreOk && a.clusterOk
  {
  }

  /** A clone succeeds exactly when it has a source and each of its three own objects was
      made; and every object is asked for exactly when all that comes before it went well. */
  lemma CloneExactly(c: CloneRequest, a: CloneAnswers)
    requires c.sourceNS != c.targetNS
    ensures var e := Clone(c, a);
      && (e.ok <==> SourceReady(c, a) && a.contentOk && a.restoreOk && a.clusterOk)
      && (BackupObj(c.sourceNS, SourceName(c)) in e.created <==> BacksUp(c, a))
      && (SnapshotObj(c.sourceNS, SourceName(c)) in e.created <==> BacksUp(c, a) || Snapshots(c, a))
      && (ContentObj(c.content) in e.created <==> SourceReady(c, a))
      && (SnapshotObj(c.targetNS, c.restore) in e.created <==> SourceReady(c, a) && a.contentOk)
      && (ClusterObj(c.targetNS, c.cluster) in e.created <==> SourceReady(c, a) && a.contentOk && a.restoreOk)
  {
  }

  /** It deletes nothing but a shared snapshot past its age, Backup first, and the leftover
      Backup of a failed attempt. */
  lemma CloneDeletesExactly(c: CloneRequest, a: CloneAnswers)
    ensures var e := Clone(c, a);
      var aged := a.primary && c.warm != "" && a.warm.WarmFound? && a.warm.age >= c.warmMaxAge;
      && (BackupObj(c.sourceNS, SourceName(c)) in e.deleted <==>
            || aged
            || (Takes(c, a) && c.warm != "" && a.cold && a.backup == BackupFound(true)))
      && (SnapshotObj(c.sourceNS, SourceName(c)) in e.deleted <==> aged && a.backupGone)
      && e.deleted <= {BackupObj(c.sourceNS, SourceName(c)), SnapshotObj(c.sourceNS, SourceName(c))}
  {
  }

  /** A warm snapshot is deleted exactly when it is found past its age, and every other
      check that finds it fresh and ready restores from it untouched. */
  lemma WarmSnapshotShared(c: CloneRequest, a: CloneAnswers)
    requires c.warm != "" && c.sourceNS != c.targetNS
    ensures SnapshotObj(c.sourceNS, c.warm) in Clone(c, a).deleted <==>
              a.primary && Stale(a.warm, c.warmMaxAge) && a.backupGone
    ensures a.primary && Usable(a.warm, c.warmMaxAge) ==>
      && Clone(c, a).deleted == {}
      && SnapshotObj(c.sourceNS, c.warm) !in Clone(c, a).created
      && BackupObj(c.sourceNS, c.warm) !in Clone(c, a).created
    ensures Clone(c, a).ok && !Usable(a.warm, c.warmMaxAge) ==> SnapshotObj(c.sourceNS, c.warm) in Clone(c, a).created
    ensures BackupObj(c.sourceNS, c.warm) in Clone(c, a).created ==> a.cold
  {
  }
}
