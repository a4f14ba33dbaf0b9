/** Properties of the backup tool that relate several of its operations:
    how the retention count is read, which snapshots pruning may delete,
    what a run of pruning leaves behind, and why a new backup never counts
    towards retention until it completes. */
module Ec2BackupProperties {
  import opened Php
  import opened OrderedArrays
  import opened Ec2Client
  import opened Ec2Backup
  import Helpers

  // ---------------------------------------------------------------------
  // The settings

  /** A retention count written out in decimal is read back as that count. */
  lemma MaxCountRoundTrip(n: nat)
    requires 1 <= n <= IntMax
    ensures NewSettings(map["MAX_SNAPSHOT_COUNT" := Decimal(n)]).maxBackupCount == n
  {
    DecimalRoundTrip(n);
  }

  /** Zero or a negative retention count falls back to the default of 4. */
  lemma MaxCountNotPositive(n: nat)
    ensures NewSettings(map["MAX_SNAPSHOT_COUNT" := "-" + Decimal(n)]).maxBackupCount == DefaultMaxBackupCount
    ensures NewSettings(map["MAX_SNAPSHOT_COUNT" := Decimal(0)]).maxBackupCount == DefaultMaxBackupCount
  {
    DecimalRoundTrip(n);
    DecimalRoundTrip(0);
  }

  /** With nothing configured, backups are enabled and four are kept. */
  lemma DefaultSettings()
    ensures NewSettings(map[]) == Settings(true, DefaultMaxBackupCount)
  {
  }

  /** `ENABLE` spelled as a false word switches backups off, and a true word
      in any letter case keeps them on. */
  lemma EnableWords()
    ensures !NewSettings(map["ENABLE" := "no"]).enable
    ensures !NewSettings(map["ENABLE" := "0"]).enable
    ensures !NewSettings(map["ENABLE" := "false"]).enable
    ensures NewSettings(map["ENABLE" := "Yes"]).enable
  {
    Helpers.BooleanTableNegatives();
    Helpers.BooleanTableEmptyStrings();
    Helpers.BooleanOfLongString("false");
    Helpers.BooleanTableTrueStrings();
  }

  // ---------------------------------------------------------------------
  // Which snapshots pruning may delete

  /** The selection takes exactly the oldest entries beyond the retention
      count: as many ids as the surplus, none of the newest `max`, and, when
      the backups are oldest first, each selected one started no later than
      any kept one. */
  lemma {:induction false} PruneKeepsNewest(backups: seq<(string, BackupEntry)>, max: int)
    requires max >= 1 && DistinctKeys(backups)
    ensures |PrunedIds(backups, max)| == if |backups| <= max then 0 else |backups| - max
    ensures forall j :: 0 <= j < |backups| && j >= |backups| - max ==> backups[j].0 !in PrunedIds(backups, max)
    ensures forall j :: 0 <= j < |backups| && j < |backups| - max ==> backups[j].0 in PrunedIds(backups, max)
    ensures SortedByStart(backups) ==>
      forall i, j ::
        (0 <= i < |backups| && 0 <= j < |backups| &&
         backups[i].0 in PrunedIds(backups, max) && backups[j].0 !in PrunedIds(backups, max)) ==>
        backups[i].1.started <= backups[j].1.started
  {
    var prune := PruneSelection(backups, max);
    var n := |prune|;
    assert prune == backups[..n];
    assert DistinctKeys(prune) by {
      forall i, j | 0 <= i < j < n ensures prune[i].0 != prune[j].0 {
        assert prune[i] == backups[i] && prune[j] == backups[j];
      }
    }
    KeyCount(prune);
    KeySetSplitDisjoint(backups, n);
    forall j | 0 <= j < |backups| && j >= n ensures backups[j].0 !in KeySet(prune) {
      assert backups[n..][j - n] == backups[j];
    }
    forall j | 0 <= j < |backups| && j < n ensures backups[j].0 in KeySet(prune) {
      assert prune[j] == backups[j];
    }
  }

  /** Snapshot ids are unique within the service. */
  predicate UniqueSnapshotIds(cloud: Cloud) {
    forall i, j :: 0 <= i < j < |cloud.snapshots| ==> cloud.snapshots[i].snapshotId != cloud.snapshots[j].snapshotId
  }

  /** Pruning a volume never selects a snapshot that is still pending, that
      failed, or that belongs to another volume. */
  lemma PruneSparesOthers(cloud: Cloud, provider: Provider, volumeId: string, max: int, s: Snapshot)
    requires max >= 1 && UniqueSnapshotIds(cloud)
    requires s in cloud.snapshots && !IsBackupOf(s, volumeId)
    ensures s.snapshotId !in PrunedIds(GetBackups(cloud, provider, volumeId), max)
  {
    var backups := GetBackups(cloud, provider, volumeId);
    PrunedAreBackups(backups, max);
    if s.snapshotId in CompletedIds(cloud, volumeId) {
      var t :| t in cloud.snapshots && IsBackupOf(t, volumeId) && t.snapshotId == s.snapshotId;
      SameIdSameSnapshot(cloud, s, t);
    }
  }

  /** With unique ids, a snapshot is determined by its id. */
  lemma SameIdSameSnapshot(cloud: Cloud, s: Snapshot, t: Snapshot)
    requires UniqueSnapshotIds(cloud) && s in cloud.snapshots && t in cloud.snapshots
    ensures s.snapshotId == t.snapshotId ==> s == t
  {
    var a :| 0 <= a < |cloud.snapshots| && cloud.snapshots[a] == s;
    var b :| 0 <= b < |cloud.snapshots| && cloud.snapshots[b] == t;
  }

  // ---------------------------------------------------------------------
  // What pruning leaves behind

  /** When the listing and every delete go through, the volume keeps exactly
      its completed snapshots that were not selected, which is its newest
      `max` of them, or all of them when there were no more than `max`. */
  lemma PruneLeavesNewest(cloud: Cloud, provider: Provider, volumeId: string, max: int)
    requires max >= 1
    requires !provider.fails(DescribeSnapshots(volumeId))
    requires var prune := PruneSelection(GetBackups(cloud, provider, volumeId), max);
      forall i :: 0 <= i < |prune| ==> !provider.fails(DeleteSnapshot(prune[i].0))
    ensures var backups := GetBackups(cloud, provider, volumeId);
      var prune := PruneSelection(backups, max);
      var after := cloud.(snapshots := Without(cloud.snapshots, Elements(Deleted(prune, provider))));
      && CompletedIds(after, volumeId) == CompletedIds(cloud, volumeId) - PrunedIds(backups, max)
      && |CompletedIds(after, volumeId)| == if |backups| <= max then |backups| else max
  {
    var backups := GetBackups(cloud, provider, volumeId);
    var prune := PruneSelection(backups, max);
    AllDeleted(prune, provider);
    var after := cloud.(snapshots := Without(cloud.snapshots, KeySet(prune)));
    KeptIds(cloud, volumeId, KeySet(prune));
    PrunedAreBackups(backups, max);
    PruneKeepsNewest(backups, max);
    KeyCount(backups);
    DifferenceCount(CompletedIds(cloud, volumeId), KeySet(prune));
  }

  /** Pruning twice in a row, with no new backup in between, deletes nothing
      the second time: the second listing is within the retention count, so
      nothing is selected (and PruneBackups then makes no delete and counts
      0). */
  lemma PruneTwiceDeletesNothing(cloud: Cloud, provider: Provider, volumeId: string, max: int)
    requires max >= 1
    requires !provider.fails(DescribeSnapshots(volumeId))
    requires var prune := PruneSelection(GetBackups(cloud, provider, volumeId), max);
      forall i :: 0 <= i < |prune| ==> !provider.fails(DeleteSnapshot(prune[i].0))
    ensures var prune := PruneSelection(GetBackups(cloud, provider, volumeId), max);
      var after := cloud.(snapshots := Without(cloud.snapshots, Elements(Deleted(prune, provider))));
      PruneSelection(GetBackups(after, provider, volumeId), max) == []
  {
    var prune := PruneSelection(GetBackups(cloud, provider, volumeId), max);
    var after := cloud.(snapshots := Without(cloud.snapshots, Elements(Deleted(prune, provider))));
    LeftWithinMax(cloud, provider, volumeId, max, after);
    SelectNothing(GetBackups(after, provider, volumeId), CompletedIds(after, volumeId), max);
  }

  /** When the listing and every delete go through, at most `max` completed
      snapshots are left. */
  lemma LeftWithinMax(cloud: Cloud, provider: Provider, volumeId: string, max: int, after: Cloud)
    requires max >= 1
    requires !provider.fails(DescribeSnapshots(volumeId))
    requires var prune := PruneSelection(GetBackups(cloud, provider, volumeId), max);
      forall i :: 0 <= i < |prune| ==> !provider.fails(DeleteSnapshot(prune[i].0))
    requires var prune := PruneSelection(GetBackups(cloud, provider, volumeId), max);
      after == cloud.(snapshots := Without(cloud.snapshots, Elements(Deleted(prune, provider))))
    ensures |CompletedIds(after, volumeId)| <= max
  {
    PruneLeavesNewest(cloud, provider, volumeId, max);
  }

  /** A listing of at most `max` distinct backups selects nothing. */
  lemma SelectNothing(backups: seq<(string, BackupEntry)>, ids: set<string>, max: int)
    requires max >= 1 && DistinctKeys(backups) && KeySet(backups) == ids && |ids| <= max
    ensures PruneSelection(backups, max) == []
  {
    KeyCount(backups);
  }

  /** When every delete goes through, the deleted ids are the selected ones. */
  lemma AllDeleted(prune: seq<(string, BackupEntry)>, provider: Provider)
    requires forall i :: 0 <= i < |prune| ==> !provider.fails(DeleteSnapshot(prune[i].0))
    ensures Elements(Deleted(prune, provider)) == KeySet(prune)
  {
    forall x | x in KeySet(prune) ensures x in Elements(Deleted(prune, provider)) {
      var i :| 0 <= i < |prune| && prune[i].0 == x;
    }
  }

  /** Removing some ids leaves the completed ids of a volume minus those. */
  lemma KeptIds(cloud: Cloud, volumeId: string, gone: set<string>)
    ensures CompletedIds(cloud.(snapshots := Without(cloud.snapshots, gone)), volumeId) == CompletedIds(cloud, volumeId) - gone
  {
    var after := cloud.(snapshots := Without(cloud.snapshots, gone));
    forall x | x in CompletedIds(cloud, volumeId) - gone ensures x in CompletedIds(after, volumeId) {
      var s :| s in cloud.snapshots && IsBackupOf(s, volumeId) && s.snapshotId == x;
      assert s in after.snapshots;
    }
  }

  /** Only listed backups are selected. */
  lemma PrunedAreBackups(backups: seq<(string, BackupEntry)>, max: int)
    requires max >= 1
    ensures PrunedIds(backups, max) <= KeySet(backups)
  {
    var prune := PruneSelection(backups, max);
    forall x | x in KeySet(prune) ensures x in KeySet(backups) {
      var i :| 0 <= i < |prune| && prune[i].0 == x;
      assert prune[i] == backups[i];
    }
  }

  lemma DifferenceCount<T>(a: set<T>, b: set<T>)
    requires b <= a
    ensures |a - b| == |a| - |b|
  {
    assert a == (a - b) + b;
    assert (a - b) !! b;
  }

  // ---------------------------------------------------------------------
  // A new backup does not count towards retention

  /** A snapshot started by `backup()` is pending, so it changes neither the
      ids of a volume's completed snapshots nor how many backups the next
      listing reports. */
  lemma NewBackupNotCounted(
    cloud: Cloud, provider: Provider, params: BackupParams, extraTags: seq<(string, string)>, volumeId: string)
    ensures var after := Backup(cloud, provider, params, extraTags).cloud;
      && CompletedIds(after, volumeId) == CompletedIds(cloud, volumeId)
      && |GetBackups(after, provider, volumeId)| == |GetBackups(cloud, provider, volumeId)|
  {
    var after := Backup(cloud, provider, params, extraTags).cloud;
    PendingNotCompleted(cloud, provider, params, extraTags, volumeId);
    BackupCountFollowsIds(cloud, after, provider, volumeId);
  }

  lemma PendingNotCompleted(
    cloud: Cloud, provider: Provider, params: BackupParams, extraTags: seq<(string, string)>, volumeId: string)
    ensures CompletedIds(Backup(cloud, provider, params, extraTags).cloud, volumeId) == CompletedIds(cloud, volumeId)
  {
    var r := Backup(cloud, provider, params, extraTags);
    var after := r.cloud;
    forall x | x in CompletedIds(after, volumeId) ensures x in CompletedIds(cloud, volumeId) {
      var s :| s in after.snapshots && IsBackupOf(s, volumeId) && s.snapshotId == x;
      if r.ok {
        var i :| 0 <= i < |after.snapshots| && after.snapshots[i] == s;
        if i < |cloud.snapshots| {
          assert after.snapshots[..|cloud.snapshots|][i] == s;
        }
      }
    }
    forall x | x in CompletedIds(cloud, volumeId) ensures x in CompletedIds(after, volumeId) {
      var s :| s in cloud.snapshots && IsBackupOf(s, volumeId) && s.snapshotId == x;
      if r.ok {
        var i :| 0 <= i < |cloud.snapshots| && cloud.snapshots[i] == s;
        assert after.snapshots[i] == s;
      }
    }
  }

  /** The number of backups listed is the number of completed snapshot ids. */
  lemma BackupCountFollowsIds(cloud: Cloud, other: Cloud, provider: Provider, volumeId: string)
    requires CompletedIds(other, volumeId) == CompletedIds(cloud, volumeId)
    ensures |GetBackups(other, provider, volumeId)| == |GetBackups(cloud, provider, volumeId)|
  {
    KeyCount(GetBackups(cloud, provider, volumeId));
    KeyCount(GetBackups(other, provider, volumeId));
  }
}
