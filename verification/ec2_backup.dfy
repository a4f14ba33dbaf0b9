/** The backup orchestrator: for every volume attached to this EC2 instance,
    prune the oldest completed snapshots beyond the retention count, then
    start a new snapshot named after the instance. */
module Ec2Backup {
  import opened Wrappers
  import opened Php
  import opened OrderedArrays
  import opened Ec2Client
  import Helpers
  import MachineDetails

  // ---------------------------------------------------------------------
  // __construct

  /** Whether backups run without being forced, and how many completed
      snapshots of a volume to keep before a new one is started. */
  datatype Settings = Settings(enable: bool, maxBackupCount: int)

  const DefaultMaxBackupCount: int := 4

  /** The settings read from the environment: `ENABLE` through `boolean()`
      (true when unset), `MAX_SNAPSHOT_COUNT` through `(int)`, where a count
      below 1 falls back to 4. */
  function NewSettings(env: map<string, string>): (s: Settings)
    ensures s.maxBackupCount >= 1
    ensures "ENABLE" !in env ==> s.enable
    ensures "ENABLE" in env ==>
      (s.enable <==> exists w :: w in Helpers.TrueWords && EqualsIgnoreCase(env["ENABLE"], w))
    ensures "MAX_SNAPSHOT_COUNT" !in env ==> s.maxBackupCount == DefaultMaxBackupCount
    ensures "MAX_SNAPSHOT_COUNT" in env ==>
      var n := StringToInt(env["MAX_SNAPSHOT_COUNT"]);
      s.maxBackupCount == if n >= 1 then n else DefaultMaxBackupCount
  {
    Helpers.BooleanOfString(if "ENABLE" in env then env["ENABLE"] else "");
    var enable := Helpers.Boolean(Helpers.Config(env, "ENABLE", Bool(true)));
    var max := IntCast(Helpers.Config(env, "MAX_SNAPSHOT_COUNT", Int(DefaultMaxBackupCount)));
    Settings(enable, if max <= 0 then DefaultMaxBackupCount else max)
  }

  /** The options of `create()`; both default to false. */
  datatype Options = Options(noPrune: bool, force: bool)

  const NoOptions: Options := Options(false, false)

  // ---------------------------------------------------------------------
  // getVolumes and getTags

  /** A volume as `getVolumes` reports it. */
  datatype VolumeInfo = VolumeInfo(device: string, volumeId: string)

  /** The device of the volume's first attachment; PHP reads a missing one as
      null, which prints as the empty string. */
  function FirstDevice(v: Volume): string {
    if |v.attachments| > 0 then v.attachments[0].device else ""
  }

  function Info(v: Volume): VolumeInfo {
    VolumeInfo(FirstDevice(v), v.volumeId)
  }

  /** `getVolumes`: the instance's volumes keyed by volume id, in the order
      listed; a failed describe call gives none. */
  function GetVolumes(cloud: Cloud, provider: Provider, instanceId: Scalar): (r: seq<(string, VolumeInfo)>)
    ensures DistinctKeys(r)
    ensures provider.fails(DescribeVolumes(instanceId)) ==> r == []
    ensures !provider.fails(DescribeVolumes(instanceId)) ==>
      forall v :: v in cloud.volumes && AttachedTo(v, instanceId) ==> v.volumeId in KeySet(r)
    ensures !provider.fails(DescribeVolumes(instanceId)) ==>
      KeysOf(r) == Unique(Project(VolumesOf(cloud, instanceId), VolumeIdOf))
    ensures forall e :: e in r ==>
      e.1.volumeId == e.0 && exists v :: v in cloud.volumes && AttachedTo(v, instanceId) && Info(v) == e.1
  {
    if provider.fails(DescribeVolumes(instanceId)) then []
    else
      var listing := VolumesOf(cloud, instanceId);
      var r := IndexBy(listing, VolumeIdOf, Info);
      forall v | v in cloud.volumes && AttachedTo(v, instanceId) ensures v.volumeId in KeySet(r) {
        VolumeListed(cloud, instanceId, v);
      }
      forall e | e in r
        ensures e.1.volumeId == e.0 && exists v :: v in cloud.volumes && AttachedTo(v, instanceId) && Info(v) == e.1
      {
        EntryOfVolume(cloud, instanceId, e);
      }
      r
  }

  function VolumeIdOf(v: Volume): string {
    v.volumeId
  }

  lemma VolumeListed(cloud: Cloud, instanceId: Scalar, v: Volume)
    requires v in cloud.volumes && AttachedTo(v, instanceId)
    ensures v.volumeId in Elements(Project(VolumesOf(cloud, instanceId), VolumeIdOf))
  {
    var listing := VolumesOf(cloud, instanceId);
    var j :| 0 <= j < |listing| && listing[j] == v;
    assert Project(listing, VolumeIdOf)[j] == v.volumeId;
  }

  lemma EntryOfVolume(cloud: Cloud, instanceId: Scalar, e: (string, VolumeInfo))
    requires FromList(e, VolumesOf(cloud, instanceId), VolumeIdOf, Info)
    ensures e.1.volumeId == e.0 && exists v :: v in cloud.volumes && AttachedTo(v, instanceId) && Info(v) == e.1
  {
    var listing := VolumesOf(cloud, instanceId);
    var i :| 0 <= i < |listing| && VolumeIdOf(listing[i]) == e.0 && Info(listing[i]) == e.1;
    assert listing[i] in cloud.volumes && AttachedTo(listing[i], instanceId);
  }

  function TagKeys(tags: seq<Tag>): (r: seq<string>)
    ensures |r| == |tags| && forall i :: 0 <= i < |tags| ==> r[i] == tags[i].key
  {
    seq(|tags|, i requires 0 <= i < |tags| => tags[i].key)
  }

  /** `getTags`: the instance's tags as a key-value array; a key listed twice
      takes the value listed last; a failed describe call gives none. */
  function GetTags(cloud: Cloud, provider: Provider, instanceId: Scalar): (r: seq<(string, string)>)
    ensures DistinctKeys(r)
    ensures provider.fails(DescribeTags(instanceId)) ==> r == []
    ensures forall e :: e in r ==> Tag(AsString(instanceId), e.0, e.1) in cloud.tags && IsSet(instanceId)
    ensures !provider.fails(DescribeTags(instanceId)) ==>
      var listing := TagsOf(cloud, instanceId);
      forall i :: 0 <= i < |listing| && listing[i].key !in TagKeys(listing)[i + 1..] ==>
        (listing[i].key, listing[i].value) in r
  {
    if provider.fails(DescribeTags(instanceId)) then []
    else
      var listing := TagsOf(cloud, instanceId);
      assert Project(listing, TagKey) == TagKeys(listing);
      var r := IndexBy(listing, TagKey, TagValue);
      forall e | e in r ensures Tag(AsString(instanceId), e.0, e.1) in cloud.tags && IsSet(instanceId) {
        EntryOfTag(cloud, instanceId, e);
      }
      r
  }

  function TagKey(t: Tag): string {
    t.key
  }

  function TagValue(t: Tag): string {
    t.value
  }

  lemma EntryOfTag(cloud: Cloud, instanceId: Scalar, e: (string, string))
    requires FromList(e, TagsOf(cloud, instanceId), TagKey, TagValue)
    ensures Tag(AsString(instanceId), e.0, e.1) in cloud.tags && IsSet(instanceId)
  {
    var listing := TagsOf(cloud, instanceId);
    var i :| 0 <= i < |listing| && TagKey(listing[i]) == e.0 && TagValue(listing[i]) == e.1;
    assert listing[i] in cloud.tags && Str(listing[i].resourceId) == instanceId;
    assert listing[i] == Tag(AsString(instanceId), e.0, e.1);
  }

  // ---------------------------------------------------------------------
  // getBackups

  /** A completed snapshot as `getBackups` reports it. */
  datatype BackupEntry = BackupEntry(started: int, description: string, snapshotId: string)

  function AsBackup(s: Snapshot): BackupEntry {
    BackupEntry(s.started, s.description, s.snapshotId)
  }

  /** A snapshot that counts towards the retention of a volume. */
  predicate IsBackupOf(s: Snapshot, volumeId: string) {
    s.volumeId == volumeId && s.state == "completed"
  }

  /** The ids of the completed snapshots of a volume. */
  function CompletedIds(cloud: Cloud, volumeId: string): set<string> {
    set s | s in cloud.snapshots && IsBackupOf(s, volumeId) :: s.snapshotId
  }

  /** Oldest first. */
  predicate SortedByStart(a: seq<(string, BackupEntry)>) {
    forall i, j :: 0 <= i < j < |a| ==> a[i].1.started <= a[j].1.started
  }

  /** `getBackups`: the completed snapshots of the volume keyed by snapshot
      id, oldest first; a failed describe call gives none. */
  function GetBackups(cloud: Cloud, provider: Provider, volumeId: string): (r: seq<(string, BackupEntry)>)
    ensures DistinctKeys(r)
    ensures SortedByStart(r)
    ensures provider.fails(DescribeSnapshots(volumeId)) ==> r == []
    ensures !provider.fails(DescribeSnapshots(volumeId)) ==> KeySet(r) == CompletedIds(cloud, volumeId)
    ensures forall e :: e in r ==>
      e.0 == e.1.snapshotId && exists s :: s in cloud.snapshots && IsBackupOf(s, volumeId) && AsBackup(s) == e.1
  {
    if provider.fails(DescribeSnapshots(volumeId)) then []
    else
      var indexed := CompletedById(cloud, volumeId);
      var r := SortByStart(indexed);
      KeySetOfSameEntries(indexed, r);
      r
  }

  function SnapshotIdOf(s: Snapshot): string {
    s.snapshotId
  }

  /** The completed snapshots of the volume keyed by id, in listing order. */
  function CompletedById(cloud: Cloud, volumeId: string): (r: seq<(string, BackupEntry)>)
    ensures DistinctKeys(r)
    ensures KeySet(r) == CompletedIds(cloud, volumeId)
    ensures forall e :: e in r ==>
      e.0 == e.1.snapshotId && exists s :: s in cloud.snapshots && IsBackupOf(s, volumeId) && AsBackup(s) == e.1
  {
    var completed := Completed(cloud, volumeId);
    var r := IndexBy(completed, SnapshotIdOf, AsBackup);
    CompletedIdsListed(cloud, volumeId);
    forall e | e in r
      ensures e.0 == e.1.snapshotId && exists s :: s in cloud.snapshots && IsBackupOf(s, volumeId) && AsBackup(s) == e.1
    {
      EntryOfCompleted(cloud, volumeId, e);
    }
    r
  }

  lemma EntryOfCompleted(cloud: Cloud, volumeId: string, e: (string, BackupEntry))
    requires FromList(e, Completed(cloud, volumeId), SnapshotIdOf, AsBackup)
    ensures e.0 == e.1.snapshotId && exists s :: s in cloud.snapshots && IsBackupOf(s, volumeId) && AsBackup(s) == e.1
  {
    var completed := Completed(cloud, volumeId);
    var i :| 0 <= i < |completed| && SnapshotIdOf(completed[i]) == e.0 && AsBackup(completed[i]) == e.1;
    assert completed[i] in cloud.snapshots && IsBackupOf(completed[i], volumeId);
  }

  /** The listing `getBackups` keeps: the volume's snapshots in state completed. */
  function Completed(cloud: Cloud, volumeId: string): (r: seq<Snapshot>)
    ensures forall i :: 0 <= i < |r| ==> r[i] in cloud.snapshots && IsBackupOf(r[i], volumeId)
    ensures forall s :: s in cloud.snapshots && IsBackupOf(s, volumeId) ==> s in r
  {
    var listing := SnapshotsOf(cloud, volumeId);
    var r := Filter(listing, (s: Snapshot) => s.state == "completed");
    forall s | s in cloud.snapshots && IsBackupOf(s, volumeId) ensures s in r {
      var j :| 0 <= j < |listing| && listing[j] == s;
    }
    r
  }

  lemma CompletedIdsListed(cloud: Cloud, volumeId: string)
    ensures Elements(Project(Completed(cloud, volumeId), SnapshotIdOf)) == CompletedIds(cloud, volumeId)
  {
    var completed := Completed(cloud, volumeId);
    var ids := Project(completed, SnapshotIdOf);
    forall x | x in CompletedIds(cloud, volumeId) ensures x in Elements(ids) {
      var s :| s in cloud.snapshots && IsBackupOf(s, volumeId) && s.snapshotId == x;
      var i :| 0 <= i < |completed| && completed[i] == s;
      assert ids[i] == x;
    }
    forall x | x in Elements(ids) ensures x in CompletedIds(cloud, volumeId) {
      var i :| 0 <= i < |ids| && ids[i] == x;
      assert completed[i] in cloud.snapshots && IsBackupOf(completed[i], volumeId);
    }
  }

  /** Two arrays with the same entries have the same keys. */
  lemma KeySetOfSameEntries<K, V>(a: seq<(K, V)>, b: seq<(K, V)>)
    requires forall e :: e in a <==> e in b
    ensures KeySet(a) == KeySet(b)
  {
    forall x | x in KeySet(a) ensures x in KeySet(b) {
      var i :| 0 <= i < |a| && a[i].0 == x;
      assert a[i] in b;
      var j :| 0 <= j < |b| && b[j] == a[i];
    }
    forall x | x in KeySet(b) ensures x in KeySet(a) {
      var i :| 0 <= i < |b| && b[i].0 == x;
      assert b[i] in a;
      var j :| 0 <= j < |a| && a[j] == b[i];
    }
  }

  /** Inserts an entry after every entry that did not start later. */
  function Insert(x: (string, BackupEntry), a: seq<(string, BackupEntry)>): (r: seq<(string, BackupEntry)>)
    requires SortedByStart(a)
    ensures SortedByStart(r)
    ensures |r| == |a| + 1
    ensures forall e :: e in r <==> e == x || e in a
  {
    if |a| == 0 then [x]
    else if x.1.started < a[0].1.started then
      ConsSorted(x, a);
      [x] + a
    else
      var t := a[1..];
      assert a == [a[0]] + t;
      var rest := Insert(x, t);
      HeadBeforeRest(x, a, rest);
      ConsSorted(a[0], rest);
      [a[0]] + rest
  }

  /** Putting an entry that started no later than all others in front keeps
      the order. */
  lemma ConsSorted(h: (string, BackupEntry), a: seq<(string, BackupEntry)>)
    requires SortedByStart(a) && forall e :: e in a ==> h.1.started <= e.1.started
    ensures SortedByStart([h] + a)
  {
    var r := [h] + a;
    forall i, j | 0 <= i < j < |r| ensures r[i].1.started <= r[j].1.started {
      assert r[j] == a[j - 1];
      if i > 0 { assert r[i] == a[i - 1]; }
    }
  }

  lemma HeadBeforeRest(x: (string, BackupEntry), a: seq<(string, BackupEntry)>, rest: seq<(string, BackupEntry)>)
    requires SortedByStart(a) && |a| > 0 && a[0].1.started <= x.1.started
    requires forall e :: e in rest ==> e == x || e in a[1..]
    ensures forall e :: e in rest ==> a[0].1.started <= e.1.started
  {
    var t := a[1..];
    forall e | e in rest ensures a[0].1.started <= e.1.started {
      if e != x {
        var k :| 0 <= k < |t| && t[k] == e;
        assert a[k + 1] == e;
      }
    }
  }

  /** Inserting adds exactly the one entry. */
  lemma {:induction false} InsertPermutes(x: (string, BackupEntry), a: seq<(string, BackupEntry)>)
    requires SortedByStart(a)
    ensures multiset(Insert(x, a)) == multiset(a) + multiset{x}
  {
    if |a| > 0 && x.1.started >= a[0].1.started {
      InsertPermutes(x, a[1..]);
      assert a == [a[0]] + a[1..];
    }
  }

  /** Inserting an entry under a new key keeps the keys distinct. */
  lemma {:induction false} InsertKeepsDistinctKeys(x: (string, BackupEntry), a: seq<(string, BackupEntry)>)
    requires SortedByStart(a) && DistinctKeys(a) && x.0 !in KeySet(a)
    ensures DistinctKeys(Insert(x, a))
  {
    if |a| == 0 {
      assert Insert(x, a) == [x];
    } else {
      KeySetCons(a);
      DistinctKeysCons(a);
      var r := Insert(x, a);
      if x.1.started >= a[0].1.started {
        var t := a[1..];
        InsertKeepsDistinctKeys(x, t);
        InsertKeysOf(x, t);
        assert r == [a[0]] + Insert(x, t);
      } else {
        assert r == [x] + a;
      }
      DistinctKeysCons(r);
    }
  }

  /** The keys after inserting are the old ones and the new one. */
  lemma InsertKeysOf(x: (string, BackupEntry), a: seq<(string, BackupEntry)>)
    requires SortedByStart(a)
    ensures KeySet(Insert(x, a)) == {x.0} + KeySet(a)
  {
    var r := Insert(x, a);
    forall k | k in KeySet(r) ensures k in {x.0} + KeySet(a) {
      var i :| 0 <= i < |r| && r[i].0 == k;
      assert r[i] in r;
    }
    forall k | k in {x.0} + KeySet(a) ensures k in KeySet(r) {
      if k == x.0 {
        assert x in r;
        var i :| 0 <= i < |r| && r[i] == x;
      } else {
        var i :| 0 <= i < |a| && a[i].0 == k;
        assert a[i] in r;
        var j :| 0 <= j < |r| && r[j] == a[i];
      }
    }
  }

  /** Oldest first, by insertion: an entry goes after every earlier entry that
      started no later, so equal start times keep their listing order. */
  function SortByStart(a: seq<(string, BackupEntry)>): (r: seq<(string, BackupEntry)>)
    ensures SortedByStart(r)
    ensures |r| == |a|
    ensures forall e :: e in r <==> e in a
    ensures DistinctKeys(a) ==> DistinctKeys(r)
  {
    if |a| == 0 then []
    else
      var n := |a| - 1;
      var sorted := SortByStart(a[..n]);
      assert a == a[..n] + [a[n]];
      assert DistinctKeys(a) ==> DistinctKeys(Insert(a[n], sorted)) by {
        if DistinctKeys(a) {
          KeySetOfSameEntries(a[..n], sorted);
          KeySetSplitDisjoint(a, n);
          assert a[n..][0].0 == a[n].0;
          InsertKeepsDistinctKeys(a[n], sorted);
        }
      }
      Insert(a[n], sorted)
  }

  /** The sort reorders the backups and does nothing else: it returns a
      permutation of its input. */
  lemma {:induction false} SortPermutes(a: seq<(string, BackupEntry)>)
    ensures multiset(SortByStart(a)) == multiset(a)
  {
    if |a| > 0 {
      var n := |a| - 1;
      SortPermutes(a[..n]);
      InsertPermutes(a[n], SortByStart(a[..n]));
      assert a == a[..n] + [a[n]];
    }
  }

  /** The `uasort` callback as written: 1 when `a` started later, 0
      otherwise; it never answers -1. */
  function CompareStarted(a: BackupEntry, b: BackupEntry): int {
    if a.started == b.started then 0
    else if a.started > b.started then 1
    else 0
  }

  /** The callback is not an ordering: swapping two entries with different
      start times does not negate its answer, and an earlier entry compares
      as equal to a later one. */
  lemma ComparatorNotAntisymmetric(a: BackupEntry, b: BackupEntry)
    ensures CompareStarted(a, b) >= 0
    ensures CompareStarted(a, b) == 1 <==> a.started > b.started
    ensures a.started < b.started ==> CompareStarted(a, b) == 0 && CompareStarted(b, a) == 1
    ensures a.started != b.started ==> CompareStarted(a, b) != -CompareStarted(b, a)
  {
  }

  /** The order the model uses is the one the callback was meant to give:
      an array is oldest first exactly when no entry compares as later than
      any entry after it. */
  lemma SortedIffComparatorAgrees(a: seq<(string, BackupEntry)>)
    ensures SortedByStart(a) <==> forall i, j :: 0 <= i < j < |a| ==> CompareStarted(a[i].1, a[j].1) <= 0
  {
  }

  // ---------------------------------------------------------------------
  // pruneBackups

  /** The backups to delete: the oldest ones beyond the retention count. */
  function PruneSelection(backups: seq<(string, BackupEntry)>, max: int): (r: seq<(string, BackupEntry)>)
    requires max >= 1
    ensures |r| == if |backups| <= max then 0 else |backups| - max
    ensures r == backups[..|r|]
  {
    if |backups| <= max then [] else backups[..|backups| - max]
  }

  /** The ids, in order, whose delete call succeeds. */
  function Deleted(prune: seq<(string, BackupEntry)>, provider: Provider): (r: seq<string>)
    ensures |r| <= |prune|
    ensures forall x :: x in Elements(r) <==> exists i :: 0 <= i < |prune| && prune[i].0 == x && !provider.fails(DeleteSnapshot(x))
  {
    if |prune| == 0 then []
    else
      var n := |prune| - 1;
      var init := Deleted(prune[..n], provider);
      var step := if provider.fails(DeleteSnapshot(prune[n].0)) then [] else [prune[n].0];
      ElementsAppend(init, step);
      forall x | x in Elements(init + step)
        ensures exists i :: 0 <= i < |prune| && prune[i].0 == x && !provider.fails(DeleteSnapshot(x))
      {
        if x in Elements(init) {
          var i :| 0 <= i < n && prune[..n][i].0 == x && !provider.fails(DeleteSnapshot(x));
          assert prune[i] == prune[..n][i];
        }
      }
      forall i | 0 <= i < |prune| && !provider.fails(DeleteSnapshot(prune[i].0))
        ensures prune[i].0 in Elements(init + step)
      {
        if i < n {
          assert prune[..n][i] == prune[i];
          assert prune[i].0 in Elements(init);
        } else {
          assert step[0] == prune[i].0;
        }
      }
      init + step
  }

  /** The ids counted are distinct when the selection's keys are, so the
      count is the number of distinct snapshots deleted without error. */
  lemma {:induction false} DeletedDistinct(prune: seq<(string, BackupEntry)>, provider: Provider)
    requires DistinctKeys(prune)
    ensures Distinct(Deleted(prune, provider))
  {
    if |prune| > 0 {
      var n := |prune| - 1;
      var init := Deleted(prune[..n], provider);
      var id := prune[n].0;
      assert DistinctKeys(prune[..n]) by {
        forall i, j | 0 <= i < j < n ensures prune[..n][i].0 != prune[..n][j].0 {
          assert prune[..n][i] == prune[i] && prune[..n][j] == prune[j];
        }
      }
      DeletedDistinct(prune[..n], provider);
      if !provider.fails(DeleteSnapshot(id)) {
        DeletedBeforeLast(prune, provider);
        DistinctSnoc(init, id);
        assert Deleted(prune, provider) == init + [id];
      } else {
        assert Deleted(prune, provider) == init;
      }
    }
  }

  /** The last selected id is not among the ids deleted before it. */
  lemma DeletedBeforeLast(prune: seq<(string, BackupEntry)>, provider: Provider)
    requires |prune| > 0 && DistinctKeys(prune)
    ensures prune[|prune| - 1].0 !in Deleted(prune[..|prune| - 1], provider)
  {
    var n := |prune| - 1;
    var init := Deleted(prune[..n], provider);
    forall k | 0 <= k < |init| ensures init[k] != prune[n].0 {
      assert init[k] in Elements(init);
      var i :| 0 <= i < n && prune[..n][i].0 == init[k] && !provider.fails(DeleteSnapshot(init[k]));
      assert prune[..n][i] == prune[i];
    }
  }

  lemma DistinctSnoc<T>(s: seq<T>, x: T)
    requires Distinct(s) && x !in s
    ensures Distinct(s + [x])
  {
    var r := s + [x];
    forall i, j | 0 <= i < j < |r| ensures r[i] != r[j] {
      if j == |s| { assert r[i] == s[i]; }
    }
  }

  lemma ElementsAppend<T>(a: seq<T>, b: seq<T>)
    ensures Elements(a + b) == Elements(a) + Elements(b)
  {
    var c := a + b;
    forall x | x in Elements(c) ensures x in Elements(a) + Elements(b) {
      var i :| 0 <= i < |c| && c[i] == x;
      if i < |a| { assert a[i] == x; } else { assert b[i - |a|] == x; }
    }
    forall x | x in Elements(a) + Elements(b) ensures x in Elements(c) {
      if x in Elements(a) {
        var i :| 0 <= i < |a| && a[i] == x;
        assert c[i] == x;
      } else {
        var i :| 0 <= i < |b| && b[i] == x;
        assert c[|a| + i] == x;
      }
    }
  }

  /** One delete call per entry, in order. */
  predicate DeletesOf(calls: seq<Call>, prune: seq<(string, BackupEntry)>) {
    |calls| == |prune| && forall i :: 0 <= i < |prune| ==> calls[i] == DeleteSnapshot(prune[i].0)
  }

  /** The delete loop of `pruneBackups`: every selected snapshot is attempted,
      a failed delete is skipped without stopping the rest, and only the
      successful ones are counted and removed. */
  method DeleteSnapshots(cloud: Cloud, provider: Provider, prune: seq<(string, BackupEntry)>)
    returns (count: nat, after: Cloud, calls: seq<Call>)
    ensures DeletesOf(calls, prune)
    ensures count == |Deleted(prune, provider)| && count <= |prune|
    ensures after == cloud.(snapshots := Without(cloud.snapshots, Elements(Deleted(prune, provider))))
  {
    count, after, calls := 0, cloud, [];
    WithoutNothing(cloud.snapshots);
    assert prune[..0] == [];
    assert Elements(Deleted(prune[..0], provider)) == {};
    var i := 0;
    while i < |prune|
      invariant 0 <= i <= |prune|
      invariant DeletesOf(calls, prune[..i])
      invariant count == |Deleted(prune[..i], provider)|
      invariant after == cloud.(snapshots := Without(cloud.snapshots, Elements(Deleted(prune[..i], provider))))
    {
      var call := DeleteSnapshot(prune[i].0);
      DeleteStep(cloud, provider, prune, i);
      DeletesOfSnoc(calls, prune, i);
      calls := calls + [call];
      if !provider.fails(call) {
        after := Apply(after, provider, call);
        count := count + 1;
      }
      i := i + 1;
    }
    assert prune[..i] == prune;
  }

  lemma DeletesOfSnoc(calls: seq<Call>, prune: seq<(string, BackupEntry)>, i: nat)
    requires i < |prune| && DeletesOf(calls, prune[..i])
    ensures DeletesOf(calls + [DeleteSnapshot(prune[i].0)], prune[..i + 1])
  {
    var next := calls + [DeleteSnapshot(prune[i].0)];
    forall k | 0 <= k <= i ensures next[k] == DeleteSnapshot(prune[..i + 1][k].0) {
      if k < i {
        assert next[k] == calls[k] == DeleteSnapshot(prune[..i][k].0);
      }
    }
  }

  /** One turn of the delete loop: the next id joins the deleted ones exactly
      when its delete call succeeds. */
  lemma DeleteStep(cloud: Cloud, provider: Provider, prune: seq<(string, BackupEntry)>, i: nat)
    requires i < |prune|
    ensures var id := prune[i].0;
      var done := Deleted(prune[..i], provider);
      var next := Deleted(prune[..i + 1], provider);
      && (provider.fails(DeleteSnapshot(id)) ==> next == done)
      && (!provider.fails(DeleteSnapshot(id)) ==>
            |next| == |done| + 1 &&
            Without(Without(cloud.snapshots, Elements(done)), {id}) == Without(cloud.snapshots, Elements(next)))
  {
    var id := prune[i].0;
    var done := Deleted(prune[..i], provider);
    assert prune[..i + 1][..i] == prune[..i];
    if !provider.fails(DeleteSnapshot(id)) {
      var next := done + [id];
      assert next[..|next| - 1] == done;
      ElementsSnoc(next);
      WithoutWithout(cloud.snapshots, Elements(done), {id});
    }
  }

  /** The ids `pruneBackups` selects for deletion. */
  function PrunedIds(backups: seq<(string, BackupEntry)>, max: int): set<string>
    requires max >= 1
  {
    KeySet(PruneSelection(backups, max))
  }

  /** The shape of the calls `pruneBackups` makes: one listing of the
      volume's snapshots, then only deletes. */
  predicate ListThenDelete(calls: seq<Call>, volumeId: string) {
    |calls| >= 1 && calls[0] == DescribeSnapshots(volumeId) &&
    forall k :: 1 <= k < |calls| ==> calls[k].DeleteSnapshot?
  }

  /** `pruneBackups`: lists the volume's completed snapshots; when there are
      more than the retention count, tries to delete the oldest ones beyond
      it and returns how many deletes succeeded. */
  method PruneBackups(settings: Settings, cloud: Cloud, provider: Provider, volumeId: string)
    returns (count: nat, after: Cloud, calls: seq<Call>)
    requires settings.maxBackupCount >= 1
    ensures var backups := GetBackups(cloud, provider, volumeId);
      |backups| <= settings.maxBackupCount ==> count == 0 && after == cloud && calls == [DescribeSnapshots(volumeId)]
    ensures count == |Deleted(PruneSelection(GetBackups(cloud, provider, volumeId), settings.maxBackupCount), provider)|
    ensures var backups := GetBackups(cloud, provider, volumeId);
      count <= if |backups| <= settings.maxBackupCount then 0 else |backups| - settings.maxBackupCount
    ensures ListThenDelete(calls, volumeId)
    ensures DeletesOf(calls[1..], PruneSelection(GetBackups(cloud, provider, volumeId), settings.maxBackupCount))
    ensures calls == [DescribeSnapshots(volumeId)] + DeleteCalls(PruneSelection(GetBackups(cloud, provider, volumeId), settings.maxBackupCount))
    ensures after.volumes == cloud.volumes && after.tags == cloud.tags
    ensures forall s :: s in after.snapshots ==> s in cloud.snapshots
    ensures forall s :: s in cloud.snapshots && s.snapshotId !in PrunedIds(GetBackups(cloud, provider, volumeId), settings.maxBackupCount) ==>
      s in after.snapshots
    ensures var prune := PruneSelection(GetBackups(cloud, provider, volumeId), settings.maxBackupCount);
      after.snapshots == Without(cloud.snapshots, Elements(Deleted(prune, provider)))
  {
    var backups := GetBackups(cloud, provider, volumeId);
    var prune := PruneSelection(backups, settings.maxBackupCount);
    var deletes: seq<Call>;
    count, after, deletes := DeleteSnapshots(cloud, provider, prune);
    calls := [DescribeSnapshots(volumeId)] + deletes;
    ListingThenDeletes(volumeId, deletes, prune);
    DeletesOfUnique(deletes, prune);
    DeletedSelected(prune, provider);
    if |backups| <= settings.maxBackupCount {
      WithoutNothing(cloud.snapshots);
    }
  }

  /** A listing followed by one delete per selected entry. */
  lemma ListingThenDeletes(volumeId: string, deletes: seq<Call>, prune: seq<(string, BackupEntry)>)
    requires DeletesOf(deletes, prune)
    ensures ListThenDelete([DescribeSnapshots(volumeId)] + deletes, volumeId)
    ensures DeletesOf(([DescribeSnapshots(volumeId)] + deletes)[1..], prune)
  {
    var calls := [DescribeSnapshots(volumeId)] + deletes;
    assert calls[1..] == deletes;
    forall k | 1 <= k < |calls| ensures calls[k].DeleteSnapshot? {
      assert calls[k] == deletes[k - 1];
    }
  }

  /** The delete calls of a selection are determined by it. */
  lemma DeletesOfUnique(calls: seq<Call>, prune: seq<(string, BackupEntry)>)
    requires DeletesOf(calls, prune)
    ensures calls == DeleteCalls(prune)
  {
  }

  /** Only selected ids are deleted, so nothing else goes. */
  lemma DeletedSelected(prune: seq<(string, BackupEntry)>, provider: Provider)
    ensures Elements(Deleted(prune, provider)) <= KeySet(prune)
    ensures |prune| == 0 ==> Elements(Deleted(prune, provider)) == {}
  {
    forall x | x in Elements(Deleted(prune, provider)) ensures x in KeySet(prune) {
      var i :| 0 <= i < |prune| && prune[i].0 == x && !provider.fails(DeleteSnapshot(x));
    }
  }

  // ---------------------------------------------------------------------
  // backup

  /** The parameters of `backup()`: a missing key is `None`. */
  datatype BackupParams = BackupParams(volumeId: Option<string>, name: Option<string>)

  /** `sprintf('%s Backup %s', $name, date('Y-m-d'))`. */
  function Description(name: string, today: string): (r: string)
    ensures |r| == |name| + 8 + |today|
    ensures r[..|name|] == name && r[|name|..|name| + 8] == " Backup " && r[|name| + 8..] == today
  {
    name + " Backup " + today
  }

  /** The tags of a new snapshot: its name first, then the configured extra
      tags in their configured order. */
  function SnapshotTags(name: string, extra: seq<(string, string)>): (r: seq<(string, string)>)
    ensures |r| == |extra| + 1 && r[0] == ("Name", name) && r[1..] == extra
  {
    [("Name", name)] + extra
  }

  /** What `backup()` returns and leaves behind. */
  datatype Outcome = Outcome(ok: bool, cloud: Cloud, calls: seq<Call>)

  /** `backup()`: without a volume id nothing is called and the result is
      false; otherwise one create call, named after `name` or else the volume
      id, and the result is whether that call went through. */
  function Backup(cloud: Cloud, provider: Provider, params: BackupParams, extraTags: seq<(string, string)>): (r: Outcome)
    ensures params.volumeId.None? ==> !r.ok && r.calls == [] && r.cloud == cloud
    ensures params.volumeId.Some? ==>
      var name := params.name.GetOr(params.volumeId.value);
      && r.calls == [CreateSnapshot(params.volumeId.value, Description(name, provider.today), SnapshotTags(name, extraTags))]
      && (r.ok <==> !provider.fails(r.calls[0]))
    ensures r.cloud.volumes == cloud.volumes && r.cloud.tags == cloud.tags
    ensures !r.ok ==> r.cloud == cloud
    ensures r.ok ==> r.cloud.snapshots == cloud.snapshots + [Started(r.calls[0], provider)]
  {
    match params.volumeId
    case None => Outcome(false, cloud, [])
    case Some(volumeId) =>
      var name := params.name.GetOr(volumeId);
      var call := CreateSnapshot(volumeId, Description(name, provider.today), SnapshotTags(name, extraTags));
      var after := Apply(cloud, provider, call);
      assert !provider.fails(call) ==> after.snapshots == cloud.snapshots + [Started(call, provider)];
      Outcome(!provider.fails(call), after, [call])
  }

  // ---------------------------------------------------------------------
  // create

  /** The instance's name: its `Name` tag, or else its id; null when neither. */
  function BaseName(tags: seq<(string, string)>, instanceId: Scalar): Option<string>
    requires DistinctKeys(tags)
  {
    if "Name" in KeySet(tags) then Some(Get(tags, "Name"))
    else if instanceId.Null? then None
    else Some(AsString(instanceId))
  }

  /** The name a volume's snapshot gets: the instance's name, followed by the
      device in parentheses when the instance has more than one volume. */
  function VolumeName(tags: seq<(string, string)>, instanceId: Scalar, volume: VolumeInfo, volumeCount: nat): (r: Option<string>)
    requires DistinctKeys(tags)
    ensures volumeCount <= 1 ==> r == BaseName(tags, instanceId)
    ensures volumeCount > 1 ==> r.Some? && r.value == BaseName(tags, instanceId).GetOr("") + " (" + volume.device + ")"
  {
    var base := BaseName(tags, instanceId);
    if volumeCount > 1 then Some(base.GetOr("") + " (" + volume.device + ")") else base
  }

  /** With several volumes, volumes on different devices get different names. */
  lemma VolumeNamesDiffer(tags: seq<(string, string)>, instanceId: Scalar, a: VolumeInfo, b: VolumeInfo, volumeCount: nat)
    requires DistinctKeys(tags) && volumeCount > 1 && a.device != b.device
    ensures VolumeName(tags, instanceId, a, volumeCount) != VolumeName(tags, instanceId, b, volumeCount)
  {
    var p := BaseName(tags, instanceId).GetOr("") + " (";
    var x := VolumeName(tags, instanceId, a, volumeCount).value;
    var y := VolumeName(tags, instanceId, b, volumeCount).value;
    assert x == p + a.device + ")";
    assert y == p + b.device + ")";
    assert x[|p|..|x| - 1] == a.device;
    assert y[|p|..|y| - 1] == b.device;
  }

  /** A line of the run's log. */
  datatype Event =
    | Disabled
    | DetailsFailed(message: string)
    | WrongType
    | BackupStarted(volumeId: string, pruned: Option<nat>)
    | BackupFailed(volumeId: string, pruned: Option<nat>)

  /** What `create()` leaves behind: the machine-details state, the cloud,
      the calls made to it and the log. */
  datatype Run = Run(process: MachineDetails.Process, cloud: Cloud, calls: seq<Call>, events: seq<Event>)

  /** The snapshot starts among a list of calls, in order. */
  function Creates(calls: seq<Call>): seq<Call> {
    if |calls| == 0 then []
    else
      var last := calls[|calls| - 1];
      Creates(calls[..|calls| - 1]) + if last.CreateSnapshot? then [last] else []
  }

  lemma {:induction false} CreatesAppend(a: seq<Call>, b: seq<Call>)
    ensures Creates(a + b) == Creates(a) + Creates(b)
    decreases |b|
  {
    if |b| == 0 {
      assert a + b == a;
    } else {
      var n := |b| - 1;
      CreatesAppend(a, b[..n]);
      var c := a + b;
      var step := if b[n].CreateSnapshot? then [b[n]] else [];
      assert c[..|c| - 1] == a + b[..n];
      assert c[|c| - 1] == b[n];
      assert Creates(c) == Creates(a + b[..n]) + step;
      assert Creates(b) == Creates(b[..n]) + step;
    }
  }

  /** The snapshot `create()` starts for each volume, in the listed order:
      named after the volume's name, or else the volume id. */
  function PlannedCreates(
    volumes: seq<(string, VolumeInfo)>, tags: seq<(string, string)>, instanceId: Scalar,
    today: string, extraTags: seq<(string, string)>): seq<Call>
    requires DistinctKeys(tags)
  {
    seq(|volumes|, k requires 0 <= k < |volumes| =>
      var title := VolumeName(tags, instanceId, volumes[k].1, |volumes|).GetOr(volumes[k].0);
      CreateSnapshot(volumes[k].0, Description(title, today), SnapshotTags(title, extraTags)))
  }

  /** One delete call per selected entry, in order. */
  function DeleteCalls(prune: seq<(string, BackupEntry)>): (r: seq<Call>)
    ensures DeletesOf(r, prune)
  {
    seq(|prune|, k requires 0 <= k < |prune| => DeleteSnapshot(prune[k].0))
  }

  /** Every snapshot is started only after the volume's snapshots were listed. */
  predicate PrunedBeforeCreate(calls: seq<Call>) {
    forall i :: 0 <= i < |calls| && calls[i].CreateSnapshot? ==> DescribeSnapshots(calls[i].volumeId) in calls[..i]
  }

  /** No snapshot is listed or deleted. */
  predicate NoPruneCalls(calls: seq<Call>) {
    forall i :: 0 <= i < |calls| ==> !calls[i].DescribeSnapshots? && !calls[i].DeleteSnapshot?
  }

  /** The volume id a backup event is about. */
  function EventVolume(e: Event): string {
    if e.BackupStarted? || e.BackupFailed? then e.volumeId else ""
  }

  /** `create()`: unless disabled and not forced, resolve the machine details;
      on EC2 list the instance's volumes and tags, then per volume prune
      (unless told not to) and start a snapshot. */
  method Create(
    settings: Settings, options: Options,
    process: MachineDetails.Process, env: map<string, string>, probe: MachineDetails.Probe,
    cloud: Cloud, provider: Provider, extraTags: seq<(string, string)>)
    returns (run: Run)
    requires settings.maxBackupCount >= 1
    ensures !settings.enable && !options.force ==> run == Run(process, cloud, [], [Disabled])
    ensures var d := MachineDetails.GetDetails(process, env, probe);
      (settings.enable || options.force) && d.details.Failure? ==>
        run == Run(d.process, cloud, [], [DetailsFailed(d.details.error)])
    ensures var d := MachineDetails.GetDetails(process, env, probe);
      (settings.enable || options.force) && d.details.Success? && MachineDetails.Field(d.details.value, "type") != Str("ec2") ==>
        run == Run(d.process, cloud, [], [WrongType])
    ensures var d := MachineDetails.GetDetails(process, env, probe);
      (settings.enable || options.force) && d.details.Success? && MachineDetails.Field(d.details.value, "type") == Str("ec2") ==>
        run.process == d.process &&
        InstanceBackedUp(settings, options, cloud, provider, MachineDetails.Field(d.details.value, "instanceId"), extraTags, run.calls, run.events)
    ensures run.cloud.volumes == cloud.volumes && run.cloud.tags == cloud.tags
  {
    if !settings.enable && !options.force {
      return Run(process, cloud, [], [Disabled]);
    }
    var d := MachineDetails.GetDetails(process, env, probe);
    if d.details.Failure? {
      return Run(d.process, cloud, [], [DetailsFailed(d.details.error)]);
    }
    var machine := d.details.value;
    if MachineDetails.Field(machine, "type") != Str("ec2") {
      return Run(d.process, cloud, [], [WrongType]);
    }
    var after, calls, events := BackUpInstance(settings, options, cloud, provider, MachineDetails.Field(machine, "instanceId"), extraTags);
    run := Run(d.process, after, calls, events);
  }

  /** What `create()` does on EC2, in terms of the instance's volumes and
      tags as `getVolumes` and `getTags` report them: it lists the volumes,
      then the tags, and then backs up the volumes one by one. */
  predicate InstanceBackedUp(
    settings: Settings, options: Options, cloud: Cloud, provider: Provider, instanceId: Scalar,
    extraTags: seq<(string, string)>, calls: seq<Call>, events: seq<Event>)
  {
    var volumes := GetVolumes(cloud, provider, instanceId);
    var tags := GetTags(cloud, provider, instanceId);
    && |calls| >= 2 && calls[..2] == [DescribeVolumes(instanceId), DescribeTags(instanceId)]
    && VolumesBackedUp(options, volumes, PlannedCreates(volumes, tags, instanceId, provider.today, extraTags), calls, events)
  }

  /** The loop over the volumes: exactly the planned snapshots are started,
      one per volume in the listed order, with one log line per volume;
      nothing is pruned when told not to, and otherwise a volume's snapshots
      are listed before a new one is started. */
  predicate VolumesBackedUp(
    options: Options, volumes: seq<(string, VolumeInfo)>, planned: seq<Call>, calls: seq<Call>, events: seq<Event>)
  {
    && Creates(calls) == planned
    && |events| == |volumes|
    && (forall k :: 0 <= k < |volumes| ==> EventVolume(events[k]) == volumes[k].0)
    && (options.noPrune ==> NoPruneCalls(calls))
    && (!options.noPrune ==> PrunedBeforeCreate(calls))
  }

  /** `create()` once the machine is known to be an EC2 instance. */
  method BackUpInstance(
    settings: Settings, options: Options, cloud: Cloud, provider: Provider, instanceId: Scalar,
    extraTags: seq<(string, string)>)
    returns (after: Cloud, calls: seq<Call>, events: seq<Event>)
    requires settings.maxBackupCount >= 1
    ensures InstanceBackedUp(settings, options, cloud, provider, instanceId, extraTags, calls, events)
    ensures after.volumes == cloud.volumes && after.tags == cloud.tags
  {
    var volumes := GetVolumes(cloud, provider, instanceId);
    var tags := GetTags(cloud, provider, instanceId);
    after, calls, events := BackUpListed(settings, options, cloud, provider, instanceId, volumes, tags, extraTags);
  }

  /** `create()` once the volumes and tags are listed. */
  method BackUpListed(
    settings: Settings, options: Options, cloud: Cloud, provider: Provider, instanceId: Scalar,
    volumes: seq<(string, VolumeInfo)>, tags: seq<(string, string)>, extraTags: seq<(string, string)>)
    returns (after: Cloud, calls: seq<Call>, events: seq<Event>)
    requires settings.maxBackupCount >= 1 && DistinctKeys(tags)
    requires forall k :: 0 <= k < |volumes| ==> volumes[k].1.volumeId == volumes[k].0
    ensures |calls| >= 2 && calls[..2] == [DescribeVolumes(instanceId), DescribeTags(instanceId)]
    ensures VolumesBackedUp(options, volumes, PlannedCreates(volumes, tags, instanceId, provider.today, extraTags), calls, events)
    ensures after.volumes == cloud.volumes && after.tags == cloud.tags
  {
    var rest;
    after, rest, events := BackUpVolumes(settings, options, cloud, provider, instanceId, volumes, tags, extraTags);
    var head := [DescribeVolumes(instanceId), DescribeTags(instanceId)];
    ListingFirstKeeps(head, rest, options, volumes, PlannedCreates(volumes, tags, instanceId, provider.today, extraTags), events);
    calls := head + rest;
  }

  lemma ListingFirstKeeps(
    head: seq<Call>, calls: seq<Call>, options: Options, volumes: seq<(string, VolumeInfo)>,
    planned: seq<Call>, events: seq<Event>)
    requires forall i :: 0 <= i < |head| ==> head[i].DescribeVolumes? || head[i].DescribeTags?
    requires VolumesBackedUp(options, volumes, planned, calls, events)
    ensures (head + calls)[..|head|] == head
    ensures VolumesBackedUp(options, volumes, planned, head + calls, events)
  {
    ListingFirst(head, calls);
  }

  /** Listing the volumes and tags first adds no snapshot and breaks no order. */
  lemma ListingFirst(head: seq<Call>, calls: seq<Call>)
    requires forall i :: 0 <= i < |head| ==> head[i].DescribeVolumes? || head[i].DescribeTags?
    ensures (head + calls)[..|head|] == head
    ensures Creates(head + calls) == Creates(calls)
    ensures NoPruneCalls(calls) ==> NoPruneCalls(head + calls)
    ensures PrunedBeforeCreate(calls) ==> PrunedBeforeCreate(head + calls)
  {
    NoCreates(head);
    CreatesAppend(head, calls);
    if PrunedBeforeCreate(calls) {
      ListingFirstKeepsOrder(head, calls);
    }
  }

  lemma ListingFirstKeepsOrder(head: seq<Call>, calls: seq<Call>)
    requires forall i :: 0 <= i < |head| ==> !head[i].CreateSnapshot?
    requires PrunedBeforeCreate(calls)
    ensures PrunedBeforeCreate(head + calls)
  {
    var all := head + calls;
    forall i | 0 <= i < |all| && all[i].CreateSnapshot? ensures DescribeSnapshots(all[i].volumeId) in all[..i] {
      var j := i - |head|;
      assert all[i] == calls[j];
      assert DescribeSnapshots(calls[j].volumeId) in calls[..j];
      assert all[..i] == head + calls[..j];
    }
  }

  /** The loop of `create()` over the instance's volumes: for each in turn,
      prune unless told not to, then start a snapshot under the volume's
      name, and log the outcome. */
  method BackUpVolumes(
    settings: Settings, options: Options, cloud: Cloud, provider: Provider, instanceId: Scalar,
    volumes: seq<(string, VolumeInfo)>, tags: seq<(string, string)>, extraTags: seq<(string, string)>)
    returns (after: Cloud, calls: seq<Call>, events: seq<Event>)
    requires settings.maxBackupCount >= 1 && DistinctKeys(tags)
    requires forall k :: 0 <= k < |volumes| ==> volumes[k].1.volumeId == volumes[k].0
    ensures VolumesBackedUp(options, volumes, PlannedCreates(volumes, tags, instanceId, provider.today, extraTags), calls, events)
    ensures after.volumes == cloud.volumes && after.tags == cloud.tags
  {
    var planned := PlannedCreates(volumes, tags, instanceId, provider.today, extraTags);
    after, calls, events := cloud, [], [];
    var i := 0;
    while i < |volumes|
      invariant 0 <= i <= |volumes|
      invariant Creates(calls) == planned[..i]
      invariant |events| == i
      invariant forall k :: 0 <= k < i ==> EventVolume(events[k]) == volumes[k].0
      invariant options.noPrune ==> NoPruneCalls(calls)
      invariant !options.noPrune ==> PrunedBeforeCreate(calls)
      invariant after.volumes == cloud.volumes && after.tags == cloud.tags
    {
      var volume := volumes[i].1;
      var name := VolumeName(tags, instanceId, volume, |volumes|);
      assert volume.volumeId == volumes[i].0;
      var pruneCalls, create, event;
      after, pruneCalls, create, event := BackUpVolume(settings, options, after, provider, volume.volumeId, name, extraTags);
      StepKeepsOrder(calls, pruneCalls, create, volume.volumeId, options.noPrune);
      EventsSnoc(volumes, events, event, i);
      PlannedStep(volumes, tags, instanceId, provider.today, extraTags, i);
      calls := calls + pruneCalls + [create];
      events := events + [event];
      i := i + 1;
    }
    assert planned[..i] == planned;
  }

  /** The planned start for the next volume extends the planned ones before it. */
  lemma PlannedStep(
    volumes: seq<(string, VolumeInfo)>, tags: seq<(string, string)>, instanceId: Scalar,
    today: string, extraTags: seq<(string, string)>, i: nat)
    requires DistinctKeys(tags) && i < |volumes|
    ensures var planned := PlannedCreates(volumes, tags, instanceId, today, extraTags);
      var title := VolumeName(tags, instanceId, volumes[i].1, |volumes|).GetOr(volumes[i].0);
      planned[..i + 1] == planned[..i] + [CreateSnapshot(volumes[i].0, Description(title, today), SnapshotTags(title, extraTags))]
  {
    var planned := PlannedCreates(volumes, tags, instanceId, today, extraTags);
    assert planned[..i + 1] == planned[..i] + [planned[i]];
  }

  /** One turn of that loop: prune the volume's backups unless told not to,
      then start its snapshot; the event says whether the start went through
      and, when pruning ran, carries the number of deletes that succeeded. */
  method BackUpVolume(
    settings: Settings, options: Options, cloud: Cloud, provider: Provider,
    volumeId: string, name: Option<string>, extraTags: seq<(string, string)>)
    returns (after: Cloud, pruneCalls: seq<Call>, create: Call, event: Event)
    requires settings.maxBackupCount >= 1
    ensures var title := name.GetOr(volumeId);
      create == CreateSnapshot(volumeId, Description(title, provider.today), SnapshotTags(title, extraTags))
    ensures options.noPrune ==> pruneCalls == [] && after == Apply(cloud, provider, create)
    ensures !options.noPrune ==> ListThenDelete(pruneCalls, volumeId)
    ensures (event.BackupStarted? || event.BackupFailed?) && EventVolume(event) == volumeId
    ensures event.BackupStarted? <==> !provider.fails(create)
    ensures event.pruned.None? <==> options.noPrune
    ensures !options.noPrune ==>
      var prune := PruneSelection(GetBackups(cloud, provider, volumeId), settings.maxBackupCount);
      && pruneCalls == [DescribeSnapshots(volumeId)] + DeleteCalls(prune)
      && event.pruned == Some(|Deleted(prune, provider)|)
      && after == Apply(cloud.(snapshots := Without(cloud.snapshots, Elements(Deleted(prune, provider)))), provider, create)
    ensures after.volumes == cloud.volumes && after.tags == cloud.tags
  {
    var pruned: Option<nat> := None;
    after, pruneCalls := cloud, [];
    if !options.noPrune {
      var count: nat;
      count, after, pruneCalls := PruneBackups(settings, cloud, provider, volumeId);
      pruned := Some(count);
    }
    var outcome := Backup(after, provider, BackupParams(Some(volumeId), name), extraTags);
    create := outcome.calls[0];
    after := outcome.cloud;
    event := if outcome.ok then BackupStarted(volumeId, pruned) else BackupFailed(volumeId, pruned);
  }

  /** One more log line, for the next volume. */
  lemma EventsSnoc(volumes: seq<(string, VolumeInfo)>, events: seq<Event>, event: Event, i: nat)
    requires i < |volumes| && |events| == i && EventVolume(event) == volumes[i].0
    requires forall k :: 0 <= k < i ==> EventVolume(events[k]) == volumes[k].0
    ensures forall k :: 0 <= k < i + 1 ==> EventVolume((events + [event])[k]) == volumes[k].0
  {
  }

  /** One volume's calls, a prune then a create, extend the run's calls
      without breaking its order properties. */
  lemma StepKeepsOrder(calls: seq<Call>, pruneCalls: seq<Call>, create: Call, volumeId: string, noPrune: bool)
    requires create.CreateSnapshot? && create.volumeId == volumeId
    requires noPrune ==> pruneCalls == []
    requires !noPrune ==> ListThenDelete(pruneCalls, volumeId)
    requires noPrune ==> NoPruneCalls(calls)
    requires !noPrune ==> PrunedBeforeCreate(calls)
    ensures Creates(calls + pruneCalls + [create]) == Creates(calls) + [create]
    ensures noPrune ==> NoPruneCalls(calls + pruneCalls + [create])
    ensures !noPrune ==> PrunedBeforeCreate(calls + pruneCalls + [create])
  {
    StepCreates(calls, pruneCalls, create);
    if noPrune {
      assert calls + pruneCalls + [create] == calls + [create];
    } else {
      StepListsFirst(calls, pruneCalls, create, volumeId);
    }
  }

  /** Prune calls start nothing, so one turn adds exactly its create. */
  lemma StepCreates(calls: seq<Call>, pruneCalls: seq<Call>, create: Call)
    requires create.CreateSnapshot?
    requires forall i :: 0 <= i < |pruneCalls| ==> !pruneCalls[i].CreateSnapshot?
    ensures Creates(calls + pruneCalls + [create]) == Creates(calls) + [create]
  {
    CreatesAppend(calls, pruneCalls);
    CreatesAppend(calls + pruneCalls, [create]);
    assert Creates([create]) == [create] by {
      assert [create][..0] == [];
    }
    NoCreates(pruneCalls);
  }

  /** A turn that lists the volume's snapshots before its create keeps every
      create preceded by its volume's listing. */
  lemma StepListsFirst(calls: seq<Call>, pruneCalls: seq<Call>, create: Call, volumeId: string)
    requires create.CreateSnapshot? && create.volumeId == volumeId
    requires ListThenDelete(pruneCalls, volumeId)
    requires PrunedBeforeCreate(calls)
    ensures PrunedBeforeCreate(calls + pruneCalls + [create])
  {
    var all := calls + pruneCalls + [create];
    forall i | 0 <= i < |all| && all[i].CreateSnapshot? ensures DescribeSnapshots(all[i].volumeId) in all[..i] {
      if i < |calls| {
        assert all[i] == calls[i];
        assert all[..i] == calls[..i];
      } else {
        assert all[|calls|] == DescribeSnapshots(volumeId);
      }
    }
  }

  lemma {:induction false} NoCreates(calls: seq<Call>)
    requires forall i :: 0 <= i < |calls| ==> !calls[i].CreateSnapshot?
    ensures Creates(calls) == []
  {
    if |calls| > 0 {
      NoCreates(calls[..|calls| - 1]);
    }
  }
}
