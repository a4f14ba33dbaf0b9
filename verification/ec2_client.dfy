/** The part of the EC2 service the backup tool talks to, as an abstract
    state: the volumes with their attachments, the resource tags and the
    snapshots, each listed in the order the service reports them. Which calls
    throw, the id a new snapshot gets, the clock and today's date come from a
    `Provider` the model does not look into. */
module Ec2Client {
  import opened Php

  datatype Attachment = Attachment(instanceId: string, device: string)

  datatype Volume = Volume(volumeId: string, attachments: seq<Attachment>)

  datatype Tag = Tag(resourceId: string, key: string, value: string)

  /** A snapshot; `started` is the start time as a number, later being larger. */
  datatype Snapshot = Snapshot(
    snapshotId: string,
    volumeId: string,
    state: string,
    started: int,
    description: string,
    tags: seq<(string, string)>)

  datatype Cloud = Cloud(volumes: seq<Volume>, tags: seq<Tag>, snapshots: seq<Snapshot>)

  /** A call the tool makes, with the arguments that matter. The instance id
      is whatever the machine-details record holds, null included. */
  datatype Call =
    | DescribeVolumes(instanceId: Scalar)
    | DescribeTags(resourceId: Scalar)
    | DescribeSnapshots(volumeId: string)
    | DeleteSnapshot(snapshotId: string)
    | CreateSnapshot(volumeId: string, description: string, snapshotTags: seq<(string, string)>)

  /** The outside world: whether a call throws, the id the service gives a
      new snapshot, the current time and today's date as `Y-m-d`. */
  datatype Provider = Provider(fails: Call -> bool, newSnapshotId: Call -> string, now: int, today: string)

  // ---------------------------------------------------------------------
  // The describe filters

  /** The elements of a list that satisfy `p`, in order. */
  function Filter<T>(s: seq<T>, p: T -> bool): (r: seq<T>)
    ensures |r| <= |s|
    ensures forall i :: 0 <= i < |r| ==> r[i] in s && p(r[i])
    ensures forall i :: 0 <= i < |s| && p(s[i]) ==> s[i] in r
  {
    if |s| == 0 then []
    else
      assert s == [s[0]] + s[1..];
      (if p(s[0]) then [s[0]] else []) + Filter(s[1..], p)
  }

  /** `attachment.instance-id`: some attachment of the volume is to the instance. */
  predicate AttachedTo(v: Volume, instanceId: Scalar) {
    exists i :: 0 <= i < |v.attachments| && Str(v.attachments[i].instanceId) == instanceId
  }

  /** The volumes a describe call for the instance lists, in order. */
  function VolumesOf(cloud: Cloud, instanceId: Scalar): (r: seq<Volume>)
    ensures forall i :: 0 <= i < |r| ==> r[i] in cloud.volumes && AttachedTo(r[i], instanceId)
    ensures forall v :: v in cloud.volumes && AttachedTo(v, instanceId) ==> v in r
  {
    var r := Filter(cloud.volumes, (v: Volume) => AttachedTo(v, instanceId));
    forall v | v in cloud.volumes && AttachedTo(v, instanceId) ensures v in r {
      var i :| 0 <= i < |cloud.volumes| && cloud.volumes[i] == v;
    }
    r
  }

  /** The tags a describe call for the resource lists, in order. */
  function TagsOf(cloud: Cloud, resourceId: Scalar): (r: seq<Tag>)
    ensures forall i :: 0 <= i < |r| ==> r[i] in cloud.tags && Str(r[i].resourceId) == resourceId
    ensures forall t :: t in cloud.tags && Str(t.resourceId) == resourceId ==> t in r
  {
    var r := Filter(cloud.tags, (t: Tag) => Str(t.resourceId) == resourceId);
    forall t | t in cloud.tags && Str(t.resourceId) == resourceId ensures t in r {
      var i :| 0 <= i < |cloud.tags| && cloud.tags[i] == t;
    }
    r
  }

  /** The snapshots a describe call for the volume lists, in order. */
  function SnapshotsOf(cloud: Cloud, volumeId: string): (r: seq<Snapshot>)
    ensures forall i :: 0 <= i < |r| ==> r[i] in cloud.snapshots && r[i].volumeId == volumeId
    ensures forall s :: s in cloud.snapshots && s.volumeId == volumeId ==> s in r
  {
    var r := Filter(cloud.snapshots, (s: Snapshot) => s.volumeId == volumeId);
    forall s | s in cloud.snapshots && s.volumeId == volumeId ensures s in r {
      var i :| 0 <= i < |cloud.snapshots| && cloud.snapshots[i] == s;
    }
    r
  }

  // ---------------------------------------------------------------------
  // The effects of the two calls that change the state

  /** The snapshots whose ids are not in `ids`, in order. */
  function Without(snapshots: seq<Snapshot>, ids: set<string>): (r: seq<Snapshot>)
    ensures |r| <= |snapshots|
    ensures forall s :: s in r <==> s in snapshots && s.snapshotId !in ids
  {
    if |snapshots| == 0 then []
    else
      assert snapshots == [snapshots[0]] + snapshots[1..];
      (if snapshots[0].snapshotId in ids then [] else [snapshots[0]]) + Without(snapshots[1..], ids)
  }

  /** Removing two sets of ids one after the other removes their union. */
  lemma {:induction false} WithoutWithout(snapshots: seq<Snapshot>, a: set<string>, b: set<string>)
    ensures Without(Without(snapshots, a), b) == Without(snapshots, a + b)
  {
    if |snapshots| > 0 {
      var x, t := snapshots[0], snapshots[1..];
      WithoutWithout(t, a, b);
      var once := Without(snapshots, a);
      if x.snapshotId in a {
        assert once == Without(t, a);
      } else {
        assert once == [x] + Without(t, a);
        assert once[0] == x && once[1..] == Without(t, a);
      }
    }
  }

  lemma WithoutNothing(snapshots: seq<Snapshot>)
    ensures Without(snapshots, {}) == snapshots
  {
  }

  /** The snapshot a successful create call starts: pending, stamped now. */
  function Started(call: Call, provider: Provider): Snapshot
    requires call.CreateSnapshot?
  {
    Snapshot(provider.newSnapshotId(call), call.volumeId, "pending", provider.now, call.description, call.snapshotTags)
  }

  /** The state after a call: a failed call changes nothing, a delete removes
      the snapshot, a create appends a pending one, a describe only reads. */
  function Apply(cloud: Cloud, provider: Provider, call: Call): (r: Cloud)
    ensures r.volumes == cloud.volumes && r.tags == cloud.tags
    ensures provider.fails(call) || call.DescribeVolumes? || call.DescribeTags? || call.DescribeSnapshots? ==> r == cloud
    ensures !provider.fails(call) && call.DeleteSnapshot? ==>
      forall s :: s in r.snapshots <==> s in cloud.snapshots && s.snapshotId != call.snapshotId
    ensures !provider.fails(call) && call.CreateSnapshot? ==>
      |r.snapshots| == |cloud.snapshots| + 1 && r.snapshots[..|cloud.snapshots|] == cloud.snapshots &&
      r.snapshots[|cloud.snapshots|] == Started(call, provider)
  {
    if provider.fails(call) then cloud
    else
      match call
      case DeleteSnapshot(id) => cloud.(snapshots := Without(cloud.snapshots, {id}))
      case CreateSnapshot(_, _, _) => cloud.(snapshots := cloud.snapshots + [Started(call, provider)])
      case _ => cloud
  }
}
