/** Laws of the node calls: a successful call has reached its goal, repeating it changes nothing,
    and the four calls of a volume's life on a node undo each other. */
module NodeLaws {
  import opened NodeMachine
  import opened NodeSpec
  import opened Options
  import opened PublishContext

  ghost predicate AllSucceed(ok: Oracle) {
    forall pc: Pc :: pc in ok
  }

  /** What each call is for, as a condition on the tables alone: after stage the staging path, and
      after publish the target, shows this volume's own disk. */
  ghost predicate Goal(os: Os, req: Request) {
    var d := DeviceOf(req.volume);
    match req.op
    case Stage =>
      && d in os.attached
      && (!req.block ==>
            && req.staging in os.mounts && os.mounts[req.staging] == Disk(d)
            && req.staging in os.paths && os.paths[req.staging] == Directory
            && Format(os, d) != "" && (req.fsType == "" || Format(os, d) == req.fsType))
    case Unstage => d !in os.attached && req.staging in os.paths && req.staging !in os.mounts
    case Publish =>
      && req.target in os.mounts && os.mounts[req.target] == Disk(d)
      && req.target in os.paths && os.paths[req.target] == (if req.block then File else Directory)
    case Unpublish => req.target !in os.paths && req.target !in os.mounts
    case Expand => d in os.attached
  }

  /** Every mount point is an existing path, as on any host. */
  ghost predicate MountPointsExist(os: Os) {
    os.mounts.Keys <= os.paths.Keys
  }

  /** A disk shown at a directory carries a filesystem, as on any host. */
  ghost predicate ShownDisksAreFormatted(os: Os) {
    forall path | path in os.mounts && path in os.paths && os.paths[path] == Directory && os.mounts[path].Disk? ::
      Format(os, os.mounts[path].device) != ""
  }

  ghost predicate IsHost(os: Os) {
    MountPointsExist(os) && ShownDisksAreFormatted(os)
  }

  /** Every call, whatever fails in it, leaves a host a host. */
  lemma CallKeepsHost(os: Os, locks: set<VolumeId>, req: Request, ok: Oracle)
    requires IsHost(os)
    ensures IsHost(Call(os, locks, req, ok).os)
  {
    match req.op
    case Stage => StageKeepsHost(os, req, ok);
    case Unstage =>
    case Publish => PublishKeepsHost(os, req, ok);
    case Unpublish =>
    case Expand =>
  }

  lemma MountKeepsHost(os: Os, d: Device, staging: Path, fsType: string, ok: Oracle)
    requires IsHost(os) && fsType != ""
    ensures IsHost(MountSection(os, d, staging, fsType, ok).os)
  {
  }

  lemma StageKeepsHost(os: Os, req: Request, ok: Oracle)
    requires IsHost(os)
    ensures IsHost(StageSection(os, req, ok).os)
  {
    var d := DeviceOf(req.volume);
    var found := os.(attached := os.attached + {d});
    var resolution := ResolveFsType(req.fsType, Format(os, d));
    if resolution.Resolved? {
      var ready := Preformatted(found, d, Format(os, d), resolution.fsType, ok);
      assert IsHost(ready);
      MountKeepsHost(ready, d, req.staging, resolution.fsType, ok);
    }
  }

  lemma MountTargetKeepsHost(os: Os, req: Request, ok: Oracle)
    requires IsHost(os) && req.target in os.paths && req.target !in os.mounts
    ensures IsHost(MountTargetSection(os, req, ok).os)
  {
  }

  lemma PublishKeepsHost(os: Os, req: Request, ok: Oracle)
    requires IsHost(os)
    ensures IsHost(PublishSection(os, req, ok).os)
  {
    if req.target in os.paths {
      if req.target !in os.mounts {
        MountTargetKeepsHost(os, req, ok);
      }
    } else {
      var made := os.(paths := os.paths[req.target := if req.block then File else Directory]);
      assert IsHost(made);
      MountTargetKeepsHost(made, req, ok);
    }
  }

  // ---------- when success misses the goal ----------

  /** The staging path shows something else already. */
  predicate StagingTaken(os: Os, req: Request) {
    && req.op == Stage && !req.block
    && req.staging in os.mounts && os.mounts[req.staging] != Disk(DeviceOf(req.volume))
  }

  /** The target shows something else already. */
  predicate TargetTaken(os: Os, req: Request) {
    req.op == Publish && req.target in os.mounts && os.mounts[req.target] != Disk(DeviceOf(req.volume))
  }

  /** A filesystem publish from a staging path that does not show the volume. */
  predicate NotStaged(os: Os, req: Request) {
    && req.op == Publish && !req.block
    && req.target !in os.mounts && Shown(os, req.staging) != Disk(DeviceOf(req.volume))
  }

  /** A raw block publish that gets as far as the device mount, and the mount fails. */
  predicate BlockMountFails(os: Os, req: Request, ok: Oracle) {
    && req.op == Publish && req.block && req.target !in os.mounts
    && (BlockMounting !in ok || (req.target in os.paths && os.paths[req.target] == Directory))
  }

  /** Whichever commands fail on the way, success means that the goal is reached, except in exactly
      four cases that can be seen before the call or in its last command: the staging path or the
      target was taken, the volume was not staged where it is published from, or the mount error of
      a raw block volume was dropped. */
  lemma SuccessReachesGoal(os: Os, locks: set<VolumeId>, req: Request, ok: Oracle)
    requires IsHost(os)
    requires Call(os, locks, req, ok).code == Success
    ensures Goal(Call(os, locks, req, ok).os, req) <==>
            !(StagingTaken(os, req) || TargetTaken(os, req) || NotStaged(os, req) || BlockMountFails(os, req, ok))
  {
    match req.op
    case Stage => StageReachesGoal(os, locks, req, ok);
    case Unstage =>
    case Publish => PublishReachesGoal(os, locks, req, ok);
    case Unpublish =>
    case Expand =>
  }

  /** A mounter that succeeds has mounted the disk, with the filesystem it carried or a new one. */
  lemma MountSucceeds(os: Os, d: Device, staging: Path, fsType: string, ok: Oracle)
    requires fsType != "" && (Format(os, d) != "" ==> Format(os, d) == fsType)
    requires MountSection(os, d, staging, fsType, ok).code == Success
    ensures
      var after := MountSection(os, d, staging, fsType, ok).os;
      && staging in after.mounts && after.mounts[staging] == Disk(d) && Format(after, d) == fsType
      && after.attached == os.attached && after.paths == os.paths
      && staging in os.paths && os.paths[staging] == Directory
  {
  }

  lemma StageReachesGoal(os: Os, locks: set<VolumeId>, req: Request, ok: Oracle)
    requires IsHost(os) && req.op == Stage
    requires Call(os, locks, req, ok).code == Success
    ensures Goal(Call(os, locks, req, ok).os, req) <==> !StagingTaken(os, req)
  {
    if !req.block && req.staging !in os.mounts {
      FreshStage(os, req, ok);
    }
  }

  lemma FreshStage(os: Os, req: Request, ok: Oracle)
    requires !req.block && req.staging !in os.mounts
    requires StageSection(os, req, ok).code == Success
    ensures
      var d := DeviceOf(req.volume);
      var after := StageSection(os, req, ok).os;
      && req.staging in after.mounts && after.mounts[req.staging] == Disk(d)
      && Format(after, d) != "" && (req.fsType == "" || Format(after, d) == req.fsType)
      && d in after.attached && after.paths == os.paths
      && req.staging in os.paths && os.paths[req.staging] == Directory
  {
    var d := DeviceOf(req.volume);
    var found := os.(attached := os.attached + {d});
    var resolution := ResolveFsType(req.fsType, Format(os, d));
    if resolution.Resolved? {
      var ready := Preformatted(found, d, Format(os, d), resolution.fsType, ok);
      assert Format(ready, d) != "" ==> Format(ready, d) == resolution.fsType;
      MountSucceeds(ready, d, req.staging, resolution.fsType, ok);
    }
  }

  lemma PublishReachesGoal(os: Os, locks: set<VolumeId>, req: Request, ok: Oracle)
    requires IsHost(os) && req.op == Publish
    requires Call(os, locks, req, ok).code == Success
    ensures Goal(Call(os, locks, req, ok).os, req) <==>
            !(TargetTaken(os, req) || NotStaged(os, req) || BlockMountFails(os, req, ok))
  {
  }

  // ---------- each of the four cases happens ----------

  /** With every command working, a stage reports success on a path that another disk is mounted
      on; the volume's own disk is blank and shown nowhere. */
  lemma StageAcceptsForeignMount(volume: VolumeId, other: Device, context: Option<Info>, ok: Oracle)
    requires volume != "" && other != DeviceOf(volume) && ValidContext(context) && AllSucceed(ok)
    ensures
      var os := Os(map[other := "ext4"], {other}, map["staging" := Disk(other)], map["staging" := Directory]);
      var req := Request(Stage, volume, false, "", "staging", "", context);
      && IsHost(os) && StagingTaken(os, req)
      && Call(os, {}, req, ok) == Result(os.(attached := {other, DeviceOf(volume)}), Success)
      && Format(os, DeviceOf(volume)) == ""
  {
  }

  /** With every command working, a publish reports success on a target that shows another disk. */
  lemma PublishAcceptsForeignTarget(volume: VolumeId, other: Device, ok: Oracle)
    requires volume != "" && other != DeviceOf(volume) && AllSucceed(ok)
    ensures
      var os := Os(map[other := "ext4"], {other}, map["target" := Disk(other)], map["target" := Directory]);
      var req := Request(Publish, volume, false, "", "staging", "target", None);
      && IsHost(os) && TargetTaken(os, req)
      && Call(os, {}, req, ok) == Result(os, Success)
  {
  }

  /** With every command working, a publish of a volume that was never staged and has no device
      reports success, and binds the empty staging directory. */
  lemma PublishBindsUnstagedDirectory(volume: VolumeId, ok: Oracle)
    requires volume != "" && AllSucceed(ok)
    ensures
      var os := Os(map[], {}, map[], map["staging" := Directory]);
      var req := Request(Publish, volume, false, "", "staging", "target", None);
      && IsHost(os) && NotStaged(os, req)
      && Call(os, {}, req, ok)
         == Result(os.(paths := os.paths["target" := Directory], mounts := map["target" := Plain("staging")]), Success)
  {
  }

  /** A block publish that reports success with nothing mounted. */
  lemma BlockPublishReportsSuccessUnmounted(volume: VolumeId, target: Path)
    requires volume != "" && target != ""
    ensures
      var os := Os(map[], {DeviceOf(volume)}, map[], map[]);
      var req := Request(Publish, volume, true, "", "staging", target, None);
      && IsHost(os) && BlockMountFails(os, req, {MakingTarget, FindingForBlock})
      && Call(os, {}, req, {MakingTarget, FindingForBlock})
         == Result(os.(paths := map[target := File]), Success)
  {
  }

  // ---------- repeating a call ----------

  /** The tables leave the call nothing to do. It looks at mount points only, not at what they show. */
  ghost predicate Settled(os: Os, req: Request) {
    var d := DeviceOf(req.volume);
    match req.op
    case Stage =>
      && d in os.attached
      && (!req.block ==>
            && (req.fsType == "" || Format(os, d) == "" || Format(os, d) == req.fsType)
            && req.staging in os.mounts && req.staging in os.paths && os.paths[req.staging] == Directory)
    case Unstage => d !in os.attached && req.staging in os.paths && req.staging !in os.mounts
    case Publish =>
      && req.target in os.mounts && req.target in os.paths
      && os.paths[req.target] == (if req.block then File else Directory)
    case Unpublish => req.target !in os.paths
    case Expand => d in os.attached
  }

  /** A successful call leaves nothing to do, but for the block mount whose error was dropped. */
  lemma SuccessSettles(os: Os, locks: set<VolumeId>, req: Request, ok: Oracle)
    requires MountPointsExist(os)
    requires Call(os, locks, req, ok).code == Success
    ensures Settled(Call(os, locks, req, ok).os, req) <==> !BlockMountFails(os, req, ok)
  {
    if req.op == Stage && !req.block && req.staging !in os.mounts {
      FreshStage(os, req, ok);
    }
  }

  lemma SettledIsFixpoint(os: Os, locks: set<VolumeId>, req: Request, ok: Oracle)
    requires AllSucceed(ok)
    requires Validate(os, req) == Success && req.volume !in locks
    requires req.op == Unstage ==> req.staging != ""
    requires req.op == Unpublish ==> req.target != ""
    requires Settled(os, req)
    ensures Call(os, locks, req, ok) == Result(os, Success)
  {
    var d := DeviceOf(req.volume);
    match req.op
    case Stage => assert os.attached + {d} == os.attached;
    case Unstage => assert os.mounts - {req.staging} == os.mounts;
    case Publish =>
    case Unpublish =>
    case Expand =>
  }

  /** A reached goal is a fixed point: the call succeeds and changes nothing. */
  lemma GoalIsFixpoint(os: Os, locks: set<VolumeId>, req: Request, ok: Oracle)
    requires AllSucceed(ok)
    requires Validate(os, req) == Success && req.volume !in locks
    requires req.op == Unstage ==> req.staging != ""
    requires req.op == Unpublish ==> req.target != ""
    requires Goal(os, req)
    ensures Call(os, locks, req, ok) == Result(os, Success)
  {
    assert Settled(os, req);
    SettledIsFixpoint(os, locks, req, ok);
  }

  /** Repeating a successful call, once its commands succeed, succeeds and changes nothing. */
  lemma RepeatChangesNothing(os: Os, locks: set<VolumeId>, req: Request, first: Oracle, second: Oracle)
    requires AllSucceed(second)
    requires MountPointsExist(os) && !BlockMountFails(os, req, first)
    requires Call(os, locks, req, first).code == Success
    ensures
      var after := Call(os, locks, req, first).os;
      Call(after, locks, req, second) == Result(after, Success)
  {
    SuccessSettles(os, locks, req, first);
    SettledIsFixpoint(Call(os, locks, req, first).os, locks, req, second);
  }

  // ---------- stage; publish; unpublish; unstage ----------

  datatype Life = Life(volume: VolumeId, fsType: string, staging: Path, target: Path, context: Option<Info>)

  function Do(os: Os, life: Life, op: Op, locks: set<VolumeId>, ok: Oracle): Result {
    Call(os, locks, Request(op, life.volume, false, life.fsType, life.staging, life.target, life.context), ok)
  }

  /** A host on which the volume is not in use yet: kubelet has made the staging directory and
      nothing else. */
  ghost predicate Unused(os: Os, life: Life) {
    && life.volume != "" && ValidContext(life.context)
    && life.staging != "" && life.target != "" && life.staging != life.target
    && life.staging in os.paths && os.paths[life.staging] == Directory && life.staging !in os.mounts
    && life.target !in os.paths && life.target !in os.mounts
    && DeviceOf(life.volume) !in os.attached
    && ResolveFsType(life.fsType, Format(os, DeviceOf(life.volume))).Resolved?
  }

  /** The disk with the filesystem a stage request leaves on it. */
  function Formatted(os: Os, life: Life): Os
    requires ResolveFsType(life.fsType, Format(os, DeviceOf(life.volume))).Resolved?
  {
    var d := DeviceOf(life.volume);
    os.(formats := os.formats[d := ResolveFsType(life.fsType, Format(os, d)).fsType])
  }

  lemma StagingFresh(os: Os, life: Life, locks: set<VolumeId>, ok: Oracle)
    requires Unused(os, life) && AllSucceed(ok) && life.volume !in locks
    ensures
      var d := DeviceOf(life.volume);
      var staged := Formatted(os, life).(attached := os.attached + {d}, mounts := os.mounts[life.staging := Disk(d)]);
      Do(os, life, Stage, locks, ok) == Result(staged, Success)
  {
    var d := DeviceOf(life.volume);
    if Format(os, d) != "" {
      assert os.formats[d := Format(os, d)] == os.formats;
    }
  }

  /** The whole life of a filesystem volume on a node succeeds, shows the volume at its target in
      between, and leaves the device, mount and path tables as they were; the disk keeps its
      filesystem. */
  lemma LifeLeavesNoTrace(os: Os, life: Life, locks: set<VolumeId>, ok: Oracle)
    requires Unused(os, life) && AllSucceed(ok) && life.volume !in locks
    ensures
      var staged := Do(os, life, Stage, locks, ok);
      var published := Do(staged.os, life, Publish, locks, ok);
      var unpublished := Do(published.os, life, Unpublish, locks, ok);
      var unstaged := Do(unpublished.os, life, Unstage, locks, ok);
      && staged.code == Success && published.code == Success
      && life.target in published.os.mounts && published.os.mounts[life.target] == Disk(DeviceOf(life.volume))
      && unpublished.code == Success && unpublished.os == staged.os
      && unstaged == Result(Formatted(os, life), Success)
      && Format(unstaged.os, DeviceOf(life.volume)) != ""
      && (Format(os, DeviceOf(life.volume)) != ""
          ==> Format(unstaged.os, DeviceOf(life.volume)) == Format(os, DeviceOf(life.volume)))
  {
    StagingFresh(os, life, locks, ok);
    var staged := Do(os, life, Stage, locks, ok).os;
    PublishAndBack(staged, life, locks, ok);
    UnstageUndoes(os, staged, life, locks, ok);
  }

  lemma PublishAndBack(os: Os, life: Life, locks: set<VolumeId>, ok: Oracle)
    requires AllSucceed(ok) && life.volume != "" && life.volume !in locks
    requires life.staging != "" && life.target != "" && life.staging != life.target
    requires life.staging in os.paths && os.paths[life.staging] == Directory
    requires life.target !in os.paths && life.target !in os.mounts
    ensures
      var published := Do(os, life, Publish, locks, ok);
      var unpublished := Do(published.os, life, Unpublish, locks, ok);
      && published.code == Success
      && life.target in published.os.mounts && published.os.mounts[life.target] == Shown(os, life.staging)
      && unpublished == Result(os, Success)
  {
    var published := os.(paths := os.paths[life.target := Directory],
                         mounts := os.mounts[life.target := Shown(os, life.staging)]);
    assert Do(os, life, Publish, locks, ok) == Result(published, Success);
    assert published.paths - {life.target} == os.paths;
    assert published.mounts - {life.target} == os.mounts;
  }

  lemma UnstageUndoes(os: Os, staged: Os, life: Life, locks: set<VolumeId>, ok: Oracle)
    requires Unused(os, life) && AllSucceed(ok) && life.volume !in locks
    requires staged == Do(os, life, Stage, locks, ok).os
    ensures Do(staged, life, Unstage, locks, ok) == Result(Formatted(os, life), Success)
  {
    StagingFresh(os, life, locks, ok);
    assert staged.mounts - {life.staging} == os.mounts;
    assert staged.attached - {DeviceOf(life.volume)} == os.attached;
  }
}
