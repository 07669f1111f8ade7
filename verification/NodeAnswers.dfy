/** The answers of the node calls, in full: for every request, host and failure, the code a call is
    answered with and what it leaves of each table. */
module NodeAnswers {
  import opened NodeMachine
  import opened NodeSpec
  import opened Options
  import opened PublishContext

  /** The type a stage wants on the disk: the requested one, or the one there, or ext4. */
  function Wanted(os: Os, req: Request): string {
    var existing := Format(os, DeviceOf(req.volume));
    if req.fsType != "" then req.fsType else if existing != "" then existing else "ext4"
  }

  /** The request is complete, and its context names a known connectivity, a LUN and an initiator. */
  predicate StageIsValid(os: Os, req: Request) {
    && req.volume != "" && req.staging != "" && req.staging in os.paths
    && req.context.Some? && req.context.value.connectivity in {"iscsi", "fc"}
    && req.context.value.lun >= 0 && req.context.value.ips != map[]
  }

  /** The call is past the device's discovery, of a filesystem volume, and reads a type that agrees. */
  predicate StageResolves(os: Os, req: Request, ok: Oracle) {
    var existing := Format(os, DeviceOf(req.volume));
    && {Rescanning, FindingDevice, ReadingFormat} <= ok && !req.block
    && (req.fsType == "" || existing == "" || req.fsType == existing)
  }

  /** And it finds nothing mounted at the staging path. */
  predicate StageMounts(os: Os, req: Request, ok: Oracle) {
    StageResolves(os, req, ok) && CheckingStaging in ok && req.staging !in os.mounts
  }

  /** A blank disk gets its filesystem from the driver, for the types it knows, or from the mounter. */
  predicate StageFormats(os: Os, req: Request, ok: Oracle) {
    && StageMounts(os, req, ok) && Format(os, DeviceOf(req.volume)) == ""
    && ((Formatting in ok && Wanted(os, req) in {"ext4", "xfs"}) || (Probing in ok && MkfsInMount in ok))
  }

  lemma StageAnswersExactly(os: Os, locks: set<VolumeId>, req: Request, ok: Oracle)
    requires req.op == Stage
    ensures
      var existing := Format(os, DeviceOf(req.volume));
      Call(os, locks, req, ok).code ==
      if !StageIsValid(os, req) then InvalidArgument
      else if req.volume in locks then Aborted
      else if Rescanning !in ok || FindingDevice !in ok then Internal
      else if req.block then Success
      else if ReadingFormat !in ok then Internal
      else if req.fsType != "" && existing != "" && req.fsType != existing then AlreadyExists
      else if CheckingStaging !in ok then Internal
      else if req.staging in os.mounts then (if os.paths[req.staging] == Directory then Success else AlreadyExists)
      else if Probing in ok && Mounting in ok && os.paths[req.staging] == Directory
              && (existing != "" || StageFormats(os, req, ok)) then Success
      else Internal
  {
    StageFormatsIn(os, req, ok);
  }

  /** What a blank disk is formatted with. */
  lemma StageFormatsIn(os: Os, req: Request, ok: Oracle)
    ensures
      var d := DeviceOf(req.volume);
      var fsType := Wanted(os, req);
      Format(Preformatted(os.(attached := os.attached + {d}), d, Format(os, d), fsType, ok), d) ==
      if Format(os, d) == "" && Formatting in ok && fsType in {"ext4", "xfs"} then fsType else Format(os, d)
  {
  }

  /** A stage that gets as far as mounting hands over to the mounter, after its own mkfs. */
  lemma SectionIsMount(os: Os, req: Request, ok: Oracle)
    requires req.op == Stage && req.staging in os.paths && StageMounts(os, req, ok)
    ensures
      var (d, fsType) := (DeviceOf(req.volume), Wanted(os, req));
      var ready := Preformatted(os.(attached := os.attached + {d}), d, Format(os, d), fsType, ok);
      StageSection(os, req, ok) == MountSection(ready, d, req.staging, fsType, ok)
  {
  }

  lemma SectionStopsShort(os: Os, req: Request, ok: Oracle)
    requires req.op == Stage && req.staging in os.paths && !StageMounts(os, req, ok)
    ensures StageSection(os, req, ok).os
            == os.(attached := os.attached + if Rescanning in ok then {DeviceOf(req.volume)} else {})
  {
  }

  lemma MountLeaves(os: Os, d: Device, staging: Path, fsType: string, ok: Oracle)
    ensures
      var after := MountSection(os, d, staging, fsType, ok);
      && after.os.paths == os.paths && after.os.attached == os.attached
      && after.os.formats == (if Format(os, d) == "" && Probing in ok && MkfsInMount in ok
                              then os.formats[d := fsType] else os.formats)
      && after.os.mounts == (if after.code == Success then os.mounts[staging := Disk(d)] else os.mounts)
  {
  }

  /** What the part of a stage under the lock leaves. */
  lemma SectionLeaves(os: Os, req: Request, ok: Oracle)
    requires req.op == Stage && req.staging in os.paths
    ensures
      var (d, after) := (DeviceOf(req.volume), StageSection(os, req, ok));
      && after.os.paths == os.paths
      && after.os.attached == os.attached + (if Rescanning in ok then {d} else {})
      && after.os.formats == (if StageFormats(os, req, ok) then os.formats[d := Wanted(os, req)] else os.formats)
      && after.os.mounts == (if StageMounts(os, req, ok) && after.code == Success
                             then os.mounts[req.staging := Disk(d)] else os.mounts)
  {
    if StageMounts(os, req, ok) {
      var (d, fsType) := (DeviceOf(req.volume), Wanted(os, req));
      var ready := Preformatted(os.(attached := os.attached + {d}), d, Format(os, d), fsType, ok);
      SectionIsMount(os, req, ok);
      MountLeaves(ready, d, req.staging, fsType, ok);
    } else {
      SectionStopsShort(os, req, ok);
    }
  }

  /** What a stage leaves, whether it succeeds or fails. */
  lemma StageLeaves(os: Os, locks: set<VolumeId>, req: Request, ok: Oracle)
    requires req.op == Stage
    ensures
      var (d, after) := (DeviceOf(req.volume), Call(os, locks, req, ok));
      var entered := StageIsValid(os, req) && req.volume !in locks;
      && after.os.paths == os.paths
      && after.os.attached == os.attached + (if entered && Rescanning in ok then {d} else {})
      && after.os.mounts == (if entered && StageMounts(os, req, ok) && after.code == Success
                             then os.mounts[req.staging := Disk(d)] else os.mounts)
      && after.os.formats == (if entered && StageFormats(os, req, ok)
                              then os.formats[d := Wanted(os, req)] else os.formats)
  {
    if StageIsValid(os, req) && req.volume !in locks {
      SectionLeaves(os, req, ok);
    }
  }

  /** A blank disk that is staged without a type gets an ext4 filesystem. */
  lemma BlankDiskGetsExt4(os: Os, locks: set<VolumeId>, req: Request, ok: Oracle)
    requires req.op == Stage && !req.block && req.fsType == "" && Format(os, DeviceOf(req.volume)) == ""
    requires req.staging !in os.mounts && Call(os, locks, req, ok).code == Success
    ensures Format(Call(os, locks, req, ok).os, DeviceOf(req.volume)) == "ext4"
  {
    StageAnswersExactly(os, locks, req, ok);
    StageLeaves(os, locks, req, ok);
  }

  lemma UnstageAnswersExactly(os: Os, locks: set<VolumeId>, req: Request, ok: Oracle)
    requires req.op == Unstage
    ensures
      var (d, after) := (DeviceOf(req.volume), Call(os, locks, req, ok));
      var entered := req.volume != "" && req.volume !in locks && req.staging != "";
      var unmounts := entered && CheckingMounted in ok && req.staging in os.paths
                      && (req.staging in os.mounts ==> Unmounting in ok);
      var flushes := unmounts && d in os.attached && {FindingForRemoval, ReadingSlaves, Flushing} <= ok;
      && after.code ==
         (if req.volume == "" then InvalidArgument
          else if req.volume in locks then Aborted
          else if req.staging == "" then InvalidArgument
          else if !unmounts || FindingForRemoval !in ok then Internal
          else if d !in os.attached then Success
          else if flushes && {RemovingScsi, ClearingInfo} <= ok then Success
          else Internal)
      && after.os.mounts == (if unmounts then os.mounts - {req.staging} else os.mounts)
      && after.os.attached == (if flushes then os.attached - {d} else os.attached)
      && after.os.paths == os.paths && after.os.formats == os.formats
  {
  }

  /** The target is there, or has been made, as the kind of path that the volume needs. */
  predicate TargetReady(os: Os, req: Request, ok: Oracle) {
    if req.target in os.paths then CheckingTarget in ok && req.target !in os.mounts else MakingTarget in ok
  }

  /** The paths once the target is there. */
  function WithTarget(os: Os, req: Request): map<Path, Kind> {
    if req.target in os.paths then os.paths else os.paths[req.target := if req.block then File else Directory]
  }

  lemma PublishAnswersExactly(os: Os, locks: set<VolumeId>, req: Request, ok: Oracle)
    requires req.op == Publish
    ensures
      var (d, after, paths) := (DeviceOf(req.volume), Call(os, locks, req, ok), WithTarget(os, req));
      var entered := req.volume != "" && req.staging != "" && req.target != "" && req.volume !in locks;
      var ready := entered && TargetReady(os, req, ok);
      var binds := ready && !req.block && BindMounting in ok && paths[req.target] == Directory
                   && req.staging in paths && paths[req.staging] == Directory;
      var finds := ready && req.block && FindingForBlock in ok && d in os.attached;
      && after.code ==
         (if req.volume == "" || req.staging == "" || req.target == "" then InvalidArgument
          else if req.volume in locks then Aborted
          else if req.target in os.paths && CheckingTarget in ok && req.target in os.mounts then
            (if (os.paths[req.target] == Directory) == !req.block then Success else AlreadyExists)
          else if binds || finds then Success
          else Internal)
      && after.os.paths == (if ready then paths else os.paths)
      && after.os.mounts ==
         (if binds then os.mounts[req.target := Shown(os, req.staging)]
          else if finds && BlockMounting in ok && paths[req.target] == File then os.mounts[req.target := Disk(d)]
          else os.mounts)
      && after.os.attached == os.attached && after.os.formats == os.formats
  {
  }

  lemma UnpublishAnswersExactly(os: Os, locks: set<VolumeId>, req: Request, ok: Oracle)
    requires req.op == Unpublish
    ensures
      var after := Call(os, locks, req, ok);
      var entered := req.volume != "" && req.volume !in locks && req.target != "" && req.target in os.paths;
      var unmounts := entered && CheckingMounted in ok && (req.target in os.mounts ==> Unmounting in ok);
      && after.code ==
         (if req.volume == "" then InvalidArgument
          else if req.volume in locks then Aborted
          else if req.target == "" then InvalidArgument
          else if req.target !in os.paths then Success
          else if unmounts && RemovingTarget in ok then Success
          else Internal)
      && after.os.mounts == (if unmounts then os.mounts - {req.target} else os.mounts)
      && after.os.paths == (if unmounts && RemovingTarget in ok then os.paths - {req.target} else os.paths)
      && after.os.attached == os.attached && after.os.formats == os.formats
  {
  }

  /** An expansion changes no table. It succeeds exactly for an id with the delimiter, on a volume that
      is not locked, whose device is there and whose commands all work. */
  lemma ExpandAnswersExactly(os: Os, locks: set<VolumeId>, req: Request, ok: Oracle)
    requires req.op == Expand
    ensures Call(os, locks, req, ok).os == os
    ensures Call(os, locks, req, ok).code ==
            if req.volume == "" then InvalidArgument
            else if ':' !in req.volume then NotFound
            else if req.target == "" then InvalidArgument
            else if req.volume in locks then Aborted
            else if DeviceOf(req.volume) in os.attached && {FindingDevice, Resizing, ReadingFormat, Growing} <= ok
            then Success
            else Internal
  {
  }
}
