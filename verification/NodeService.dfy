/** The node service: its tables, its lock map, and its handlers as they run on the host. Every
    handler is proved against its call specification. */
module NodeService {
  import opened NodeMachine
  import opened NodeSpec

  class NodeService {
    var formats: map<Device, string>
    var attached: set<Device>
    var mounts: map<Path, Source>
    var paths: map<Path, Kind>
    var locks: set<VolumeId>

    function Tables(): Os
      reads this
    {
      Os(formats, attached, mounts, paths)
    }

    /** LoadOrStore: stores the key in any case, and succeeds only if it was not there. */
    method AddVolumeLock(id: VolumeId) returns (acquired: bool)
      modifies this`locks
      ensures acquired <==> id !in old(locks)
      ensures locks == old(locks) + {id}
    {
      acquired := id !in locks;
      locks := locks + {id};
    }

    method RemoveVolumeLock(id: VolumeId)
      modifies this`locks
      ensures locks == old(locks) - {id}
    {
      locks := locks - {id};
    }

    method NodeStageVolume(req: Request, ok: Oracle) returns (code: Code)
      requires req.op == Stage
      modifies this
      ensures Result(Tables(), code) == Call(old(Tables()), old(locks), req, ok)
      ensures locks == old(locks)
    {
      code := Validate(Tables(), req);
      if code != Success {
        return;
      }
      var acquired := AddVolumeLock(req.volume);
      if !acquired {
        return Aborted;
      }
      code := StageUnderLock(req, ok);
      RemoveVolumeLock(req.volume);
    }

    method StageUnderLock(req: Request, ok: Oracle) returns (code: Code)
      modifies this`formats, this`attached, this`mounts
      ensures Result(Tables(), code) == StageSection(old(Tables()), req, ok)
    {
      var device := DeviceOf(req.volume);
      if Rescanning !in ok {
        return Internal;
      }
      attached := attached + {device};
      if FindingDevice !in ok || device !in attached {
        return Internal;
      }
      if req.block {
        return Success;
      }
      if ReadingFormat !in ok {
        return Internal;
      }
      var existing := if device in formats then formats[device] else "";
      var resolution := ResolveFsType(req.fsType, existing);
      if resolution.Mismatch? {
        return AlreadyExists;
      }
      var check := IsTargetMounted(Tables(), req.staging, true, CheckingStaging in ok);
      match check
      case CheckFailed(failure) => code := failure;
      case AlreadyMounted => code := Success;
      case NotMounted => code := FormatAndMount(device, req.staging, existing, resolution.fsType, ok);
    }

    /** Formats a disk that was read as blank, then hands over to the mounter. */
    method FormatAndMount(device: Device, staging: Path, existing: string, fsType: string, ok: Oracle)
      returns (code: Code)
      modifies this`formats, this`mounts
      ensures Result(Tables(), code)
              == MountSection(Preformatted(old(Tables()), device, existing, fsType, ok), device, staging, fsType, ok)
    {
      if existing == "" {
        FormatDevice(device, fsType, ok);
      }
      code := MounterFormatAndMount(device, staging, fsType, ok);
    }

    /** Only logs when mkfs fails or the type is not supported. */
    method FormatDevice(device: Device, fsType: string, ok: Oracle)
      modifies this`formats
      ensures Tables() == Preformatted(old(Tables()), device, "", fsType, ok)
    {
      if FormatSupported(fsType) && Formatting in ok {
        formats := formats[device := fsType];
      }
    }

    method MounterFormatAndMount(device: Device, staging: Path, fsType: string, ok: Oracle) returns (code: Code)
      modifies this`formats, this`mounts
      ensures Result(Tables(), code) == MountSection(old(Tables()), device, staging, fsType, ok)
    {
      if Probing !in ok {
        return Internal;
      }
      if device !in formats || formats[device] == "" {
        if MkfsInMount !in ok {
          return Internal;
        }
        formats := formats[device := fsType];
      }
      if Mounting in ok && staging in paths && paths[staging] == Directory {
        mounts := mounts[staging := Disk(device)];
        return Success;
      }
      return Internal;
    }

    method NodeUnstageVolume(req: Request, ok: Oracle) returns (code: Code)
      requires req.op == Unstage
      modifies this
      ensures Result(Tables(), code) == Call(old(Tables()), old(locks), req, ok)
      ensures locks == old(locks)
    {
      code := Validate(Tables(), req);
      if code != Success {
        return;
      }
      var acquired := AddVolumeLock(req.volume);
      if !acquired {
        return Aborted;
      }
      code := UnstageUnderLock(req, ok);
      RemoveVolumeLock(req.volume);
    }

    method UnstageUnderLock(req: Request, ok: Oracle) returns (code: Code)
      modifies this`attached, this`mounts
      ensures Result(Tables(), code) == UnstageSection(old(Tables()), req, ok)
    {
      if req.staging == "" {
        return InvalidArgument;
      }
      if CheckingMounted !in ok || req.staging !in paths {
        return Internal;
      }
      if req.staging in mounts {
        if Unmounting !in ok {
          return Internal;
        }
        mounts := mounts - {req.staging};
      }
      assert mounts == old(mounts) - {req.staging};
      var device := DeviceOf(req.volume);
      if FindingForRemoval !in ok {
        return Internal;
      }
      if device !in attached {
        return Success;
      }
      if ReadingSlaves !in ok {
        return Internal;
      }
      if Flushing !in ok {
        return Internal;
      }
      attached := attached - {device};
      if RemovingScsi !in ok {
        return Internal;
      }
      if ClearingInfo !in ok {
        return Internal;
      }
      return Success;
    }

    method NodePublishVolume(req: Request, ok: Oracle) returns (code: Code)
      requires req.op == Publish
      modifies this
      ensures Result(Tables(), code) == Call(old(Tables()), old(locks), req, ok)
      ensures locks == old(locks)
    {
      code := Validate(Tables(), req);
      if code != Success {
        return;
      }
      var acquired := AddVolumeLock(req.volume);
      if !acquired {
        return Aborted;
      }
      code := PublishUnderLock(req, ok);
      RemoveVolumeLock(req.volume);
    }

    method PublishUnderLock(req: Request, ok: Oracle) returns (code: Code)
      modifies this`mounts, this`paths
      ensures Result(Tables(), code) == PublishSection(old(Tables()), req, ok)
    {
      if req.target in paths {
        var check := IsTargetMounted(Tables(), req.target, !req.block, CheckingTarget in ok);
        match check
        case CheckFailed(failure) => return failure;
        case AlreadyMounted => return Success;
        case NotMounted =>
      } else {
        if MakingTarget !in ok {
          return Internal;
        }
        paths := paths[req.target := if req.block then File else Directory];
      }
      code := Success;
      if !req.block {
        if BindMounting in ok && req.staging in paths && paths[req.staging] == Directory
           && paths[req.target] == Directory {
          mounts := mounts[req.target := Shown(Tables(), req.staging)];
        } else {
          code := Internal;
        }
      } else {
        var device := DeviceOf(req.volume);
        if FindingForBlock !in ok || device !in attached {
          return Internal;
        }
        // The result of this mount is assigned to a shadowing variable and never looked at.
        if BlockMounting in ok && paths[req.target] == File {
          mounts := mounts[req.target := Disk(device)];
        }
      }
    }

    method NodeUnpublishVolume(req: Request, ok: Oracle) returns (code: Code)
      requires req.op == Unpublish
      modifies this
      ensures Result(Tables(), code) == Call(old(Tables()), old(locks), req, ok)
      ensures locks == old(locks)
    {
      code := Validate(Tables(), req);
      if code != Success {
        return;
      }
      var acquired := AddVolumeLock(req.volume);
      if !acquired {
        return Aborted;
      }
      code := UnpublishUnderLock(req, ok);
      RemoveVolumeLock(req.volume);
    }

    method UnpublishUnderLock(req: Request, ok: Oracle) returns (code: Code)
      modifies this`mounts, this`paths
      ensures Result(Tables(), code) == UnpublishSection(old(Tables()), req, ok)
    {
      if req.target == "" {
        return InvalidArgument;
      }
      if req.target !in paths {
        return Success;
      }
      if CheckingMounted !in ok {
        return Internal;
      }
      if req.target in mounts {
        if Unmounting !in ok {
          return Internal;
        }
        mounts := mounts - {req.target};
      }
      assert mounts == old(mounts) - {req.target};
      if RemovingTarget !in ok {
        return Internal;
      }
      paths := paths - {req.target};
      return Success;
    }

    method NodeExpandVolume(req: Request, ok: Oracle) returns (code: Code)
      requires req.op == Expand
      modifies this`locks
      ensures Result(Tables(), code) == Call(old(Tables()), old(locks), req, ok)
      ensures locks == old(locks)
    {
      code := Validate(Tables(), req);
      if code != Success {
        return;
      }
      var acquired := AddVolumeLock(req.volume);
      if !acquired {
        return Aborted;
      }
      if FindingDevice !in ok || DeviceOf(req.volume) !in attached {
        code := Internal;
      } else if Resizing !in ok || ReadingFormat !in ok || Growing !in ok {
        code := Internal;
      } else {
        code := Success;
      }
      RemoveVolumeLock(req.volume);
    }
  }
}
