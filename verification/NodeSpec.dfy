/** What one uninterrupted call of each node handler does to the tables, as a function of the
    commands that succeed; and the proof that the step machine, run alone, does exactly that. */
module NodeSpec {
  import opened NodeMachine

  /** The commands of one call that succeed; a handler passes each program point at most once. */
  type Oracle = set<Pc>

  datatype Result = Result(os: Os, code: Code)

  // ---------- the part of each call that runs under the lock ----------

  function StageSection(os: Os, req: Request, ok: Oracle): Result {
    var d := DeviceOf(req.volume);
    if Rescanning !in ok then Result(os, Internal)
    else
      var found := os.(attached := os.attached + {d});
      if FindingDevice !in ok then Result(found, Internal)
      else if req.block then Result(found, Success)
      else if ReadingFormat !in ok then Result(found, Internal)
      else
        match ResolveFsType(req.fsType, Format(os, d))
        case Mismatch => Result(found, AlreadyExists)
        case Resolved(fsType) =>
          match IsTargetMounted(found, req.staging, true, CheckingStaging in ok)
          case CheckFailed(code) => Result(found, code)
          case AlreadyMounted => Result(found, Success)
          case NotMounted => MountSection(Preformatted(found, d, Format(os, d), fsType, ok), d, req.staging, fsType, ok)
  }

  /** The driver's own mkfs, whose outcome nobody looks at. */
  function Preformatted(os: Os, d: Device, existing: string, fsType: string, ok: Oracle): Os {
    if existing == "" && FormatSupported(fsType) && Formatting in ok
    then os.(formats := os.formats[d := fsType]) else os
  }

  /** The mounter: it probes again, makes a filesystem only on a blank disk, and mounts. */
  function MountSection(os: Os, d: Device, staging: Path, fsType: string, ok: Oracle): Result {
    if Probing !in ok || (Format(os, d) == "" && MkfsInMount !in ok) then Result(os, Internal)
    else
      var ready := if Format(os, d) == "" then os.(formats := os.formats[d := fsType]) else os;
      if Mounting in ok && staging in os.paths && os.paths[staging] == Directory
      then Result(ready.(mounts := os.mounts[staging := Disk(d)]), Success)
      else Result(ready, Internal)
  }

  function UnstageSection(os: Os, req: Request, ok: Oracle): Result {
    if req.staging == "" then Result(os, InvalidArgument)
    else if CheckingMounted !in ok || req.staging !in os.paths then Result(os, Internal)
    else if req.staging in os.mounts && Unmounting !in ok then Result(os, Internal)
    else RemoveDeviceSection(os.(mounts := os.mounts - {req.staging}), DeviceOf(req.volume), ok)
  }

  function RemoveDeviceSection(os: Os, d: Device, ok: Oracle): Result {
    if FindingForRemoval !in ok then Result(os, Internal)
    else if d !in os.attached then Result(os, Success)
    else if ReadingSlaves !in ok then Result(os, Internal)
    else FlushSection(os, d, ok)
  }

  function FlushSection(os: Os, d: Device, ok: Oracle): Result {
    if Flushing !in ok then Result(os, Internal)
    else CleaningSection(os.(attached := os.attached - {d}), ok)
  }

  /** The SCSI devices behind the flushed one, and the stage info file. */
  function CleaningSection(os: Os, ok: Oracle): Result {
    Result(os, if RemovingScsi in ok && ClearingInfo in ok then Success else Internal)
  }

  function PublishSection(os: Os, req: Request, ok: Oracle): Result {
    if req.target in os.paths then
      match IsTargetMounted(os, req.target, !req.block, CheckingTarget in ok)
      case CheckFailed(code) => Result(os, code)
      case AlreadyMounted => Result(os, Success)
      case NotMounted => MountTargetSection(os, req, ok)
    else if MakingTarget !in ok then Result(os, Internal)
    else MountTargetSection(
      os.(paths := os.paths[req.target := if req.block then File else Directory]), req, ok)
  }

  /** The bind mount of a filesystem volume, or the device mount of a raw block volume, whose
      error is dropped. */
  function MountTargetSection(os: Os, req: Request, ok: Oracle): Result
    requires req.target in os.paths
  {
    if !req.block then
      if BindMounting in ok && req.staging in os.paths && os.paths[req.staging] == Directory
         && os.paths[req.target] == Directory
      then Result(os.(mounts := os.mounts[req.target := Shown(os, req.staging)]), Success)
      else Result(os, Internal)
    else if FindingForBlock !in ok || DeviceOf(req.volume) !in os.attached then Result(os, Internal)
    else if BlockMounting in ok && os.paths[req.target] == File
    then Result(os.(mounts := os.mounts[req.target := Disk(DeviceOf(req.volume))]), Success)
    else Result(os, Success)
  }

  function UnpublishSection(os: Os, req: Request, ok: Oracle): Result {
    if req.target == "" then Result(os, InvalidArgument)
    else if req.target !in os.paths then Result(os, Success)
    else if CheckingMounted !in ok || (req.target in os.mounts && Unmounting !in ok) then Result(os, Internal)
    else
      var unmounted := os.(mounts := os.mounts - {req.target});
      if RemovingTarget in ok then Result(unmounted.(paths := os.paths - {req.target}), Success)
      else Result(unmounted, Internal)
  }

  function ExpandSection(os: Os, req: Request, ok: Oracle): Result {
    Result(os, if FindingDevice in ok && DeviceOf(req.volume) in os.attached
                  && Resizing in ok && ReadingFormat in ok && Growing in ok
               then Success else Internal)
  }

  function Section(os: Os, req: Request, ok: Oracle): Result {
    match req.op
    case Stage => StageSection(os, req, ok)
    case Unstage => UnstageSection(os, req, ok)
    case Publish => PublishSection(os, req, ok)
    case Unpublish => UnpublishSection(os, req, ok)
    case Expand => ExpandSection(os, req, ok)
  }

  /** A whole call: refused by validation, aborted on a held lock, or its section. The lock map
      is the same afterwards in every case. */
  function Call(os: Os, locks: set<VolumeId>, req: Request, ok: Oracle): Result {
    if Validate(os, req) != Success then Result(os, Validate(os, req))
    else if req.volume in locks then Result(os, Aborted)
    else Section(os, req, ok)
  }

  // ---------- the machine run alone ----------

  function Rank(pc: Pc): nat {
    match pc
    case Validating => 20 case Locking => 19
    case Rescanning => 18 case FindingDevice => 17 case Resizing => 16 case ReadingFormat => 15
    case CheckingStaging => 14 case Formatting => 13 case Probing => 12 case MkfsInMount => 11
    case Mounting => 10 case Growing => 10
    case CheckingTarget => 18 case MakingTarget => 17 case FindingForBlock => 16
    case BindMounting => 15 case BlockMounting => 15
    case CheckingExists => 18 case CheckingMounted => 17 case Unmounting => 16
    case FindingForRemoval => 15 case RemovingTarget => 15 case ReadingSlaves => 14 case Flushing => 13
    case RemovingScsi => 12 case ClearingInfo => 11
    case Unlocking => 1 case Done => 0
  }

  lemma StepDescends(os: Os, locks: set<VolumeId>, th: Thread, ok: bool)
    requires th.pc != Done
    ensures Rank(Step(os, locks, th, ok).thread.pc) < Rank(th.pc)
  {
  }

  /** Runs one handler of the machine, undisturbed, to its end. */
  function Solo(turn: Turn, ok: Oracle): (end: Turn)
    ensures end.thread.pc == Done
    decreases Rank(turn.thread.pc)
  {
    if turn.thread.pc == Done then turn
    else
      StepDescends(turn.os, turn.locks, turn.thread, turn.thread.pc in ok);
      Solo(Step(turn.os, turn.locks, turn.thread, turn.thread.pc in ok), ok)
  }

  /** From this point on, the handler ends with the given result and the lock released. */
  ghost predicate EndsWith(turn: Turn, ok: Oracle, result: Result) {
    var end := Solo(turn, ok);
    end.os == result.os && end.locks == turn.locks - {turn.thread.req.volume} && end.thread.code == result.code
  }

  /** One step back: if the next turn ends with a result, so does this one. */
  lemma StepBack(turn: Turn, next: Turn, ok: Oracle, result: Result)
    requires InSection(turn.thread.pc) && turn.thread.pc != Unlocking
    requires next == Step(turn.os, turn.locks, turn.thread, turn.thread.pc in ok)
    requires next.locks == turn.locks && next.thread.req == turn.thread.req
    requires EndsWith(next, ok, result)
    ensures EndsWith(turn, ok, result)
  {
  }

  lemma Leaving(turn: Turn, ok: Oracle)
    requires turn.thread.pc == Unlocking
    ensures EndsWith(turn, ok, Result(turn.os, turn.thread.code))
  {
    var done := Step(turn.os, turn.locks, turn.thread, turn.thread.pc in ok);
    assert Solo(done, ok) == done;
  }

  /** A step that leaves the section decides the result. */
  lemma LastStep(turn: Turn, next: Turn, ok: Oracle)
    requires InSection(turn.thread.pc) && turn.thread.pc != Unlocking
    requires next == Step(turn.os, turn.locks, turn.thread, turn.thread.pc in ok)
    requires next.locks == turn.locks && next.thread.req == turn.thread.req
    requires next.thread.pc == Unlocking
    ensures EndsWith(turn, ok, Result(next.os, next.thread.code))
  {
    Leaving(next, ok);
    StepBack(turn, next, ok, Result(next.os, next.thread.code));
  }

  function Next(turn: Turn, ok: Oracle): Turn {
    Step(turn.os, turn.locks, turn.thread, turn.thread.pc in ok)
  }

  /** EndsWith, one step at a time: either the step leaves the section with the result, or what
      follows it ends with the result. */
  lemma OneStep(turn: Turn, next: Turn, ok: Oracle, result: Result)
    requires InSection(turn.thread.pc) && turn.thread.pc != Unlocking
    requires next == Next(turn, ok)
    requires next.locks == turn.locks && next.thread.req == turn.thread.req
    requires (next.thread.pc == Unlocking && result == Result(next.os, next.thread.code))
             || EndsWith(next, ok, result)
    ensures EndsWith(turn, ok, result)
  {
    if next.thread.pc == Unlocking && result == Result(next.os, next.thread.code) {
      LastStep(turn, next, ok);
    } else {
      StepBack(turn, next, ok, result);
    }
  }

  lemma MountIsSolo(turn: Turn, ok: Oracle)
    requires turn.thread.pc == Probing
    ensures EndsWith(turn, ok, MountSection(turn.os, turn.thread.device, turn.thread.req.staging, turn.thread.fsType, ok))
  {
    var result := MountSection(turn.os, turn.thread.device, turn.thread.req.staging, turn.thread.fsType, ok);
    var t1 := Next(turn, ok);
    if t1.thread.pc == MkfsInMount {
      var t2 := Next(t1, ok);
      if t2.thread.pc == Mounting {
        OneStep(t2, Next(t2, ok), ok, result);
      }
      OneStep(t1, t2, ok, result);
    } else if t1.thread.pc == Mounting {
      OneStep(t1, Next(t1, ok), ok, result);
    }
    OneStep(turn, t1, ok, result);
  }

  lemma StageIsSolo(turn: Turn, ok: Oracle)
    requires turn.thread == Start(turn.thread.req).(pc := Rescanning) && turn.thread.req.op == Stage
    ensures EndsWith(turn, ok, StageSection(turn.os, turn.thread.req, ok))
  {
    var result := StageSection(turn.os, turn.thread.req, ok);
    var t1 := Next(turn, ok);
    if t1.thread.pc == FindingDevice {
      var t2 := Next(t1, ok);
      if t2.thread.pc == ReadingFormat {
        ReadingIsSolo(t2, ok, result);
      }
      OneStep(t1, t2, ok, result);
    }
    OneStep(turn, t1, ok, result);
  }

  lemma ReadingIsSolo(turn: Turn, ok: Oracle, result: Result)
    requires turn.thread.pc == ReadingFormat && turn.thread.req.op == Stage
    requires turn.thread.device == DeviceOf(turn.thread.req.volume)
    requires
      var d := turn.thread.device;
      var req := turn.thread.req;
      result == if ReadingFormat !in ok then Result(turn.os, Internal)
      else
        match ResolveFsType(req.fsType, Format(turn.os, d))
        case Mismatch => Result(turn.os, AlreadyExists)
        case Resolved(fsType) =>
          match IsTargetMounted(turn.os, req.staging, true, CheckingStaging in ok)
          case CheckFailed(code) => Result(turn.os, code)
          case AlreadyMounted => Result(turn.os, Success)
          case NotMounted =>
            MountSection(Preformatted(turn.os, d, Format(turn.os, d), fsType, ok), d, req.staging, fsType, ok)
    ensures EndsWith(turn, ok, result)
  {
    var t1 := Next(turn, ok);
    if t1.thread.pc == CheckingStaging {
      var t2 := Next(t1, ok);
      if t2.thread.pc == Formatting {
        var t3 := Next(t2, ok);
        MountIsSolo(t3, ok);
        OneStep(t2, t3, ok, result);
      }
      OneStep(t1, t2, ok, result);
    }
    OneStep(turn, t1, ok, result);
  }

  lemma RemoveDeviceIsSolo(turn: Turn, ok: Oracle)
    requires turn.thread.pc == FindingForRemoval
    ensures EndsWith(turn, ok, RemoveDeviceSection(turn.os, turn.thread.device, ok))
  {
    var result := RemoveDeviceSection(turn.os, turn.thread.device, ok);
    var t1 := Next(turn, ok);
    if t1.thread.pc == ReadingSlaves {
      var t2 := Next(t1, ok);
      if t2.thread.pc == Flushing {
        FlushIsSolo(t2, ok);
      }
      OneStep(t1, t2, ok, result);
    }
    OneStep(turn, t1, ok, result);
  }

  lemma FlushIsSolo(turn: Turn, ok: Oracle)
    requires turn.thread.pc == Flushing
    ensures EndsWith(turn, ok, FlushSection(turn.os, turn.thread.device, ok))
  {
    var result := FlushSection(turn.os, turn.thread.device, ok);
    var t1 := Next(turn, ok);
    if t1.thread.pc == RemovingScsi {
      CleaningIsSolo(t1, ok);
    }
    OneStep(turn, t1, ok, result);
  }

  lemma CleaningIsSolo(turn: Turn, ok: Oracle)
    requires turn.thread.pc == RemovingScsi
    ensures EndsWith(turn, ok, CleaningSection(turn.os, ok))
  {
    var result := CleaningSection(turn.os, ok);
    var t1 := Next(turn, ok);
    if t1.thread.pc == ClearingInfo {
      OneStep(t1, Next(t1, ok), ok, result);
    }
    OneStep(turn, t1, ok, result);
  }

  lemma UnstageIsSolo(turn: Turn, ok: Oracle)
    requires turn.thread == Start(turn.thread.req).(pc := CheckingMounted) && turn.thread.req.op == Unstage
    requires turn.thread.req.staging != ""
    ensures EndsWith(turn, ok, UnstageSection(turn.os, turn.thread.req, ok))
  {
    var result := UnstageSection(turn.os, turn.thread.req, ok);
    var t1 := Next(turn, ok);
    if t1.thread.pc == Unmounting {
      var t2 := Next(t1, ok);
      if t2.thread.pc == FindingForRemoval {
        RemoveDeviceIsSolo(t2, ok);
      }
      OneStep(t1, t2, ok, result);
    } else if t1.thread.pc == FindingForRemoval {
      assert turn.os.mounts - {turn.thread.req.staging} == turn.os.mounts;
      RemoveDeviceIsSolo(t1, ok);
    }
    OneStep(turn, t1, ok, result);
  }

  lemma MountTargetIsSolo(turn: Turn, ok: Oracle)
    requires turn.thread == AfterTargetReady(Start(turn.thread.req)) && turn.thread.req.op == Publish
    requires turn.thread.req.target in turn.os.paths
    ensures EndsWith(turn, ok, MountTargetSection(turn.os, turn.thread.req, ok))
  {
    var result := MountTargetSection(turn.os, turn.thread.req, ok);
    var t1 := Next(turn, ok);
    if t1.thread.pc == BlockMounting {
      OneStep(t1, Next(t1, ok), ok, result);
    }
    OneStep(turn, t1, ok, result);
  }

  lemma PublishIsSolo(turn: Turn, ok: Oracle)
    requires turn.thread == Start(turn.thread.req).(pc := CheckingTarget) && turn.thread.req.op == Publish
    ensures EndsWith(turn, ok, PublishSection(turn.os, turn.thread.req, ok))
  {
    var result := PublishSection(turn.os, turn.thread.req, ok);
    var t1 := Next(turn, ok);
    if t1.thread.pc == MakingTarget {
      var t2 := Next(t1, ok);
      if t2.thread.pc != Unlocking {
        MountTargetIsSolo(t2, ok);
      }
      OneStep(t1, t2, ok, result);
    } else if t1.thread.pc != Unlocking {
      MountTargetIsSolo(t1, ok);
    }
    OneStep(turn, t1, ok, result);
  }

  lemma RemoveTargetIsSolo(turn: Turn, ok: Oracle, result: Result)
    requires turn.thread.pc == RemovingTarget
    requires
      var target := turn.thread.req.target;
      result == if RemovingTarget in ok then Result(turn.os.(paths := turn.os.paths - {target}), Success)
                else Result(turn.os, Internal)
    ensures EndsWith(turn, ok, result)
  {
    OneStep(turn, Next(turn, ok), ok, result);
  }

  lemma UnpublishIsSolo(turn: Turn, ok: Oracle)
    requires turn.thread == Start(turn.thread.req).(pc := CheckingExists) && turn.thread.req.op == Unpublish
    requires turn.thread.req.target != ""
    ensures EndsWith(turn, ok, UnpublishSection(turn.os, turn.thread.req, ok))
  {
    var result := UnpublishSection(turn.os, turn.thread.req, ok);
    var t1 := Next(turn, ok);
    if t1.thread.pc == CheckingMounted {
      var t2 := Next(t1, ok);
      if t2.thread.pc == Unmounting {
        var t3 := Next(t2, ok);
        if t3.thread.pc == RemovingTarget {
          RemoveTargetIsSolo(t3, ok, result);
        }
        OneStep(t2, t3, ok, result);
      } else if t2.thread.pc == RemovingTarget {
        assert turn.os.mounts - {turn.thread.req.target} == turn.os.mounts;
        RemoveTargetIsSolo(t2, ok, result);
      }
      OneStep(t1, t2, ok, result);
    }
    OneStep(turn, t1, ok, result);
  }

  lemma GrowIsSolo(turn: Turn, ok: Oracle)
    requires turn.thread.pc == ReadingFormat && turn.thread.req.op == Expand
    ensures EndsWith(turn, ok, Result(turn.os, if ReadingFormat in ok && Growing in ok then Success else Internal))
  {
    var result := Result(turn.os, if ReadingFormat in ok && Growing in ok then Success else Internal);
    var t1 := Next(turn, ok);
    if t1.thread.pc == Growing {
      OneStep(t1, Next(t1, ok), ok, result);
    }
    OneStep(turn, t1, ok, result);
  }

  lemma ExpandIsSolo(turn: Turn, ok: Oracle)
    requires turn.thread == Start(turn.thread.req).(pc := FindingDevice) && turn.thread.req.op == Expand
    ensures EndsWith(turn, ok, ExpandSection(turn.os, turn.thread.req, ok))
  {
    var result := ExpandSection(turn.os, turn.thread.req, ok);
    var t1 := Next(turn, ok);
    if t1.thread.pc == Resizing {
      var t2 := Next(t1, ok);
      if t2.thread.pc == ReadingFormat {
        GrowIsSolo(t2, ok);
      }
      OneStep(t1, t2, ok, result);
    }
    OneStep(turn, t1, ok, result);
  }

  /** The machine, run alone, does what the call specification says and leaves the lock map as
      it found it. */
  lemma SoloRunIsCall(os: Os, locks: set<VolumeId>, req: Request, ok: Oracle)
    ensures
      var end := Solo(Turn(os, locks, Start(req)), ok);
      Result(end.os, end.thread.code) == Call(os, locks, req, ok) && end.locks == locks
  {
    var t0 := Turn(os, locks, Start(req));
    var t1 := Next(t0, ok);
    assert Solo(t0, ok) == Solo(t1, ok);
    if Validate(os, req) == Success {
      LockedIsSolo(t1, ok);
    } else {
      assert Solo(t1, ok) == t1;
    }
  }

  lemma LockedIsSolo(turn: Turn, ok: Oracle)
    requires turn.thread == Start(turn.thread.req).(pc := Locking)
    ensures
      var end := Solo(turn, ok);
      && end.locks == turn.locks
      && Result(end.os, end.thread.code)
         == if turn.thread.req.volume in turn.locks then Result(turn.os, Aborted)
            else Section(turn.os, turn.thread.req, ok)
  {
    var next := Next(turn, ok);
    assert Solo(turn, ok) == Solo(next, ok);
    if turn.thread.req.volume !in turn.locks {
      EnteredIsSolo(next, ok);
      assert turn.locks + {turn.thread.req.volume} - {turn.thread.req.volume} == turn.locks;
    }
  }

  lemma EnteredIsSolo(turn: Turn, ok: Oracle)
    requires turn.thread == AfterLocking(Start(turn.thread.req).(pc := Locking))
    ensures EndsWith(turn, ok, Section(turn.os, turn.thread.req, ok))
  {
    match turn.thread.req.op
    case Stage => StageIsSolo(turn, ok);
    case Unstage => if turn.thread.req.staging == "" { Leaving(turn, ok); } else { UnstageIsSolo(turn, ok); }
    case Publish => PublishIsSolo(turn, ok);
    case Unpublish => if turn.thread.req.target == "" { Leaving(turn, ok); } else { UnpublishIsSolo(turn, ok); }
    case Expand => ExpandIsSolo(turn, ok);
  }
}
