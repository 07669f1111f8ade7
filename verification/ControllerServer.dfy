/** The controller's volume calls on an SVC array: create (with clone and rollback), snapshot,
    delete and expand. */
module ControllerServer {
  import opened Options
  import opened SvcArray
  import opened SvcLaws
  import opened SvcMediator
  import opened ControllerSpec
  import opened CreateLaws

  class ControllerServicer {
    const mediator: SvcMediator

    constructor (mediator: SvcMediator)
      ensures this.mediator == mediator
    {
      this.mediator := mediator;
    }

    method CreateVolume(req: CreateRequest, fault: CreateFault, cleanup: Cleanup) returns (response: CreateResponse)
      requires Integrity(mediator.state) && FiveTries(cleanup)
      modifies mediator
      ensures (mediator.state, response) == CreateResult(old(mediator.state), req, fault, cleanup)
    {
      ghost var a := mediator.state;
      if req.bytes > MAX_SIZE {
        return Refused(OutOfRange);
      }
      var requiredBytes := if req.bytes == 0 then MIN_SIZE else req.bytes;
      if fault == LookupFails {
        return Refused(Internal);
      }
      if req.name in mediator.state.volumes {
        response := AnswerForExisting(req, fault == SourceNameLost);
        return;
      }
      var rejected := fault.VolumeFails? && fault.rejected;
      var made := mediator.MkVolume(req.name, ConvertSize(requiredBytes), fault.VolumeFails?, rejected);
      if made != Made {
        return Refused(Internal);
      }
      if fault.ReadBackLost? {
        return Refused(if fault.notFound then NotFound else Internal);
      }
      if fault == ResponseUnread {
        return Refused(Internal);
      }
      var volume := mediator.state.volumes[req.name];
      if req.source.Some? {
        MadeHasIntegrity(a, req.name, ConvertSize(requiredBytes));
        var outcome := CopyFromSource(volume.uid, req.name, req.source.value, fault, cleanup);
        if outcome.Failed? {
          return Refused(CodeOf(outcome.error));
        }
      }
      return Created(volume.uid, volume.capacity, SourceUid(req.source));
    }

    method AnswerForExisting(req: CreateRequest, sourceNameLost: bool) returns (response: CreateResponse)
      requires req.name in mediator.state.volumes
      ensures response == ExistingAnswer(mediator.state, req, sourceNameLost)
    {
      var volume := mediator.state.volumes[req.name];
      if req.source.None? && volume.capacity != req.bytes {
        return Refused(AlreadyExists);
      }
      var copySource := GetCopySource(req.name, sourceNameLost);
      if copySource == SourceUid(req.source) {
        return Created(volume.uid, volume.capacity, copySource);
      }
      return Refused(AlreadyExists);
    }

    /** A failed read of the source volume's name is passed over in silence. */
    method GetCopySource(name: Name, nameLost: bool) returns (source: Option<Uid>)
      ensures source == SourceRead(mediator.state, name, nameLost)
    {
      var ids := AsTarget(mediator.state, name);
      if |ids| != 1 {
        SingleHasOne(ids);
        return None;
      }
      var id := TheOnly(ids);
      assert id in ids;
      var fcmap := mediator.state.fcmaps[id];
      if nameLost || fcmap.source !in mediator.state.volumes {
        return None;
      }
      return Some(mediator.state.volumes[fcmap.source].uid);
    }

    /** Looks the source up and copies it onto the volume just made; every failure rolls back by
        deleting that volume, a missing source even twice. */
    method CopyFromSource(volume: Uid, name: Name, source: Source, fault: CreateFault, cleanup: Cleanup)
      returns (outcome: Outcome)
      requires Integrity(mediator.state) && HasUid(mediator.state, name, volume)
      requires Touching(mediator.state, name) == {} && FiveTries(cleanup)
      modifies mediator
      ensures (mediator.state, outcome)
              == CopyFromResult(old(mediator.state), volume, name, source, fault, cleanup)
    {
      if fault == SourceUnread {
        var undone := Rollback(volume, cleanup.first);
        return Reported(CliFailure, undone);
      }
      var found := mediator.NameByUid(source.uid);
      if found.None? {
        UntouchedRollback(mediator.state, volume, name, cleanup.first);
        var first := Rollback(volume, cleanup.first);
        var second := Rollback(volume, cleanup.second);
        return Reported(if first.Failed? then first.error else ObjectNotFound, second);
      }
      var usable := CanBeCopied(found.value, source.isSnapshot);
      if !usable {
        var undone := Rollback(volume, cleanup.first);
        return Reported(ExpectedSnapshot, undone);
      }
      ghost var a := mediator.state;
      var end := mediator.CopyToTargetVolume(found.value, name, FaultOfCopy(fault), cleanup.undo);
      if end == CopyEnd.Started {
        return Done;
      }
      FailedCopyHasIntegrity(a, found.value, name, FaultOfCopy(fault), cleanup.undo);
      var undone := Rollback(volume, cleanup.first);
      return Reported(if end == ReadFailed then Unread else CliFailure, undone);
    }

    method CanBeCopied(name: Name, isSnapshot: bool) returns (usable: bool)
      ensures usable == IsUsable(mediator.state, name, isSnapshot)
    {
      if !isSnapshot {
        return true;
      }
      var ids := AsTarget(mediator.state, name);
      if |ids| != 1 {
        return false;
      }
      var id := TheOnly(ids);
      assert id in ids;
      return mediator.state.fcmaps[id].noCopy;
    }

    /** Up to five tries at deleting the volume. */
    method Rollback(volume: Uid, tries: seq<Removals>) returns (outcome: Outcome)
      requires Integrity(mediator.state) && |tries| == ROLLBACK_TRIES
      modifies mediator
      ensures (mediator.state, outcome) == RollbackResult(old(mediator.state), volume, tries)
      ensures Integrity(mediator.state) || outcome == Done
    {
      outcome := Done;
      for i := 0 to ROLLBACK_TRIES
        invariant Integrity(mediator.state)
        invariant i > 0 ==> outcome != Done
        invariant
          if i == ROLLBACK_TRIES then (mediator.state, outcome) == RollbackResult(old(mediator.state), volume, tries)
          else RollbackResult(mediator.state, volume, tries[i..]) == RollbackResult(old(mediator.state), volume, tries)
      {
        ghost var before := mediator.state;
        assert tries[i..][0] == tries[i] && tries[i..][1..] == tries[i + 1..];
        outcome := mediator.DeleteVolume(volume, tries[i]);
        if outcome == Done {
          return;
        }
        FailedDeleteKeepsIntegrity(before, volume, false, tries[i]);
      }
    }

    /** A volume that is not there counts as deleted. */
    method DeleteVolume(volume: Uid, r: Removals) returns (error: Option<Error>)
      requires Integrity(mediator.state)
      modifies mediator
      ensures
        var (after, outcome) := DeleteByUid(old(mediator.state), volume, false, r);
        && mediator.state == after
        && error == if outcome == Done || outcome == Failed(ObjectNotFound) then None else Some(outcome.error)
    {
      var outcome := mediator.DeleteVolume(volume, r);
      error := if outcome == Done || outcome == Failed(ObjectNotFound) then None else Some(outcome.error);
    }

    method CreateSnapshot(name: Name, source: Uid, lookup: Lookup, fault: SnapshotFault, tries: seq<Removals>)
      returns (response: SnapshotResponse)
      requires Integrity(mediator.state) && |tries| == ROLLBACK_TRIES
      modifies mediator
      ensures CreateSnapshotSpec(old(mediator.state), name, source, lookup, fault, tries, response, mediator.state)
    {
      if lookup == Raises {
        return NotSnapped(Code.Internal);
      }
      if name in mediator.state.volumes && lookup != ObjectLost {
        response := AnswerForExistingSnapshot(name, source, lookup == OriginLost);
        return;
      }
      var outcome := mediator.CreateSnapshot(source, name, fault, tries);
      match outcome
      case Failed(ObjectNotFound) => response := NotSnapped(NotFound);
      case Failed(_) => response := NotSnapped(Code.Internal);
      case Done =>
        response := Snapped(mediator.state.volumes[name].uid, mediator.state.volumes[name].capacity);
    }

    /** An object with the snapshot's name: it must be a snapshot, and of this volume. */
    method AnswerForExistingSnapshot(name: Name, source: Uid, originLost: bool) returns (response: SnapshotResponse)
      requires Numbered(mediator.state) && name in mediator.state.volumes
      ensures ExistingSnapshotAnswer(mediator.state, name, source, originLost, response)
    {
      var ids := AsTarget(mediator.state, name);
      if |ids| != 1 {
        return NotSnapped(Code.Internal);
      }
      var id := TheOnly(ids);
      var fcmap := mediator.state.fcmaps[id];
      if !fcmap.noCopy {
        return NotSnapped(Code.Internal);
      }
      assert IsSnapshotOf(mediator.state, name, fcmap.source);
      if originLost || fcmap.source !in mediator.state.volumes || mediator.state.volumes[fcmap.source].uid != source {
        return NotSnapped(Code.AlreadyExists);
      }
      var volume := mediator.state.volumes[name];
      assert HasUid(mediator.state, fcmap.source, source);
      return Snapped(volume.uid, volume.capacity);
    }

    method ControllerExpandVolume(volume: Uid, bytes: nat, faults: ExpandFaults) returns (response: ExpandResponse)
      requires Integrity(mediator.state)
      modifies mediator
      ensures (mediator.state, response) == ExpandRpcResult(old(mediator.state), volume, bytes, faults)
    {
      if faults.unseen {
        return NotExpanded(Code.Internal);
      }
      var found := mediator.NameByUid(volume);
      if found.None? {
        return NotExpanded(NotFound);
      }
      var name := found.value;
      var capacity := mediator.state.volumes[name].capacity;
      if capacity >= bytes {
        return Expanded(capacity, false);
      }
      if bytes > MAX_SIZE {
        return NotExpanded(OutOfRange);
      }
      assert HasUid(mediator.state, name, volume);
      var outcome := mediator.ExpandVolume(volume, bytes, false, faults.failing, faults.extendFails);
      if outcome == Failed(ObjectInUse) {
        return NotExpanded(FailedPrecondition);
      }
      if outcome != Done || faults.rereadFails {
        return NotExpanded(Code.Internal);
      }
      return Expanded(mediator.state.volumes[name].capacity, true);
    }
  }

  lemma SingleHasOne(ids: set<MapId>)
    requires |ids| != 1
    ensures forall id :: ids != {id}
  {
  }
}
