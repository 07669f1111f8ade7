/** The SVC mediator: ordered CLI commands on the array, each of which may fail as its arguments say. */
module SvcMediator {
  import opened Options
  import opened SvcArray
  import opened SvcLaws

  datatype MkOutcome = Made | NameTaken | Rejected | CliError

  /** FC_id of a volume: the one mapping it takes part in, if it is exactly one. */
  datatype FcRef = NoMap | One(id: MapId) | Many

  function FcId(a: Array, name: Name): (r: FcRef)
    ensures r.One? <==> |Touching(a, name)| == 1
    ensures r.One? ==> Touching(a, name) == {r.id}
    ensures r.NoMap? <==> Touching(a, name) == {}
  {
    var ids := Touching(a, name);
    if ids == {} then NoMap
    else if |ids| == 1 then
      var id := TheOnly(ids);
      One(id)
    else Many
  }

  lemma SingletonIsUnique(ids: set<MapId>, i: MapId, j: MapId)
    requires |ids| == 1 && i in ids && j in ids
    ensures i == j
  {
    assert |ids - {i}| == 0;
  }

  function TheOnly(ids: set<MapId>): (id: MapId)
    requires |ids| == 1
    ensures ids == {id}
  {
    assert ids != {};
    assert forall i, j | i in ids && j in ids :: i == j by {
      forall i, j | i in ids && j in ids ensures i == j {
        SingletonIsUnique(ids, i, j);
      }
    }
    var id :| id in ids;
    id
  }

  class SvcMediator {
    var state: Array

    constructor (state: Array)
      ensures this.state == state
    {
      this.state := state;
    }

    // ---------- CLI commands ----------

    method MkVolume(name: Name, size: nat, fails: bool, rejected: bool) returns (outcome: MkOutcome)
      modifies this
      ensures state == if outcome == Made then WithVolume(old(state), name, size) else old(state)
      ensures outcome == if fails then (if rejected then Rejected else CliError)
                         else if name in old(state).volumes then NameTaken
                         else Made
    {
      if fails {
        outcome := if rejected then Rejected else CliError;
      } else if name in state.volumes {
        outcome := NameTaken;
      } else {
        state := WithVolume(state, name, size);
        outcome := Made;
      }
    }

    /** NameTaken stands for the mapping that exists already, which the driver accepts. */
    method MkFcMap(source: Name, target: Name, noCopy: bool, fails: bool) returns (outcome: MkOutcome)
      modifies this
      ensures state == if outcome == Made then WithMap(old(state), source, target, noCopy, IdleOrCopied) else old(state)
      ensures outcome == NameTaken ==> AsTarget(old(state), target) != {}
      ensures AsTarget(old(state), target) == {} ==>
                outcome == if !fails && source in old(state).volumes && target in old(state).volumes && source != target
                           then Made else CliError
    {
      if exists id :: id in state.fcmaps && state.fcmaps[id].source == source && state.fcmaps[id].target == target {
        assert AsTarget(state, target) != {} by {
          var id :| id in state.fcmaps && state.fcmaps[id].source == source && state.fcmaps[id].target == target;
          assert id in AsTarget(state, target);
        }
        outcome := NameTaken;
        return;
      }
      if fails || source !in state.volumes || target !in state.volumes || source == target
         || AsTarget(state, target) != {} {
        outcome := CliError;
      } else {
        state := WithMap(state, source, target, noCopy, IdleOrCopied);
        outcome := Made;
      }
    }

    method StartFcMap(ref: FcRef, fails: bool) returns (ok: bool)
      modifies this
      ensures ok <==> !fails && ref.One? && ref.id in old(state).fcmaps
      ensures state == if ok then WithStarted(old(state), ref.id) else old(state)
    {
      if !ref.One? || ref.id !in state.fcmaps || fails {
        return false;
      }
      state := WithStarted(state, ref.id);
      return true;
    }

    /** Without force the array keeps a mapping that is still copying. The driver logs a failure
        and goes on. */
    method RmFcMap(id: MapId, force: bool, fails: bool) returns (ok: bool)
      modifies this
      ensures ok <==> !fails && id in old(state).fcmaps && (force || old(state).fcmaps[id].status != Copying)
      ensures state == if ok then WithoutMaps(old(state), {id}) else old(state)
    {
      if id !in state.fcmaps || (!force && state.fcmaps[id].status == Copying) || fails {
        return false;
      }
      state := WithoutMaps(state, {id});
      return true;
    }

    method StopFcMap(id: MapId, works: bool) returns (ok: bool)
      modifies this
      ensures ok <==> works && id in old(state).fcmaps
      ensures state == if ok
                       then old(state).(fcmaps := old(state).fcmaps[id := old(state).fcmaps[id].(status := Stopped)])
                       else old(state)
    {
      if id !in state.fcmaps || !works {
        return false;
      }
      state := state.(fcmaps := state.fcmaps[id := state.fcmaps[id].(status := Stopped)]);
      return true;
    }

    /** Whether the array lets a volume go that mappings still touch is left open. */
    method RmVolume(name: Name, r: Removals) returns (ok: bool)
      modifies this
      ensures ok <==> name in old(state).volumes && VolumeGoes(old(state), name, r)
      ensures state == if ok then WithoutVolume(old(state), name) else old(state)
    {
      if name !in state.volumes || r.volumeFails || (Touching(state, name) != {} && !r.letsGo) {
        return false;
      }
      state := WithoutVolume(state, name);
      return true;
    }

    method ExpandVdiskSize(name: Name, increase: int, fails: bool) returns (ok: bool)
      requires name in state.volumes
      modifies this
      ensures ok <==> increase > 0 && !fails
      ensures state == if ok then Enlarged(old(state), name, increase) else old(state)
    {
      if increase <= 0 || fails {
        return false;
      }
      state := Enlarged(state, name, increase);
      return true;
    }

    // ---------- lookups ----------

    method NameByUid(uid: Uid) returns (name: Option<Name>)
      requires Numbered(state)
      ensures name == NameOf(state, uid)
      ensures name.Some? ==> HasUid(state, name.value, uid)
      ensures name.None? ==> !Exists(state, uid)
    {
      if exists n :: n in state.volumes && state.volumes[n].uid == uid {
        var n :| n in state.volumes && state.volumes[n].uid == uid;
        NameIsUnique(state, n, uid);
        return Some(n);
      }
      assert forall n :: !HasUid(state, n, uid);
      return None;
    }

    // ---------- deleting and expanding ----------

    /** Checks all mappings first; only if none is unfinished does it delete any. A failing removal is
        logged. */
    method SafeDeleteFcMaps(ids: set<MapId>, failing: set<MapId>) returns (outcome: Outcome)
      requires ids <= state.fcmaps.Keys
      modifies this
      ensures outcome == if exists id :: id in ids && Unfinished(old(state).fcmaps[id])
                         then Failed(ObjectInUse) else Done
      ensures state == if outcome == Done then WithoutMaps(old(state), ids - failing) else old(state)
    {
      if exists id :: id in ids && Unfinished(state.fcmaps[id]) {
        return Failed(ObjectInUse);
      }
      var todo := ids;
      while todo != {}
        invariant todo <= ids
        invariant state == WithoutMaps(old(state), ids - todo - failing)
        decreases |todo|
      {
        var id :| id in todo;
        assert id in ids && !Unfinished(old(state).fcmaps[id]);
        var ok := RmFcMap(id, false, id in failing);
        todo := todo - {id};
        OneMoreRemoved(old(state), ids, todo, id, failing);
      }
      assert ids - todo - failing == ids - failing;
      return Done;
    }

    method StopAndDeleteFcMap(id: MapId, stops: bool, fails: bool)
      requires id in state.fcmaps
      modifies this
      ensures state == if !fails then WithoutMaps(old(state), {id})
                       else if stops
                       then old(state).(fcmaps := old(state).fcmaps[id := old(state).fcmaps[id].(status := Stopped)])
                       else old(state)
    {
      var stopped := StopFcMap(id, stops);
      var deleted := RmFcMap(id, true, fails);
      assert !fails ==> state.fcmaps == old(state).fcmaps - {id};
    }

    /** Refuses if a mapping from the volume is unfinished; else removes all that touch it, the
        one onto it without any check. */
    method ClearFcMaps(name: Name, r: Removals) returns (outcome: Outcome)
      requires |AsTarget(state, name)| <= 1 && AsTarget(state, name) !! AsSource(state, name)
      modifies this
      ensures outcome == if SourceBusy(old(state), name) then Failed(ObjectInUse) else Done
      ensures state == if outcome == Done then Cleared(old(state), name, r) else old(state)
    {
      ghost var before := state;
      var asTarget := AsTarget(state, name);
      var asSource := AsSource(state, name);
      outcome := Done;
      if asSource != {} {
        outcome := SafeDeleteFcMaps(asSource, r.failing);
        if outcome != Done {
          return;
        }
      }
      assert state == WithoutMaps(before, asSource - r.failing);
      if |asTarget| == 1 {
        var id := TheOnly(asTarget);
        assert id in asTarget;
        StopAndDeleteFcMap(id, r.stops, id in r.failing);
        ClearedInTwo(before, name, r, id);
      } else {
        NothingOntoIt(before, name, r);
      }
    }

    method DeleteObject(name: Name, isSnapshot: bool, r: Removals) returns (outcome: Outcome)
      requires Integrity(state) && name in state.volumes && !r.unseen
      modifies this
      ensures (state, outcome) == DeleteResult(old(state), name, isSnapshot, r)
    {
      AtMostOneTarget(state, name);
      if isSnapshot && |AsTarget(state, name)| != 1 {
        return Failed(ObjectNotFound);
      }
      outcome := ClearFcMaps(name, r);
      if outcome == Done {
        var ok := RmVolume(name, r);
        outcome := if ok then Done else Failed(CliFailure);
      }
    }

    method DeleteVolume(uid: Uid, r: Removals) returns (outcome: Outcome)
      requires Integrity(state)
      modifies this
      ensures (state, outcome) == DeleteByUid(old(state), uid, false, r)
    {
      if r.unseen {
        return Failed(CliFailure);
      }
      var name := NameByUid(uid);
      if name.None? {
        return Failed(ObjectNotFound);
      }
      outcome := DeleteObject(name.value, false, r);
    }

    method DeleteSnapshot(uid: Uid, r: Removals) returns (outcome: Outcome)
      requires Integrity(state)
      modifies this
      ensures (state, outcome) == DeleteByUid(old(state), uid, true, r)
    {
      if r.unseen {
        return Failed(CliFailure);
      }
      var name := NameByUid(uid);
      if name.None? {
        return Failed(ObjectNotFound);
      }
      if FcId(state, name.value).NoMap? {
        assert AsTarget(state, name.value) == {};
        return Failed(ObjectNotFound);
      }
      outcome := DeleteObject(name.value, true, r);
    }

    method ExpandVolume(uid: Uid, bytes: nat, unseen: bool, failing: set<MapId>, extendFails: bool)
      returns (outcome: Outcome)
      requires Integrity(state)
      modifies this
      ensures NameOf(old(state), uid) == None && !unseen ==> outcome == Failed(ObjectNotFound) && state == old(state)
      ensures forall name | HasUid(old(state), name, uid) ::
                (state, outcome) == ExpandResult(old(state), name, bytes, unseen, failing, extendFails)
    {
      if unseen {
        return Failed(CliFailure);
      }
      var found := NameByUid(uid);
      if found.None? {
        return Failed(ObjectNotFound);
      }
      assert forall name | HasUid(state, name, uid) :: name == found.value;
      outcome := ExpandNamed(found.value, bytes, failing, extendFails);
    }

    method ExpandNamed(name: Name, bytes: nat, failing: set<MapId>, extendFails: bool) returns (outcome: Outcome)
      requires Integrity(state) && name in state.volumes
      modifies this
      ensures (state, outcome) == ExpandResult(old(state), name, bytes, false, failing, extendFails)
    {
      ObjectFcMapsAreAll(state, name);
      outcome := SafeDeleteFcMaps(ObjectFcMaps(state, name), failing);
      if outcome != Done {
        return;
      }
      var increase := ConvertSize(bytes) - state.volumes[name].capacity;
      var ok := ExpandVdiskSize(name, increase, extendFails);
      outcome := if ok then Done else Failed(CliFailure);
    }

    // ---------- copies ----------

    /** Makes the mapping onto the target, reads the target again for its mapping, and starts that. */
    method CreateAndStartFcMap(source: Name, target: Name, noCopy: bool, fault: CopyFault) returns (end: CopyEnd)
      requires Numbered(state) && source in state.volumes && target in state.volumes
      requires Touching(state, target) == {}
      modifies this
      ensures state == CopyAttempt(old(state), source, target, noCopy, fault)
      ensures end == EndOfCopy(source, target, fault)
    {
      var made := MkFcMap(source, target, noCopy, fault == MkFcMapFails);
      if made != Made {
        return CommandFailed;
      }
      var id := old(state).nextMap;
      assert Touching(state, target) == {id};
      if fault == RereadFails {
        return ReadFailed;
      }
      var ref := FcId(state, target);
      assert ref == One(id);
      var ok := StartFcMap(ref, fault == StartFails);
      end := if ok then Started else CommandFailed;
    }

    /** A mapping that could be made but not started is removed again. */
    method CopyToTargetVolume(source: Name, target: Name, fault: CopyFault, undo: Removals) returns (end: CopyEnd)
      requires Numbered(state) && source in state.volumes && target in state.volumes
      requires Touching(state, target) == {}
      modifies this
      ensures (state, end) == CopyResult(old(state), source, target, fault, undo)
    {
      end := CreateAndStartFcMap(source, target, false, fault);
      if end == CommandFailed && !undo.unseen {
        DeleteUnstartedFcMapIfExists(target, undo.failing);
      }
    }

    method DeleteUnstartedFcMapIfExists(target: Name, failing: set<MapId>)
      requires target in state.volumes
      modifies this
      ensures state == WithoutUnstarted(old(state), target, failing)
    {
      var ref := FcId(state, target);
      if ref.One? {
        var ok := RmFcMap(ref.id, false, ref.id in failing);
      }
    }

    // ---------- snapshots ----------

    /** Up to five tries. */
    method RollbackCreateSnapshot(target: Name, tries: seq<Removals>)
      requires |tries| == ROLLBACK_TRIES
      modifies this
      ensures state == Undo(old(state), target, tries)
    {
      for i := 0 to ROLLBACK_TRIES
        invariant Undo(state, target, tries[i..]) == Undo(old(state), target, tries)
      {
        var r := tries[i];
        assert tries[i..][0] == r && tries[i..][1..] == tries[i + 1..];
        if r.unseen || target !in state.volumes {
          return;
        }
        DeleteUnstartedFcMapIfExists(target, r.failing);
        var ok := RmVolume(target, r);
        if ok {
          return;
        }
      }
    }

    method CreateSnapshot(sourceUid: Uid, target: Name, fault: SnapshotFault, tries: seq<Removals>)
      returns (outcome: Outcome)
      requires Integrity(state) && |tries| == ROLLBACK_TRIES
      modifies this
      ensures NameOf(old(state), sourceUid) == None ==> outcome == Failed(ObjectNotFound) && state == old(state)
      ensures forall source | HasUid(old(state), source, sourceUid) ::
                (state, outcome) == SnapshotResult(old(state), source, target, fault, tries)
    {
      var found := NameByUid(sourceUid);
      if found.None? {
        return Failed(ObjectNotFound);
      }
      assert forall source | HasUid(state, source, sourceUid) :: source == found.value;
      outcome := CreateSnapshotOf(found.value, target, fault, tries);
    }

    method CreateSnapshotOf(source: Name, target: Name, fault: SnapshotFault, tries: seq<Removals>)
      returns (outcome: Outcome)
      requires Integrity(state) && source in state.volumes && |tries| == ROLLBACK_TRIES
      modifies this
      ensures (state, outcome) == SnapshotResult(old(state), source, target, fault, tries)
    {
      ghost var before := state;
      var made := MkVolume(target, ConvertSize(state.volumes[source].capacity), fault.MkVolumeFails?,
                           fault.MkVolumeFails? && fault.rejected);
      if made == NameTaken {
        return Failed(VolumeExists);
      }
      if made == Rejected {
        return Failed(CreationRefused);
      }
      if made == Made {
        if fault == ReadBackFails {
          return Failed(Unread);
        }
        MadeHasIntegrity(before, target, ConvertSize(before.volumes[source].capacity));
        var end := CreateAndStartFcMap(source, target, true, fault.fault);
        if end == Started {
          return Done;
        }
        if end == ReadFailed {
          return Failed(Unread);
        }
      }
      RollbackCreateSnapshot(target, tries);
      outcome := Failed(CliFailure);
      if target !in before.volumes && made != Made {
        assert Undo(before, target, tries) == before by {
          assert UndoTry(before, target, tries[0]) == (before, true);
        }
      }
    }
  }

  function WithStarted(a: Array, id: MapId): Array
    requires id in a.fcmaps
  {
    a.(fcmaps := a.fcmaps[id := a.fcmaps[id].(status := Copying)])
  }

  function Enlarged(a: Array, name: Name, increase: int): Array
    requires name in a.volumes && increase > 0
  {
    a.(volumes := a.volumes[name := a.volumes[name].(capacity := a.volumes[name].capacity + increase)])
  }

  lemma AtMostOneTarget(a: Array, name: Name)
    requires OneTarget(a)
    ensures |AsTarget(a, name)| <= 1
    ensures AsTarget(a, name) == {} || |AsTarget(a, name)| == 1
  {
    if i :| i in AsTarget(a, name) {
      assert AsTarget(a, name) == {i};
    }
  }

  /** The mapping onto a volume, if it is exactly one, and all mappings from it. */
  function ObjectFcMaps(a: Array, name: Name): set<MapId> {
    var asTarget := AsTarget(a, name);
    (if |asTarget| == 1 then asTarget else {}) + AsSource(a, name)
  }

  lemma ObjectFcMapsAreAll(a: Array, name: Name)
    requires OneTarget(a)
    ensures ObjectFcMaps(a, name) == Touching(a, name)
  {
    AtMostOneTarget(a, name);
  }

  lemma OneMoreRemoved(a: Array, ids: set<MapId>, todo: set<MapId>, id: MapId, failing: set<MapId>)
    requires id in ids && id !in todo
    ensures WithoutMaps(a, ids - todo - failing)
            == if id in failing then WithoutMaps(a, ids - (todo + {id}) - failing)
               else WithoutMaps(WithoutMaps(a, ids - (todo + {id}) - failing), {id})
  {
    var before := ids - (todo + {id}) - failing;
    if id in failing {
      assert ids - todo - failing == before;
    } else {
      assert ids - todo - failing == before + {id};
      assert a.fcmaps - (before + {id}) == a.fcmaps - before - {id};
    }
  }

  /** Clearing the mappings from a volume and then the one onto it clears all that touch it. */
  lemma ClearedInTwo(a: Array, name: Name, r: Removals, id: MapId)
    requires AsTarget(a, name) == {id} && AsTarget(a, name) !! AsSource(a, name)
    ensures
      var b := WithoutMaps(a, AsSource(a, name) - r.failing);
      && id in a.fcmaps && id in b.fcmaps
      && Cleared(a, name, r)
         == if id !in r.failing then WithoutMaps(b, {id})
            else if r.stops then b.(fcmaps := b.fcmaps[id := b.fcmaps[id].(status := Stopped)])
            else b
  {
    assert id in AsTarget(a, name);
    var b := WithoutMaps(a, AsSource(a, name) - r.failing);
    assert id !in AsSource(a, name);
    var c := if id !in r.failing then b.fcmaps - {id}
             else if r.stops then b.fcmaps[id := b.fcmaps[id].(status := Stopped)]
             else b.fcmaps;
    assert Cleared(a, name, r).fcmaps == c;
  }

  lemma NothingOntoIt(a: Array, name: Name, r: Removals)
    requires |AsTarget(a, name)| != 1 && |AsTarget(a, name)| <= 1
    ensures Cleared(a, name, r) == WithoutMaps(a, AsSource(a, name) - r.failing)
  {
    assert AsTarget(a, name) == {};
    assert Cleared(a, name, r).fcmaps == a.fcmaps - (AsSource(a, name) - r.failing);
  }
}
