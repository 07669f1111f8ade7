/** Theorems about whole runs of the controller on SVC, with every command free to fail: integrity of
    the FlashCopy graph, what is never deleted, and tight expansion. */
module ControllerLaws {
  import opened Options
  import opened SvcArray
  import opened SvcLaws
  import opened ControllerSpec
  import opened CreateLaws

  // ---------- the calls ----------

  /** The calls with all that fails in them, and the array finishing a background copy on its own. */
  datatype Op =
    | CreateVolume(req: CreateRequest, fault: CreateFault, cleanup: Cleanup)
    | CreateSnapshot(name: Name, source: Uid, lookup: Lookup, atSnapshot: SnapshotFault, tries: seq<Removals>)
    | DeleteVolume(uid: Uid, removals: Removals)
    | DeleteSnapshot(uid: Uid, removals: Removals)
    | Expand(uid: Uid, bytes: nat, faults: ExpandFaults)
    | CopyFinishes(id: MapId)

  ghost function After(a: Array, op: Op): Array {
    match op
    case CreateVolume(req, fault, cleanup) => CreateResult(a, req, fault, cleanup).0
    case CreateSnapshot(name, source, lookup, fault, tries) =>
      if !TakenForFree(a, name, lookup) || !Found(a, source) then a
      else SnapshotResult(a, NameOf(a, source).value, name, fault, tries).0
    case DeleteVolume(uid, removals) => DeleteByUid(a, uid, false, removals).0
    case DeleteSnapshot(uid, removals) => DeleteByUid(a, uid, true, removals).0
    case Expand(uid, bytes, faults) => ExpandRpcResult(a, uid, bytes, faults).0
    case CopyFinishes(id) =>
      if id in a.fcmaps && a.fcmaps[id].status == Copying && !a.fcmaps[id].noCopy
      then a.(fcmaps := a.fcmaps[id := a.fcmaps[id].(status := IdleOrCopied)]) else a
  }

  /** The name counts as free, because it is, or because its lookup was lost. */
  predicate TakenForFree(a: Array, name: Name, lookup: Lookup) {
    lookup != Raises && !Finds(a, name, lookup)
  }

  ghost predicate Found(a: Array, uid: Uid) {
    NameOf(a, uid).Some? && NameOf(a, uid).value in a.volumes
  }

  /** What the methods are proved to do is what the runs are made of. */
  lemma SnapshotCallIsAfter(
    a: Array, name: Name, source: Uid, lookup: Lookup, fault: SnapshotFault, tries: seq<Removals>,
    response: SnapshotResponse, a': Array)
    requires CreateSnapshotSpec(a, name, source, lookup, fault, tries, response, a')
    ensures a' == After(a, CreateSnapshot(name, source, lookup, fault, tries))
  {
    if TakenForFree(a, name, lookup) && NameOf(a, source).Some? {
      assert HasUid(a, NameOf(a, source).value, source);
    }
  }

  // ---------- when a call leaves a mapping dangling ----------

  /** Undoing a snapshot is reached: its making failed in a command. */
  predicate Undoes(a: Array, name: Name, fault: SnapshotFault) {
    if name in a.volumes then fault == MkVolumeFails(false)
    else fault == AtCopy(MkFcMapFails) || fault == AtCopy(StartFails)
  }

  /** What there is to undo. */
  function ToUndo(a: Array, source: Name, name: Name, fault: SnapshotFault): Array
    requires source in a.volumes && Undoes(a, name, fault)
  {
    if name in a.volumes then a
    else CopyAttempt(WithVolume(a, name, ConvertSize(a.volumes[source].capacity)), source, name, true, fault.fault)
  }

  /** Some volume is removed, the array letting it go, while the removal of a mapping touching it has
      failed: in a deletion, in a roll-back of a clone, or in undoing a snapshot. */
  ghost predicate Dangles(a: Array, op: Op) {
    match op
    case CreateVolume(req, fault, cleanup) => CreateDangles(a, req, fault, cleanup)
    case CreateSnapshot(name, source, lookup, fault, tries) =>
      && TakenForFree(a, name, lookup) && Found(a, source) && Undoes(a, name, fault)
      && UndoDangles(ToUndo(a, NameOf(a, source).value, name, fault), name, tries)
    case DeleteVolume(uid, removals) => ByUidDangles(a, uid, false, removals)
    case DeleteSnapshot(uid, removals) => ByUidDangles(a, uid, true, removals)
    case Expand(_, _, _) => false
    case CopyFinishes(_) => false
  }

  lemma SnapshotDanglesExactly(a: Array, source: Name, name: Name, fault: SnapshotFault, tries: seq<Removals>)
    requires Integrity(a) && source in a.volumes
    ensures Integrity(SnapshotResult(a, source, name, fault, tries).0) <==>
            !(Undoes(a, name, fault) && UndoDangles(ToUndo(a, source, name, fault), name, tries))
  {
    SnapshotStates(a, source, name, fault, tries);
    AttemptsHaveIntegrity(a, source, name, fault);
    if Undoes(a, name, fault) {
      UndoDanglesExactly(ToUndo(a, source, name, fault), name, tries);
    }
  }

  /** The states in which creating a snapshot can end. */
  lemma SnapshotStates(a: Array, source: Name, name: Name, fault: SnapshotFault, tries: seq<Removals>)
    requires source in a.volumes
    ensures
      var b := SnapshotResult(a, source, name, fault, tries).0;
      var made := WithVolume(a, name, ConvertSize(a.volumes[source].capacity));
      if Undoes(a, name, fault) then b == Undo(ToUndo(a, source, name, fault), name, tries)
      else
        || b == a
        || (name !in a.volumes
            && (b == made || (fault.AtCopy? && b == CopyAttempt(made, source, name, true, fault.fault))))
  {
  }

  lemma AttemptsHaveIntegrity(a: Array, source: Name, name: Name, fault: SnapshotFault)
    requires Integrity(a) && source in a.volumes
    ensures
      var made := WithVolume(a, name, ConvertSize(a.volumes[source].capacity));
      name !in a.volumes ==>
        Integrity(made) && (fault.AtCopy? ==> Integrity(CopyAttempt(made, source, name, true, fault.fault)))
  {
    if name !in a.volumes {
      var capacity := ConvertSize(a.volumes[source].capacity);
      MadeHasIntegrity(a, name, capacity);
      if fault.AtCopy? {
        AttemptHasIntegrity(WithVolume(a, name, capacity), source, name, true, fault.fault);
      }
    }
  }

  lemma ExpandHasIntegrity(a: Array, uid: Uid, bytes: nat, faults: ExpandFaults)
    requires Integrity(a)
    ensures Integrity(ExpandRpcResult(a, uid, bytes, faults).0)
    ensures SameVolumes(a, ExpandRpcResult(a, uid, bytes, faults).0)
  {
    ExpandStates(a, uid, bytes, faults);
    if Found(a, uid) {
      ExpandNamedHasIntegrity(a, NameOf(a, uid).value, bytes, faults.failing, faults.extendFails);
    }
  }

  lemma ExpandStates(a: Array, uid: Uid, bytes: nat, faults: ExpandFaults)
    ensures
      var b := ExpandRpcResult(a, uid, bytes, faults).0;
      b == a
      || (Found(a, uid)
          && b == ExpandResult(a, NameOf(a, uid).value, bytes, false, faults.failing, faults.extendFails).0)
  {
  }

  lemma ExpandNamedHasIntegrity(a: Array, name: Name, bytes: nat, failing: set<MapId>, extendFails: bool)
    requires Integrity(a) && name in a.volumes
    ensures Integrity(ExpandResult(a, name, bytes, false, failing, extendFails).0)
    ensures SameVolumes(a, ExpandResult(a, name, bytes, false, failing, extendFails).0)
  {
    var b := ExpandResult(a, name, bytes, false, failing, extendFails).0;
    var cleared := WithoutMaps(a, Touching(a, name) - failing);
    var resized := cleared.(volumes := a.volumes[name := a.volumes[name].(capacity := ConvertSize(bytes))]);
    assert b == a || b == cleared || b == resized;
    ClearingHasIntegrity(a, Touching(a, name) - failing);
    ResizedHasIntegrity(cleared, name, ConvertSize(bytes));
    ResizedIsSame(a, cleared, name, ConvertSize(bytes));
  }

  lemma ResizedIsSame(a: Array, b: Array, name: Name, capacity: nat)
    requires name in a.volumes && b.volumes == a.volumes
    ensures SameVolumes(a, a) && SameVolumes(a, b)
    ensures SameVolumes(a, b.(volumes := a.volumes[name := a.volumes[name].(capacity := capacity)]))
  {
  }

  lemma ClearingHasIntegrity(a: Array, ids: set<MapId>)
    requires Integrity(a)
    ensures Integrity(WithoutMaps(a, ids))
  {
    ShrunkKeepsIntegrity(a, WithoutMaps(a, ids), ids);
  }

  lemma ResizedHasIntegrity(a: Array, name: Name, capacity: nat)
    requires Integrity(a) && name in a.volumes
    ensures Integrity(a.(volumes := a.volumes[name := a.volumes[name].(capacity := capacity)]))
  {
  }

  /** The volumes of the one array are in the other, under the same names and uids. */
  ghost predicate SameVolumes(a: Array, b: Array) {
    forall n | n in a.volumes :: n in b.volumes && b.volumes[n].uid == a.volumes[n].uid
  }

  lemma StepDanglesExactly(a: Array, op: Op)
    requires Integrity(a)
    ensures Integrity(After(a, op)) <==> !Dangles(a, op)
  {
    match op
    case CreateVolume(req, fault, cleanup) => CreateDanglesExactly(a, req, fault, cleanup);
    case CreateSnapshot(name, source, lookup, fault, tries) =>
      if TakenForFree(a, name, lookup) && Found(a, source) {
        SnapshotDanglesExactly(a, NameOf(a, source).value, name, fault, tries);
      }
    case DeleteVolume(uid, removals) => ByUidDanglesExactly(a, uid, false, removals);
    case DeleteSnapshot(uid, removals) => ByUidDanglesExactly(a, uid, true, removals);
    case Expand(uid, bytes, faults) => ExpandHasIntegrity(a, uid, bytes, faults);
    case CopyFinishes(id) => FinishedHasIntegrity(a, id);
  }

  lemma FinishedHasIntegrity(a: Array, id: MapId)
    requires Integrity(a)
    ensures Integrity(After(a, CopyFinishes(id)))
  {
    if id in a.fcmaps {
      var finished := a.fcmaps[id].(status := IdleOrCopied);
      assert finished.source == a.fcmaps[id].source && finished.target == a.fcmaps[id].target;
    }
  }

  // ---------- what is never deleted ----------

  /** The source of a snapshot or of a copy that is not done is still there, with its identity. */
  ghost predicate ProtectsSources(a: Array, a': Array) {
    forall id | id in a.fcmaps && Unfinished(a.fcmaps[id]) ::
      var source := a.fcmaps[id].source;
      source in a.volumes ==> source in a'.volumes && a'.volumes[source].uid == a.volumes[source].uid
  }

  /** A snapshot whose name is in use, whose lookup of that name is lost and whose making of a volume
      then fails without a rejection: the clean-up is let loose on the volume that was there. */
  predicate LetLoose(a: Array, name: Name, lookup: Lookup, fault: SnapshotFault) {
    lookup == ObjectLost && name in a.volumes && fault == MkVolumeFails(false)
  }

  predicate Overreaches(a: Array, op: Op) {
    op.CreateSnapshot? && LetLoose(a, op.name, op.lookup, op.atSnapshot)
  }

  /** The clean-up that is let loose gets as far as deleting the volume. */
  ghost predicate DeletesVolume(a: Array, op: Op) {
    Overreaches(a, op) && Found(a, op.source) && UndoRemoves(a, op.name, op.tries)
  }

  /** And that volume is the source of a snapshot or of an unfinished copy. */
  ghost predicate DeletesSource(a: Array, op: Op) {
    DeletesVolume(a, op) && SourceBusy(a, op.name)
  }

  lemma DeleteProtects(a: Array, uid: Uid, isSnapshot: bool, r: Removals)
    ensures ProtectsSources(a, DeleteByUid(a, uid, isSnapshot, r).0)
  {
    if NameOf(a, uid).Some? && !SourceBusy(a, NameOf(a, uid).value) {
      var name := NameOf(a, uid).value;
      forall id | id in a.fcmaps && Unfinished(a.fcmaps[id])
        ensures a.fcmaps[id].source != name
      {
        assert id in AsSource(a, name) ==> SourceBusy(a, name);
      }
    }
  }

  /** A snapshot call leaves every volume in place exactly when it does not overreach and delete. */
  lemma SnapshotSparesExactly(a: Array, op: Op)
    requires Integrity(a) && op.CreateSnapshot?
    ensures SameVolumes(a, After(a, op)) <==> !DeletesVolume(a, op)
    ensures DeletesVolume(a, op) ==> After(a, op).volumes == a.volumes - {op.name}
  {
    if TakenForFree(a, op.name, op.lookup) && Found(a, op.source) {
      if op.name in a.volumes {
        UndoRemovesExactly(a, op.name, op.tries);
      } else {
        SnapshotOnlyAdds(a, NameOf(a, op.source).value, op.name, op.atSnapshot, op.tries);
      }
    }
  }

  lemma KeptVolumesProtect(a: Array, b: Array)
    requires SameVolumes(a, b)
    ensures ProtectsSources(a, b)
  {
  }

  /** A volume may go, as far as sources are concerned, exactly when no mapping from it is unfinished. */
  lemma RemovalProtectsExactly(a: Array, b: Array, name: Name)
    requires EndsExist(a) && b.volumes == a.volumes - {name}
    ensures ProtectsSources(a, b) <==> !SourceBusy(a, name)
  {
    if SourceBusy(a, name) {
      var id :| id in AsSource(a, name) && Unfinished(a.fcmaps[id]);
      assert a.fcmaps[id].source !in b.volumes;
    } else {
      forall id | id in a.fcmaps && Unfinished(a.fcmaps[id])
        ensures a.fcmaps[id].source != name
      {
        assert id in AsSource(a, name) ==> SourceBusy(a, name);
      }
    }
  }

  lemma SnapshotProtectsExactly(a: Array, op: Op)
    requires Integrity(a) && op.CreateSnapshot?
    ensures ProtectsSources(a, After(a, op)) <==> !DeletesSource(a, op)
  {
    SnapshotSparesExactly(a, op);
    var b := After(a, op);
    if DeletesVolume(a, op) {
      RemovalProtectsExactly(a, b, op.name);
    } else {
      KeptVolumesProtect(a, b);
    }
  }

  lemma StepProtectsExactly(a: Array, op: Op)
    requires Integrity(a)
    ensures ProtectsSources(a, After(a, op)) <==> !DeletesSource(a, op)
  {
    match op
    case CreateVolume(req, fault, cleanup) => CreateSparesWhatExists(a, req, fault, cleanup);
    case CreateSnapshot(_, _, _, _, _) => SnapshotProtectsExactly(a, op);
    case DeleteVolume(uid, removals) => DeleteProtects(a, uid, false, removals);
    case DeleteSnapshot(uid, removals) => DeleteProtects(a, uid, true, removals);
    case Expand(uid, bytes, faults) => ExpandHasIntegrity(a, uid, bytes, faults);
    case CopyFinishes(_) =>
  }

  /** Whatever its clean-up meets with, a snapshot call of an existing volume leaves every volume in
      place if and only if it is not let loose on one; and then it protects the sources of snapshots
      and unfinished copies if and only if that one is no such source. */
  lemma OverreachingDeletes(a: Array, name: Name, source: Uid, lookup: Lookup, fault: SnapshotFault)
    requires Integrity(a) && Found(a, source)
    ensures (forall tries | |tries| == ROLLBACK_TRIES ::
               SameVolumes(a, After(a, CreateSnapshot(name, source, lookup, fault, tries))))
            <==> !LetLoose(a, name, lookup, fault)
    ensures (forall tries | |tries| == ROLLBACK_TRIES ::
               ProtectsSources(a, After(a, CreateSnapshot(name, source, lookup, fault, tries))))
            <==> !(LetLoose(a, name, lookup, fault) && SourceBusy(a, name))
  {
    forall tries: seq<Removals> | |tries| == ROLLBACK_TRIES
      ensures
        var op := CreateSnapshot(name, source, lookup, fault, tries);
        && (SameVolumes(a, After(a, op)) <==> !DeletesVolume(a, op))
        && (ProtectsSources(a, After(a, op)) <==> !DeletesSource(a, op))
    {
      SnapshotSparesExactly(a, CreateSnapshot(name, source, lookup, fault, tries));
      SnapshotProtectsExactly(a, CreateSnapshot(name, source, lookup, fault, tries));
    }
    if LetLoose(a, name, lookup, fault) {
      var tries := seq(ROLLBACK_TRIES, _ => Removals(false, {}, false, false, true));
      assert |tries| == ROLLBACK_TRIES && VolumeGoes(WithoutUnstarted(a, name, {}), name, tries[0]);
      assert UndoRemoves(a, name, tries);
      assert DeletesVolume(a, CreateSnapshot(name, source, lookup, fault, tries));
    }
  }

  lemma UndoneByFirst(a: Array, name: Name, tries: seq<Removals>)
    requires Integrity(a) && name in a.volumes && Undoable(a, name)
    requires tries != [] && !tries[0].unseen && !tries[0].volumeFails && tries[0].failing == {}
    ensures Undo(a, name, tries) == Removed(a, name) && Integrity(Removed(a, name))
  {
    var cleared := WithoutUnstarted(a, name, {});
    UnstartedGoes(a, name);
    WithoutUnstartedHasIntegrity(a, name, {});
    assert cleared == WithoutMaps(a, Touching(a, name)) by {
      if Touching(a, name) == {} {
        assert a.fcmaps - {} == a.fcmaps;
      } else {
        assert |Touching(a, name)| == 1;
      }
    }
    UntouchedCanGo(cleared, name);
  }

  /** Let loose on a volume with at most one mapping, which is not copying, the clean-up deletes both
      with nothing else failing and nothing left dangling: sources are protected exactly when the
      mapping is not an unfinished one from the volume. */
  lemma OverreachingUnhindered(a: Array, name: Name, source: Uid, tries: seq<Removals>)
    requires Integrity(a) && Found(a, source) && name in a.volumes && Undoable(a, name)
    requires tries != [] && !tries[0].unseen && !tries[0].volumeFails && tries[0].failing == {}
    ensures
      var op := CreateSnapshot(name, source, ObjectLost, MkVolumeFails(false), tries);
      && After(a, op) == Removed(a, name) && !Dangles(a, op)
      && (ProtectsSources(a, After(a, op)) <==> !SourceBusy(a, name))
  {
    var op := CreateSnapshot(name, source, ObjectLost, MkVolumeFails(false), tries);
    var b := Removed(a, name);
    UndoneByFirst(a, name, tries);
    assert After(a, op) == b by {
      OverreachingUndoes(a, name, source, tries);
    }
    StepDanglesExactly(a, op);
    RemovalProtectsExactly(a, b, name);
  }

  lemma OverreachingUndoes(a: Array, name: Name, source: Uid, tries: seq<Removals>)
    requires Found(a, source) && name in a.volumes
    ensures After(a, CreateSnapshot(name, source, ObjectLost, MkVolumeFails(false), tries)) == Undo(a, name, tries)
  {
  }

  /** Two volumes, and a stopped snapshot of the one on the other. */
  function StoppedSnapshot(source: Name, target: Name, id: MapId): Array {
    Array(map[source := Volume(0, 512), target := Volume(1, 512)],
          map[id := FcMap(source, target, true, Stopped)], 2, id + 1)
  }

  /** So the volume that a stopped snapshot was taken of can be deleted by a call that was to make a
      snapshot under its name. */
  lemma OverreachingDeletesSource(source: Name, target: Name, id: MapId, tries: seq<Removals>)
    requires source != target && tries != [] && tries[0] == Removals(false, {}, true, false, false)
    ensures
      var a := StoppedSnapshot(source, target, id);
      var op := CreateSnapshot(source, 1, ObjectLost, MkVolumeFails(false), tries);
      && Integrity(a) && source !in After(a, op).volumes && id !in After(a, op).fcmaps
      && !Dangles(a, op) && !ProtectsSources(a, After(a, op))
  {
    var a := StoppedSnapshot(source, target, id);
    assert Touching(a, source) == {id};
    assert HasUid(a, target, 1);
    NameIsUnique(a, target, 1);
    assert id in AsSource(a, source) && Unfinished(a.fcmaps[id]);
    assert SourceBusy(a, source);
    OverreachingUnhindered(a, source, 1, tries);
  }

  // ---------- the answers of a snapshot call ----------

  /** With one mapping onto it, a volume is a snapshot of that mapping's source, if its copy rate is 0. */
  lemma SnapshotOfItsOrigin(a: Array, name: Name, id: MapId, from: Name)
    requires OneTarget(a) && id in a.fcmaps && a.fcmaps[id].target == name
    ensures IsSnapshotOf(a, name, from) <==> a.fcmaps[id].noCopy && a.fcmaps[id].source == from
  {
    assert AsTarget(a, name) == {id};
    if other :| AsTarget(a, name) == {other} && a.fcmaps[other].noCopy && a.fcmaps[other].source == from {
      assert id in {other};
    }
  }

  /** A snapshot in place is answered with its uid and capacity, or ALREADY_EXISTS if it is one of
      another volume or that volume's name is lost. */
  lemma ExistingSnapshotIsAnswered(
    a: Array, name: Name, id: MapId, source: Uid, lookup: Lookup, fault: SnapshotFault, tries: seq<Removals>,
    response: SnapshotResponse, b: Array)
    requires Integrity(a) && name in a.volumes && (lookup == Clear || lookup == OriginLost)
    requires id in a.fcmaps && a.fcmaps[id].target == name && a.fcmaps[id].noCopy
    requires CreateSnapshotSpec(a, name, source, lookup, fault, tries, response, b)
    ensures b == a
    ensures response == if lookup == Clear && HasUid(a, a.fcmaps[id].source, source)
                        then Snapped(a.volumes[name].uid, a.volumes[name].capacity) else NotSnapped(AlreadyExists)
  {
    forall from
      ensures IsSnapshotOf(a, name, from) <==> a.fcmaps[id].source == from
    {
      SnapshotOfItsOrigin(a, name, id, from);
    }
    assert IsSnapshotOf(a, name, a.fcmaps[id].source);
  }

  /** A volume in place that is no snapshot is answered INTERNAL. */
  lemma ExistingVolumeIsNoSnapshot(
    a: Array, name: Name, source: Uid, lookup: Lookup, fault: SnapshotFault, tries: seq<Removals>,
    response: SnapshotResponse, b: Array)
    requires Integrity(a) && name in a.volumes && (lookup == Clear || lookup == OriginLost)
    requires forall id | id in a.fcmaps :: a.fcmaps[id].target != name || !a.fcmaps[id].noCopy
    requires CreateSnapshotSpec(a, name, source, lookup, fault, tries, response, b)
    ensures b == a && response == NotSnapped(Internal)
  {
    forall id | AsTarget(a, name) == {id}
      ensures id in a.fcmaps && !a.fcmaps[id].noCopy
    {
      assert id in AsTarget(a, name);
    }
  }

  /** The answer for a name that is taken for free: NOT_FOUND without the source, the new snapshot, of
      the source's capacity in whole blocks, if nothing fails and the name is free, and else INTERNAL. */
  lemma NewSnapshotIsAnswered(
    a: Array, name: Name, source: Uid, lookup: Lookup, fault: SnapshotFault, tries: seq<Removals>,
    response: SnapshotResponse, b: Array)
    requires Integrity(a) && (lookup == Raises || TakenForFree(a, name, lookup))
    requires CreateSnapshotSpec(a, name, source, lookup, fault, tries, response, b)
    ensures
      && (lookup == Raises ==> response == NotSnapped(Internal) && b == a)
      && (lookup != Raises && !Exists(a, source) ==> response == NotSnapped(NotFound) && b == a)
      && (lookup != Raises ==> forall from | HasUid(a, from, source) ::
            && (response.Snapped? <==> name !in a.volumes && fault == AtCopy(NoFault))
            && (response.NotSnapped? ==> response.code == Internal)
            && (response.Snapped? ==>
                  && response.uid == a.nextUid && response.capacity == ConvertSize(a.volumes[from].capacity)
                  && b.volumes == a.volumes[name := Volume(response.uid, response.capacity)]
                  && b.fcmaps == a.fcmaps[a.nextMap := FcMap(from, name, true, Copying)]))
  {
  }

  // ---------- repeating a snapshot call ----------

  /** Repeating a call that has just made its snapshot changes nothing, as long as its lookup is not
      lost; it is answered the same if and only if the lookup is clear. */
  lemma SnapshotIsIdempotentExactly(
    a: Array, name: Name, source: Uid, lookup: Lookup, fault: SnapshotFault, tries: seq<Removals>,
    first: SnapshotResponse, b: Array,
    lookup': Lookup, fault': SnapshotFault, tries': seq<Removals>, second: SnapshotResponse, c: Array)
    requires Integrity(a) && name !in a.volumes && Found(a, source) && lookup' != ObjectLost
    requires CreateSnapshotSpec(a, name, source, lookup, fault, tries, first, b) && first.Snapped?
    requires CreateSnapshotSpec(b, name, source, lookup', fault', tries', second, c)
    ensures c == b && (second == first <==> lookup' == Clear)
  {
    var from := NameOf(a, source).value;
    assert HasUid(a, from, source);
    var capacity := ConvertSize(a.volumes[from].capacity);
    MadeHasIntegrity(a, name, capacity);
    OneNewMap(WithVolume(a, name, capacity), from, name, true, Copying);
    assert AsTarget(b, name) == {a.nextMap};
    assert IsSnapshotOf(b, name, from) && HasUid(b, from, source);
  }

  // ---------- whole runs ----------

  ghost predicate AllWithIntegrity(a: Array, ops: seq<Op>)
    decreases |ops|
  {
    Integrity(a) && (ops != [] ==> AllWithIntegrity(After(a, ops[0]), ops[1..]))
  }

  ghost predicate NoneDangles(a: Array, ops: seq<Op>)
    decreases |ops|
  {
    ops != [] ==> !Dangles(a, ops[0]) && NoneDangles(After(a, ops[0]), ops[1..])
  }

  ghost predicate NoneDeletesSource(a: Array, ops: seq<Op>)
    decreases |ops|
  {
    ops != [] ==> !DeletesSource(a, ops[0]) && NoneDeletesSource(After(a, ops[0]), ops[1..])
  }

  ghost predicate AllProtectSources(a: Array, ops: seq<Op>)
    decreases |ops|
  {
    ops != [] ==> ProtectsSources(a, After(a, ops[0])) && AllProtectSources(After(a, ops[0]), ops[1..])
  }

  /** Over every run from an array with integrity, with every command free to fail: every mapping keeps
      both its ends and no volume becomes a target twice, throughout, if and only if no call of the
      run dangles. Then no source of a snapshot or of an unfinished copy is ever deleted either, if and
      only if no snapshot call of the run overreaches as far as one. */
  lemma {:induction false} RunsKeepIntegrity(a: Array, ops: seq<Op>)
    requires Integrity(a)
    ensures AllWithIntegrity(a, ops) <==> NoneDangles(a, ops)
    ensures NoneDangles(a, ops) ==> (AllProtectSources(a, ops) <==> NoneDeletesSource(a, ops))
    decreases |ops|
  {
    if ops != [] {
      StepDanglesExactly(a, ops[0]);
      if !Dangles(a, ops[0]) {
        RunsKeepIntegrity(After(a, ops[0]), ops[1..]);
      }
      StepProtectsExactly(a, ops[0]);
    }
  }

  /** No removal of a mapping fails in the call. */
  ghost predicate RemovesMappings(op: Op) {
    match op
    case CreateVolume(_, _, cleanup) =>
      cleanup.undo.failing == {} && forall r | r in cleanup.first || r in cleanup.second :: r.failing == {}
    case CreateSnapshot(_, _, _, _, tries) => forall r | r in tries :: r.failing == {}
    case DeleteVolume(_, removals) => removals.failing == {}
    case DeleteSnapshot(_, removals) => removals.failing == {}
    case Expand(_, _, _) => true
    case CopyFinishes(_) => true
  }

  lemma {:induction false} RollbackWithoutFailing(a: Array, uid: Uid, tries: seq<Removals>)
    requires forall r | r in tries :: r.failing == {}
    ensures !RollbackDangles(a, uid, tries)
    decreases |tries|
  {
    if tries != [] {
      assert tries[0] in tries;
      RollbackWithoutFailing(DeleteByUid(a, uid, false, tries[0]).0, uid, tries[1..]);
    }
  }

  /** A volume whose mappings are all removable in the clean-up: none, or one that is unstarted. */
  ghost predicate Undoable(a: Array, target: Name) {
    |Touching(a, target)| <= 1 && forall id | id in Touching(a, target) :: a.fcmaps[id].status != Copying
  }

  lemma {:induction false} UndoWithoutFailing(a: Array, target: Name, tries: seq<Removals>)
    requires Undoable(a, target) && forall r | r in tries :: r.failing == {}
    ensures !UndoDangles(a, target, tries)
    decreases |tries|
  {
    if tries != [] {
      assert tries[0] in tries;
      var b := WithoutUnstarted(a, target, {});
      UnstartedGoes(a, target);
      if !UndoTry(a, target, tries[0]).1 {
        assert UndoTry(a, target, tries[0]).0 == b;
        UndoWithoutFailing(b, target, tries[1..]);
      }
    }
  }

  lemma UnstartedGoes(a: Array, target: Name)
    requires Undoable(a, target)
    ensures Touching(WithoutUnstarted(a, target, {}), target) == {}
    ensures Undoable(WithoutUnstarted(a, target, {}), target)
  {
    var ids := Touching(a, target);
    if ids != {} {
      assert |ids| == 1;
      RemovedDoNotTouch(a, target);
    } else {
      assert WithoutUnstarted(a, target, {}).fcmaps == a.fcmaps;
    }
  }

  lemma RemovedDoNotTouch(a: Array, target: Name)
    ensures Touching(WithoutMaps(a, Touching(a, target)), target) == {}
  {
    var b := WithoutMaps(a, Touching(a, target));
    assert forall id | id in b.fcmaps :: id !in Touching(a, target) && b.fcmaps[id] == a.fcmaps[id];
  }

  /** So while all removals of mappings work, whatever else fails, no call dangles: only a snapshot that
      overreaches could. */
  lemma RemovingMappingsNeverDangles(a: Array, op: Op)
    requires Integrity(a) && RemovesMappings(op) && !Overreaches(a, op)
    ensures !Dangles(a, op)
  {
    match op
    case CreateVolume(req, fault, cleanup) =>
      if CreateDangles(a, req, fault, cleanup) {
        var made := WithVolume(a, req.name, ConvertSize(DefaultedSize(req.bytes)));
        var from := NameOf(made, req.source.value.uid).value;
        var b := CopyResult(made, from, req.name, FaultOfCopy(fault), cleanup.undo).0;
        RollbackWithoutFailing(b, a.nextUid, cleanup.first);
      }
    case CreateSnapshot(name, source, lookup, fault, tries) =>
      if Dangles(a, op) {
        var from := NameOf(a, source).value;
        var made := WithVolume(a, name, ConvertSize(a.volumes[from].capacity));
        MadeHasIntegrity(a, name, ConvertSize(a.volumes[from].capacity));
        NewIsUndoable(made, from, name, fault.fault);
        UndoWithoutFailing(ToUndo(a, from, name, fault), name, tries);
      }
    case DeleteVolume(_, _) =>
    case DeleteSnapshot(_, _) =>
    case Expand(_, _, _) =>
    case CopyFinishes(_) =>
  }

  lemma NewIsUndoable(a: Array, source: Name, target: Name, fault: CopyFault)
    requires Numbered(a) && Touching(a, target) == {} && source != target && fault != NoFault
    ensures Undoable(CopyAttempt(a, source, target, true, fault), target)
  {
    OneNewMap(a, source, target, true, IdleOrCopied);
  }

  // ---------- expansion ----------

  /** A successful expansion gives at least what was asked for: either the old capacity untouched,
      or the least whole number of blocks that suffices, which is within the array's maximum. */
  lemma ExpansionIsTight(a: Array, uid: Uid, bytes: nat, faults: ExpandFaults)
    requires Integrity(a) && ExpandRpcResult(a, uid, bytes, faults).1.Expanded?
    ensures
      var (b, response) := ExpandRpcResult(a, uid, bytes, faults);
      && response.capacity >= bytes
      && (forall name | HasUid(a, name, uid) ::
            HasUid(b, name, uid) && b.volumes[name].capacity == response.capacity >= a.volumes[name].capacity)
      && if response.nodeExpansion then IsLeastFit(bytes, response.capacity) else b == a
  {
    forall name | HasUid(a, name, uid)
      ensures NameOf(a, uid) == Some(name)
    {
      NameIsUnique(a, name, uid);
    }
    LeastBlocks(bytes);
  }

  /** Some mapping touching the volume is a snapshot's, or is copying or stopped. */
  ghost predicate HasUnfinished(a: Array, name: Name) {
    exists id :: id in a.fcmaps && (a.fcmaps[id].source == name || a.fcmaps[id].target == name)
                 && (a.fcmaps[id].noCopy || a.fcmaps[id].status in {Copying, Stopped})
  }

  lemma BusyIsUnfinished(a: Array, name: Name)
    ensures Busy(a, name) <==> HasUnfinished(a, name)
  {
    if id :| id in a.fcmaps && (a.fcmaps[id].source == name || a.fcmaps[id].target == name)
             && (a.fcmaps[id].noCopy || a.fcmaps[id].status in {Copying, Stopped}) {
      assert id in Touching(a, name) && Unfinished(a.fcmaps[id]);
    }
    if id :| id in Touching(a, name) && Unfinished(a.fcmaps[id]) {
      assert a.fcmaps[id].source == name || a.fcmaps[id].target == name;
    }
  }

  /** The expansion gets as far as removing mappings. */
  ghost predicate Expands(a: Array, name: Name, bytes: nat, faults: ExpandFaults)
    requires name in a.volumes
  {
    !faults.unseen && a.volumes[name].capacity < bytes <= 281474976710656 && !HasUnfinished(a, name)
  }

  /** An expansion of a volume that exists is answered with the capacity it has if that is enough, and
      refused above 256 TiB or while a mapping touching the volume is a snapshot's or unfinished. */
  lemma ExpansionAnswersExactly(a: Array, name: Name, uid: Uid, bytes: nat, faults: ExpandFaults)
    requires Integrity(a) && HasUid(a, name, uid)
    ensures
      var capacity := a.volumes[name].capacity;
      ExpandRpcResult(a, uid, bytes, faults).1 ==
      if faults.unseen then NotExpanded(Internal)
      else if bytes <= capacity then Expanded(capacity, false)
      else if bytes > 281474976710656 then NotExpanded(OutOfRange)
      else if HasUnfinished(a, name) then NotExpanded(FailedPrecondition)
      else if faults.extendFails || faults.rereadFails then NotExpanded(Internal)
      else Expanded(ConvertSize(bytes), true)
  {
    NameIsUnique(a, name, uid);
    BusyIsUnfinished(a, name);
  }

  /** All mappings touching the volume go before it grows, but for those whose removal fails, and it
      gets its new capacity if the command works. Nothing else changes. */
  lemma ExpansionLeavesExactly(a: Array, name: Name, uid: Uid, bytes: nat, faults: ExpandFaults)
    requires Integrity(a) && HasUid(a, name, uid)
    ensures
      var b := ExpandRpcResult(a, uid, bytes, faults).0;
      && b.fcmaps == (if Expands(a, name, bytes, faults) then a.fcmaps - (Touching(a, name) - faults.failing)
                      else a.fcmaps)
      && b.volumes == (if Expands(a, name, bytes, faults) && !faults.extendFails
                       then a.volumes[name := Volume(uid, ConvertSize(bytes))] else a.volumes)
  {
    NameIsUnique(a, name, uid);
    BusyIsUnfinished(a, name);
  }

  lemma ExpansionNeedsTheVolume(a: Array, uid: Uid, bytes: nat, faults: ExpandFaults)
    requires !Exists(a, uid) && !faults.unseen
    ensures ExpandRpcResult(a, uid, bytes, faults) == (a, NotExpanded(NotFound))
  {
  }
}
