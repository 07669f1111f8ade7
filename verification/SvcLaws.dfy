/** Laws of the SVC operations: what refusal, success and failure leave of the array, and exactly when
    a deletion or a clean-up leaves a mapping dangling. */
module SvcLaws {
  import opened Options
  import opened SvcArray

  /** Distinct volumes have distinct uids, so that a lookup has one answer. */
  lemma NameIsUnique(a: Array, name: Name, uid: Uid)
    requires Numbered(a) && HasUid(a, name, uid)
    ensures NameOf(a, uid) == Some(name)
  {
  }

  lemma MadeHasIntegrity(a: Array, name: Name, size: nat)
    requires Integrity(a) && name !in a.volumes
    ensures Integrity(WithVolume(a, name, size)) && Touching(WithVolume(a, name, size), name) == {}
  {
  }

  /** Removing or stopping mappings keeps integrity. */
  lemma ShrunkKeepsIntegrity(a: Array, b: Array, ids: set<MapId>)
    requires Integrity(a) && Shrunk(a, b, ids) && b.volumes == a.volumes && CountersGrow(a, b)
    ensures Integrity(b)
  {
  }

  lemma ClearedIsShrunk(a: Array, name: Name, r: Removals)
    ensures Shrunk(a, Cleared(a, name, r), Touching(a, name))
  {
  }

  lemma FailedDeleteKeepsIntegrity(a: Array, uid: Uid, isSnapshot: bool, r: Removals)
    requires Integrity(a)
    ensures DeleteByUid(a, uid, isSnapshot, r).1 != Done ==>
              Integrity(DeleteByUid(a, uid, isSnapshot, r).0) && DeleteByUid(a, uid, isSnapshot, r).0.volumes == a.volumes
  {
    FailedDeleteStates(a, uid, isSnapshot, r);
    if NameOf(a, uid).Some? {
      var name := NameOf(a, uid).value;
      ClearedIsShrunk(a, name, r);
      ShrunkKeepsIntegrity(a, Cleared(a, name, r), Touching(a, name));
    }
  }

  /** The states in which a deletion that fails can end. */
  lemma FailedDeleteStates(a: Array, uid: Uid, isSnapshot: bool, r: Removals)
    ensures
      var (b, outcome) := DeleteByUid(a, uid, isSnapshot, r);
      outcome == Done || b == a || (NameOf(a, uid).Some? && b == Cleared(a, NameOf(a, uid).value, r))
  {
  }

  /** A copy onto a new volume that stops short leaves at most an unstarted mapping. */
  lemma FailedCopyHasIntegrity(a: Array, source: Name, target: Name, fault: CopyFault, undo: Removals)
    requires Integrity(a) && source in a.volumes && target in a.volumes && Touching(a, target) == {}
    ensures Integrity(CopyResult(a, source, target, fault, undo).0)
  {
    var copied := CopyAttempt(a, source, target, false, fault);
    AttemptHasIntegrity(a, source, target, false, fault);
    WithoutUnstartedHasIntegrity(copied, target, undo.failing);
  }

  lemma WithoutUnstartedHasIntegrity(a: Array, target: Name, failing: set<MapId>)
    requires Integrity(a)
    ensures Integrity(WithoutUnstarted(a, target, failing))
  {
    var b := WithoutMaps(a, Touching(a, target));
    ShrunkKeepsIntegrity(a, b, Touching(a, target));
  }

  lemma AttemptHasIntegrity(a: Array, source: Name, target: Name, noCopy: bool, fault: CopyFault)
    requires Integrity(a) && source in a.volumes && target in a.volumes && Touching(a, target) == {}
    ensures Integrity(CopyAttempt(a, source, target, noCopy, fault))
  {
    assert forall id | id in a.fcmaps :: id !in AsTarget(a, target);
  }

  /** Deleting a volume that nothing touches. */
  lemma UntouchedDelete(a: Array, uid: Uid, name: Name, r: Removals)
    requires Integrity(a) && HasUid(a, name, uid) && Touching(a, name) == {}
    ensures
      var (b, outcome) := DeleteByUid(a, uid, false, r);
      && Integrity(b) && b == (if outcome == Done then WithoutVolume(a, name) else a)
      && (outcome == Done <==> !r.unseen && !r.volumeFails)
  {
    NameIsUnique(a, name, uid);
    assert Cleared(a, name, r).fcmaps == a.fcmaps;
    assert AsSource(a, name) == {};
    UntouchedCanGo(a, name);
  }

  lemma UntouchedCanGo(a: Array, name: Name)
    requires Integrity(a) && Touching(a, name) == {}
    ensures Integrity(WithoutVolume(a, name))
  {
    forall id | id in a.fcmaps
      ensures a.fcmaps[id].source != name && a.fcmaps[id].target != name
    {
      assert id !in Touching(a, name);
    }
  }

  // ---------- what a deletion does ----------

  /** A refused deletion changes nothing, for exactly two reasons; an unhindered one removes exactly
      the volume and all mappings that touch it; a hindered one removes less, and nothing else. */
  lemma DeleteRefusesOrRemoves(a: Array, name: Name, isSnapshot: bool, r: Removals)
    requires name in a.volumes && !r.unseen
    ensures
      var (b, outcome) := DeleteResult(a, name, isSnapshot, r);
      && (outcome == Failed(ObjectNotFound) <==> isSnapshot && |AsTarget(a, name)| != 1)
      && (outcome == Failed(ObjectInUse) <==> !(isSnapshot && |AsTarget(a, name)| != 1) && SourceBusy(a, name))
      && (outcome == Failed(ObjectNotFound) || outcome == Failed(ObjectInUse) ==> b == a)
      && (outcome == Done ==> b.volumes == a.volumes - {name})
      && (outcome == Failed(CliFailure) ==> b.volumes == a.volumes)
      && Shrunk(a, b, Touching(a, name))
      && (Works(a, name, r) && outcome != Failed(ObjectNotFound) && outcome != Failed(ObjectInUse) ==>
            outcome == Done && b == Removed(a, name))
  {
    ClearedIsShrunk(a, name, r);
    if Works(a, name, r) {
      ClearedCompletely(a, name, r);
    }
  }

  /** A volume that is read is refused as in use exactly if some mapping from it is a snapshot's, or is
      copying or stopped; a snapshot that is read is refused as not found exactly if nothing is mapped
      onto it. */
  lemma DeleteRefusesExactly(a: Array, name: Name, isSnapshot: bool, r: Removals)
    requires Integrity(a) && name in a.volumes && !r.unseen
    ensures
      var outcome := DeleteResult(a, name, isSnapshot, r).1;
      var missing := isSnapshot && forall id | id in a.fcmaps :: a.fcmaps[id].target != name;
      && (outcome == Failed(ObjectNotFound) <==> missing)
      && (outcome == Failed(ObjectInUse) <==>
            && !missing
            && exists id :: id in a.fcmaps && a.fcmaps[id].source == name
                            && (a.fcmaps[id].noCopy || a.fcmaps[id].status in {Copying, Stopped}))
  {
    OntoItIsOne(a, name);
    if id :| id in a.fcmaps && a.fcmaps[id].source == name && Unfinished(a.fcmaps[id]) {
      assert id in AsSource(a, name);
    }
  }

  lemma OntoItIsOne(a: Array, name: Name)
    requires OneTarget(a)
    ensures |AsTarget(a, name)| == 1 <==> exists id :: id in a.fcmaps && a.fcmaps[id].target == name
  {
    if id :| id in a.fcmaps && a.fcmaps[id].target == name {
      assert AsTarget(a, name) == {id};
    } else {
      assert AsTarget(a, name) == {};
    }
  }

  /** What a deletion that is not refused leaves of the mappings touching the volume: those that could
      not be removed, the one onto it stopped if it could be. */
  lemma DeleteLeavesFailing(a: Array, name: Name, isSnapshot: bool, r: Removals)
    requires Integrity(a) && name in a.volumes && !r.unseen
    requires DeleteResult(a, name, isSnapshot, r).1 !in {Failed(ObjectNotFound), Failed(ObjectInUse)}
    ensures
      var b := DeleteResult(a, name, isSnapshot, r).0;
      forall id | id in a.fcmaps && (a.fcmaps[id].source == name || a.fcmaps[id].target == name) ::
        && (id in b.fcmaps <==> id in r.failing)
        && (id in b.fcmaps ==>
              b.fcmaps[id] == if a.fcmaps[id].target == name && r.stops then a.fcmaps[id].(status := Stopped)
                              else a.fcmaps[id])
    ensures
      var (b, outcome) := DeleteResult(a, name, isSnapshot, r);
      outcome == Done <==> !r.volumeFails && (r.letsGo || Touching(a, name) !! r.failing)
  {
    ClearedCompletelyExactly(a, name, r);
  }

  lemma ClearedCompletely(a: Array, name: Name, r: Removals)
    requires Touching(a, name) !! r.failing
    ensures Cleared(a, name, r) == WithoutMaps(a, Touching(a, name))
    ensures Touching(Cleared(a, name, r), name) == {}
  {
    var b := Cleared(a, name, r);
    assert forall id | id in a.fcmaps && id !in Touching(a, name) :: id !in AsTarget(a, name);
    assert b.fcmaps == a.fcmaps - Touching(a, name);
    assert forall id | id in b.fcmaps :: id !in Touching(a, name) && b.fcmaps[id] == a.fcmaps[id];
  }

  /** What touches the volume after clearing is what touched it and could not be removed. */
  lemma SurvivorsAreFailing(a: Array, name: Name, r: Removals)
    ensures Touching(Cleared(a, name, r), name) == Touching(a, name) * r.failing
  {
    ClearedIsShrunk(a, name, r);
    var b := Cleared(a, name, r);
    forall id
      ensures id in Touching(b, name) <==> id in Touching(a, name) && id in r.failing
    {
      if id in b.fcmaps {
        assert b.fcmaps[id].source == a.fcmaps[id].source && b.fcmaps[id].target == a.fcmaps[id].target;
      }
    }
  }

  // ---------- when a mapping is left dangling ----------

  /** The deletion goes through, but the removal of some mapping touching the volume fails and the
      array lets the volume go all the same. */
  predicate DeleteDangles(a: Array, name: Name, isSnapshot: bool, r: Removals) {
    && !r.unseen && !(isSnapshot && |AsTarget(a, name)| != 1) && !SourceBusy(a, name)
    && !r.volumeFails && r.letsGo && !(Touching(a, name) !! r.failing)
  }

  /** A volume may go without harm exactly when nothing touches it. */
  lemma GoingDangles(a: Array, name: Name)
    requires Integrity(a) && name in a.volumes
    ensures Integrity(WithoutVolume(a, name)) <==> Touching(a, name) == {}
  {
    if Touching(a, name) == {} {
      UntouchedCanGo(a, name);
    } else {
      var id :| id in Touching(a, name);
      assert name !in WithoutVolume(a, name).volumes && id in a.fcmaps;
    }
  }

  /** A deletion, whatever fails in it, keeps integrity if and only if it is not one that dangles: so
      a deletion that succeeds keeps it exactly when none of the removals that failed is that of a
      mapping touching the volume. */
  lemma DeleteDanglesExactly(a: Array, name: Name, isSnapshot: bool, r: Removals)
    requires Integrity(a) && name in a.volumes
    ensures Integrity(DeleteResult(a, name, isSnapshot, r).0) <==> !DeleteDangles(a, name, isSnapshot, r)
    ensures DeleteResult(a, name, isSnapshot, r).1 == Done ==>
              (Integrity(DeleteResult(a, name, isSnapshot, r).0) <==> Touching(a, name) !! r.failing)
  {
    var (b, outcome) := DeleteResult(a, name, isSnapshot, r);
    if outcome == Done || outcome == Failed(CliFailure) {
      if !r.unseen {
        ClearedHasIntegrity(a, name, r);
        LastStepDangles(Cleared(a, name, r), name, r);
        ClearedCompletelyExactly(a, name, r);
      }
    }
  }

  lemma LastStepDangles(a: Array, name: Name, r: Removals)
    requires Integrity(a) && name in a.volumes
    ensures Integrity(if VolumeGoes(a, name, r) then WithoutVolume(a, name) else a) <==>
            !VolumeGoes(a, name, r) || Touching(a, name) == {}
  {
    GoingDangles(a, name);
  }

  lemma ClearedCompletelyExactly(a: Array, name: Name, r: Removals)
    ensures Touching(Cleared(a, name, r), name) == {} <==> Touching(a, name) !! r.failing
  {
    SurvivorsAreFailing(a, name, r);
    if id :| id in Touching(a, name) && id in r.failing {
      assert id in Touching(Cleared(a, name, r), name);
    }
  }

  lemma ClearedHasIntegrity(a: Array, name: Name, r: Removals)
    requires Integrity(a)
    ensures Integrity(Cleared(a, name, r)) && Cleared(a, name, r).volumes == a.volumes
  {
    ClearedIsShrunk(a, name, r);
    ShrunkKeepsIntegrity(a, Cleared(a, name, r), Touching(a, name));
  }

  /** Two volumes and a finished copy from one to the other: deleting the copy while the removal of
      the mapping fails leaves the mapping with a target that is gone. */
  lemma DeletedCopyDangles(source: Name, target: Name, id: MapId, letsGo: Removals)
    requires source != target && letsGo == Removals(false, {id}, false, false, true)
    ensures
      var a := Array(map[source := Volume(0, 512), target := Volume(1, 512)],
                     map[id := FcMap(source, target, false, IdleOrCopied)], 2, id + 1);
      var (b, outcome) := DeleteResult(a, target, false, letsGo);
      Integrity(a) && outcome == Done && !Integrity(b)
  {
    var a := Array(map[source := Volume(0, 512), target := Volume(1, 512)],
                   map[id := FcMap(source, target, false, IdleOrCopied)], 2, id + 1);
    assert AsSource(a, target) == {};
    assert id in Touching(a, target);
    DeleteDanglesExactly(a, target, false, letsGo);
    SurvivorsAreFailing(a, target, letsGo);
  }

  // ---------- a copy and its clean-up ----------

  /** The clean-up removes a mapping exactly if it is the only one touching the volume, is not copying
      and its removal works; it changes nothing else. */
  lemma UnstartedIsRemovedExactly(a: Array, target: Name, failing: set<MapId>)
    ensures
      var b := WithoutUnstarted(a, target, failing);
      && b == a.(fcmaps := b.fcmaps) && b.fcmaps.Keys <= a.fcmaps.Keys
      && (forall id | id in b.fcmaps :: b.fcmaps[id] == a.fcmaps[id])
      && forall id | id in a.fcmaps ::
           id !in b.fcmaps <==>
           && (a.fcmaps[id].source == target || a.fcmaps[id].target == target)
           && a.fcmaps[id].status != Copying && id !in failing
           && forall other | other in a.fcmaps
                             && (a.fcmaps[other].source == target || a.fcmaps[other].target == target) ::
                other == id
  {
    var ids := Touching(a, target);
    assert forall id | id in a.fcmaps ::
        id in ids <==> a.fcmaps[id].source == target || a.fcmaps[id].target == target;
    if |ids| == 1 {
      var id :| id in ids;
      assert |ids - {id}| == 0;
      assert ids == {id};
    } else {
      forall id | id in ids
        ensures exists other :: other in ids && other != id
      {
        assert |ids - {id}| == |ids| - 1 > 0;
        var other :| other in ids - {id};
      }
    }
  }

  /** What copying onto a volume that nothing touches leaves: a copying mapping, or nothing, or after a
      failed start or read the mapping not started, which only the clean-up of a failed start removes. */
  lemma CopyLeavesExactly(a: Array, source: Name, target: Name, fault: CopyFault, undo: Removals)
    requires Numbered(a) && Touching(a, target) == {} && source != target
    ensures
      var (b, end) := CopyResult(a, source, target, fault, undo);
      && b.volumes == a.volumes
      && b.fcmaps ==
         (match fault
          case NoFault => a.fcmaps[a.nextMap := FcMap(source, target, false, Copying)]
          case MkFcMapFails => a.fcmaps
          case RereadFails => a.fcmaps[a.nextMap := FcMap(source, target, false, IdleOrCopied)]
          case StartFails =>
            if undo.unseen || a.nextMap in undo.failing
            then a.fcmaps[a.nextMap := FcMap(source, target, false, IdleOrCopied)] else a.fcmaps)
      && end == (match fault
                 case NoFault => Started
                 case MkFcMapFails => CommandFailed
                 case RereadFails => ReadFailed
                 case StartFails => CommandFailed)
  {
    OneNewMap(a, source, target, false, IdleOrCopied);
    var copied := WithMap(a, source, target, false, IdleOrCopied);
    assert copied.fcmaps - {a.nextMap} == a.fcmaps;
  }

  // ---------- undoing a snapshot ----------

  /** The try lets the volume go with a mapping touching it. */
  predicate UndoTryDangles(a: Array, target: Name, r: Removals) {
    && !r.unseen && target in a.volumes && !r.volumeFails && r.letsGo
    && Touching(WithoutUnstarted(a, target, r.failing), target) != {}
  }

  predicate UndoDangles(a: Array, target: Name, tries: seq<Removals>)
    decreases |tries|
  {
    tries != []
    && (UndoTryDangles(a, target, tries[0])
        || (!UndoTry(a, target, tries[0]).1 && UndoDangles(UndoTry(a, target, tries[0]).0, target, tries[1..])))
  }

  lemma UndoTryDanglesExactly(a: Array, target: Name, r: Removals)
    requires Integrity(a)
    ensures Integrity(UndoTry(a, target, r).0) <==> !UndoTryDangles(a, target, r)
    ensures UndoTryDangles(a, target, r) ==> UndoTry(a, target, r).1
  {
    var cleared := WithoutUnstarted(a, target, r.failing);
    WithoutUnstartedHasIntegrity(a, target, r.failing);
    if target in a.volumes {
      GoingDangles(cleared, target);
    }
  }

  lemma {:induction false} UndoDanglesExactly(a: Array, target: Name, tries: seq<Removals>)
    requires Integrity(a)
    ensures Integrity(Undo(a, target, tries)) <==> !UndoDangles(a, target, tries)
    decreases |tries|
  {
    if tries != [] {
      UndoTryDanglesExactly(a, target, tries[0]);
      if !UndoTry(a, target, tries[0]).1 {
        UndoDanglesExactly(UndoTry(a, target, tries[0]).0, target, tries[1..]);
      }
    }
  }

  /** Some try, before one that cannot see the target, gets as far as removing it. */
  predicate UndoRemoves(a: Array, target: Name, tries: seq<Removals>)
    decreases |tries|
  {
    && tries != [] && !tries[0].unseen && target in a.volumes
    && var cleared := WithoutUnstarted(a, target, tries[0].failing);
       VolumeGoes(cleared, target, tries[0]) || UndoRemoves(cleared, target, tries[1..])
  }

  lemma {:induction false} UndoRemovesExactly(a: Array, target: Name, tries: seq<Removals>)
    requires target in a.volumes
    ensures Undo(a, target, tries).volumes == if UndoRemoves(a, target, tries) then a.volumes - {target} else a.volumes
    decreases |tries|
  {
    if tries != [] && !tries[0].unseen {
      var cleared := WithoutUnstarted(a, target, tries[0].failing);
      if !VolumeGoes(cleared, target, tries[0]) {
        UndoRemovesExactly(cleared, target, tries[1..]);
      }
    }
  }

  /** Undoing removes at most the named volume and mappings touching it. */
  ghost predicate OnlyLess(a: Array, b: Array, name: Name) {
    && b.nextUid == a.nextUid && b.nextMap == a.nextMap
    && (b.volumes == a.volumes || b.volumes == a.volumes - {name})
    && Shrunk(a, b, Touching(a, name))
  }

  lemma OnlyLessComposes(a: Array, b: Array, c: Array, name: Name)
    requires OnlyLess(a, b, name) && OnlyLess(b, c, name)
    ensures OnlyLess(a, c, name)
  {
    forall id | id in Touching(b, name)
      ensures id in Touching(a, name)
    {
      assert b.fcmaps[id].source == a.fcmaps[id].source && b.fcmaps[id].target == a.fcmaps[id].target;
    }
  }

  lemma UndoTryOnlyRemoves(a: Array, target: Name, r: Removals)
    ensures OnlyLess(a, UndoTry(a, target, r).0, target)
  {
    WithoutUnstartedOnlyRemoves(a, target, r.failing);
  }

  lemma WithoutUnstartedOnlyRemoves(a: Array, target: Name, failing: set<MapId>)
    ensures OnlyLess(a, WithoutUnstarted(a, target, failing), target)
    ensures WithoutUnstarted(a, target, failing).volumes == a.volumes
  {
    var b := WithoutMaps(a, Touching(a, target));
    assert OnlyLess(a, b, target);
    assert OnlyLess(a, a, target);
  }

  lemma {:induction false} UndoOnlyRemoves(a: Array, target: Name, tries: seq<Removals>)
    ensures OnlyLess(a, Undo(a, target, tries), target)
    decreases |tries|
  {
    if tries != [] {
      var (b, done) := UndoTry(a, target, tries[0]);
      UndoTryOnlyRemoves(a, target, tries[0]);
      if !done {
        UndoOnlyRemoves(b, target, tries[1..]);
        OnlyLessComposes(a, b, Undo(b, target, tries[1..]), target);
      }
    }
  }

  /** What removes at most a new volume and mappings touching it leaves at most those behind. */
  lemma LessOfNew(a: Array, b: Array, c: Array, name: Name)
    requires EndsExist(a) && name !in a.volumes && OnlyNew(a, b, name) && OnlyLess(b, c, name)
    ensures OnlyNew(a, c, name)
  {
    forall id | id in a.fcmaps
      ensures id in c.fcmaps && c.fcmaps[id] == a.fcmaps[id]
    {
      assert b.fcmaps[id] == a.fcmaps[id];
      assert id !in Touching(b, name);
    }
  }

  /** The first try of a clean-up meets with no failure that matters to a mapping of that number. */
  predicate Unhindered(tries: seq<Removals>, id: MapId) {
    tries != [] && !tries[0].unseen && !tries[0].volumeFails && id !in tries[0].failing
  }

  /** Started from a new volume with at most one unstarted mapping onto it, undoing gives back the
      objects there were. */
  lemma UndoRestores(a: Array, source: Name, target: Name, capacity: nat, fault: CopyFault, tries: seq<Removals>)
    requires Integrity(a) && source in a.volumes && target !in a.volumes && Unhindered(tries, a.nextMap)
    requires fault == MkFcMapFails || fault == StartFails
    ensures SameObjects(Undo(CopyAttempt(WithVolume(a, target, capacity), source, target, true, fault), target, tries), a)
  {
    var made := WithVolume(a, target, capacity);
    var copied := CopyAttempt(made, source, target, true, fault);
    MadeHasIntegrity(a, target, capacity);
    UnstartedIsRemoved(made, source, target, fault, tries[0].failing);
    var cleared := WithoutUnstarted(copied, target, tries[0].failing);
    assert Touching(cleared, target) == Touching(made, target) == {};
    assert made.volumes - {target} == a.volumes;
  }

  lemma UnstartedIsRemoved(a: Array, source: Name, target: Name, fault: CopyFault, failing: set<MapId>)
    requires Numbered(a) && Touching(a, target) == {} && source != target && a.nextMap !in failing
    requires fault == MkFcMapFails || fault == StartFails
    ensures
      var copied := CopyAttempt(a, source, target, true, fault);
      && WithoutUnstarted(copied, target, failing).fcmaps == a.fcmaps
      && WithoutUnstarted(copied, target, failing).volumes == a.volumes
  {
    if fault == StartFails {
      OneNewMap(a, source, target, true, IdleOrCopied);
      var copied := WithMap(a, source, target, true, IdleOrCopied);
      assert copied.fcmaps - {a.nextMap} == a.fcmaps;
    }
  }

  lemma OneNewMap(a: Array, source: Name, target: Name, noCopy: bool, status: Status)
    requires Numbered(a) && Touching(a, target) == {} && source != target
    ensures
      var b := WithMap(a, source, target, noCopy, status);
      Touching(b, target) == {a.nextMap} && |Touching(b, target)| == 1 && AsSource(b, target) == {}
  {
    var b := WithMap(a, source, target, noCopy, status);
    assert forall id | id in a.fcmaps :: id !in Touching(a, target) && b.fcmaps[id] == a.fcmaps[id];
    assert Touching(b, target) == {a.nextMap};
    assert AsSource(b, target) == {};
  }

  /** Creating a snapshot under a free name never touches what was there. With the clean-up unhindered
      it is all or nothing exactly when no read fails after a change: then there is the new target
      with one started copy-rate-0 mapping, or the objects there were; after a failed read the
      target stays, with the mapping if that was made. */
  lemma SnapshotAllOrNothing(a: Array, source: Name, target: Name, fault: SnapshotFault, tries: seq<Removals>)
    requires Integrity(a) && source in a.volumes && target !in a.volumes
    ensures
      var (b, outcome) := SnapshotResult(a, source, target, fault, tries);
      var made := WithVolume(a, target, ConvertSize(a.volumes[source].capacity));
      && OnlyNew(a, b, target)
      && (outcome == Done <==> fault == AtCopy(NoFault))
      && (outcome == Done ==> b == WithMap(made, source, target, true, Copying))
      && (Unhindered(tries, a.nextMap) ==>
            (outcome == Done || SameObjects(b, a) <==> fault != ReadBackFails && fault != AtCopy(RereadFails)))
      && (fault == ReadBackFails ==> b == made)
      && (fault == AtCopy(RereadFails) ==> b == WithMap(made, source, target, true, IdleOrCopied))
  {
    var capacity := ConvertSize(a.volumes[source].capacity);
    SnapshotOnlyAdds(a, source, target, fault, tries);
    if fault.AtCopy? && Unhindered(tries, a.nextMap) && (fault.fault == MkFcMapFails || fault.fault == StartFails) {
      UndoRestores(a, source, target, capacity, fault.fault, tries);
    }
    assert target in WithVolume(a, target, capacity).volumes;
  }

  lemma SnapshotOnlyAdds(a: Array, source: Name, target: Name, fault: SnapshotFault, tries: seq<Removals>)
    requires Integrity(a) && source in a.volumes && target !in a.volumes
    ensures OnlyNew(a, SnapshotResult(a, source, target, fault, tries).0, target)
  {
    if fault.AtCopy? {
      var made := WithVolume(a, target, ConvertSize(a.volumes[source].capacity));
      var copied := CopyAttempt(made, source, target, true, fault.fault);
      AttemptOnlyAdds(a, made.volumes[target].capacity, source, target, true, fault.fault);
      UndoOnlyRemoves(copied, target, tries);
      LessOfNew(a, copied, Undo(copied, target, tries), target);
    }
  }

  lemma AttemptOnlyAdds(a: Array, capacity: nat, source: Name, target: Name, noCopy: bool, fault: CopyFault)
    requires Numbered(a) && target !in a.volumes
    ensures OnlyNew(a, CopyAttempt(WithVolume(a, target, capacity), source, target, noCopy, fault), target)
  {
  }
}
