/** Laws of CreateVolume on SVC: what it never touches, when a refusal leaves the array as it was, when
    its clean-up leaves a mapping dangling, and when a repeat is answered the same. */
module CreateLaws {
  import opened Options
  import opened SvcArray
  import opened SvcLaws
  import opened ControllerSpec

  // ---------- rolling back ----------

  ghost predicate ByUidDangles(a: Array, uid: Uid, isSnapshot: bool, r: Removals) {
    !r.unseen && NameOf(a, uid).Some? && DeleteDangles(a, NameOf(a, uid).value, isSnapshot, r)
  }

  lemma ByUidDanglesExactly(a: Array, uid: Uid, isSnapshot: bool, r: Removals)
    requires Integrity(a)
    ensures Integrity(DeleteByUid(a, uid, isSnapshot, r).0) <==> !ByUidDangles(a, uid, isSnapshot, r)
  {
    if NameOf(a, uid).Some? {
      DeleteDanglesExactly(a, NameOf(a, uid).value, isSnapshot, r);
    }
  }

  /** Some try deletes the volume while a mapping touching it cannot be removed. */
  ghost predicate RollbackDangles(a: Array, uid: Uid, tries: seq<Removals>)
    decreases |tries|
  {
    tries != []
    && (ByUidDangles(a, uid, false, tries[0])
        || (DeleteByUid(a, uid, false, tries[0]).1 != Done
            && RollbackDangles(DeleteByUid(a, uid, false, tries[0]).0, uid, tries[1..])))
  }

  lemma {:induction false} RollbackDanglesExactly(a: Array, uid: Uid, tries: seq<Removals>)
    requires Integrity(a)
    ensures Integrity(RollbackResult(a, uid, tries).0) <==> !RollbackDangles(a, uid, tries)
    decreases |tries|
  {
    if tries != [] {
      ByUidDanglesExactly(a, uid, false, tries[0]);
      FailedDeleteKeepsIntegrity(a, uid, false, tries[0]);
      var (b, outcome) := DeleteByUid(a, uid, false, tries[0]);
      if outcome != Done {
        if |tries| > 1 {
          RollbackDanglesExactly(b, uid, tries[1..]);
        } else {
          assert !RollbackDangles(b, uid, tries[1..]);
        }
      }
    }
  }

  lemma DeleteOnlyRemoves(a: Array, name: Name, isSnapshot: bool, r: Removals)
    requires name in a.volumes
    ensures OnlyLess(a, DeleteResult(a, name, isSnapshot, r).0, name)
  {
    ClearedIsShrunk(a, name, r);
  }

  /** Rolling back removes at most the volume and mappings touching it. */
  lemma {:induction false} RollbackOnlyRemoves(a: Array, uid: Uid, name: Name, tries: seq<Removals>)
    requires Integrity(a) && HasUid(a, name, uid)
    ensures OnlyLess(a, RollbackResult(a, uid, tries).0, name)
    decreases |tries|
  {
    if tries != [] {
      NameIsUnique(a, name, uid);
      DeleteOnlyRemoves(a, name, false, tries[0]);
      FailedDeleteKeepsIntegrity(a, uid, false, tries[0]);
      var (b, outcome) := DeleteByUid(a, uid, false, tries[0]);
      if outcome != Done && |tries| > 1 {
        RollbackOnlyRemoves(b, uid, name, tries[1..]);
        OnlyLessComposes(a, b, RollbackResult(b, uid, tries[1..]).0, name);
      }
    }
  }

  /** An unhindered roll-back removes the volume and all that touches it. */
  lemma RollbackRemoves(a: Array, uid: Uid, name: Name, tries: seq<Removals>)
    requires Numbered(a) && HasUid(a, name, uid) && AsSource(a, name) == {}
    requires tries != [] && Works(a, name, tries[0])
    ensures RollbackResult(a, uid, tries) == (Removed(a, name), Done)
  {
    NameIsUnique(a, name, uid);
    ClearedCompletely(a, name, tries[0]);
    assert !SourceBusy(a, name);
  }

  /** A volume that nothing touches is gone after a roll-back exactly if one of the tries sees it and its
      removal works. */
  lemma {:induction false} RollbackTriesAll(a: Array, uid: Uid, name: Name, tries: seq<Removals>)
    requires Integrity(a) && HasUid(a, name, uid) && Touching(a, name) == {} && tries != []
    ensures
      var (b, outcome) := RollbackResult(a, uid, tries);
      && (outcome == Done <==> exists r :: r in tries && !r.unseen && !r.volumeFails)
      && b == if outcome == Done then WithoutVolume(a, name) else a
    decreases |tries|
  {
    UntouchedDelete(a, uid, name, tries[0]);
    if |tries| > 1 && DeleteByUid(a, uid, false, tries[0]).1 != Done {
      RollbackTriesAll(a, uid, name, tries[1..]);
      assert forall r :: r in tries <==> r == tries[0] || r in tries[1..];
    } else {
      assert tries[0] in tries;
    }
  }

  lemma MissingRollback(a: Array, uid: Uid, tries: seq<Removals>)
    requires !Exists(a, uid)
    ensures RollbackResult(a, uid, tries).0 == a
    decreases |tries|
  {
    if |tries| > 1 {
      MissingRollback(a, uid, tries[1..]);
    }
  }

  /** A volume that nothing touches goes or stays, and nothing else changes. */
  lemma {:induction false} UntouchedRollback(a: Array, uid: Uid, name: Name, tries: seq<Removals>)
    requires Integrity(a) && HasUid(a, name, uid) && Touching(a, name) == {}
    ensures
      var (b, outcome) := RollbackResult(a, uid, tries);
      && Integrity(b) && (b == a || b == WithoutVolume(a, name))
    decreases |tries|
  {
    if tries != [] {
      UntouchedDelete(a, uid, name, tries[0]);
      if |tries| > 1 {
        UntouchedRollback(a, uid, name, tries[1..]);
      }
    }
  }

  // ---------- the new volume and what is mapped onto it ----------

  ghost predicate IsFresh(a: Array, b: Array, name: Name) {
    && OnlyNew(a, b, name) && Integrity(b) && HasUid(b, name, a.nextUid) && AsSource(b, name) == {}
    && a.nextUid < b.nextUid
  }

  lemma MadeIsFresh(a: Array, name: Name, capacity: nat)
    requires Integrity(a) && name !in a.volumes
    ensures IsFresh(a, WithVolume(a, name, capacity), name)
    ensures Touching(WithVolume(a, name, capacity), name) == {}
  {
    MadeHasIntegrity(a, name, capacity);
  }

  lemma CopiedIsFresh(a: Array, capacity: nat, source: Name, name: Name, fault: CopyFault, undo: Removals)
    requires Integrity(a) && name !in a.volumes && source in WithVolume(a, name, capacity).volumes
    ensures IsFresh(a, CopyResult(WithVolume(a, name, capacity), source, name, fault, undo).0, name)
  {
    var made := WithVolume(a, name, capacity);
    var b := CopyResult(made, source, name, fault, undo).0;
    MadeIsFresh(a, name, capacity);
    FailedCopyHasIntegrity(made, source, name, fault, undo);
    AttemptOnlyAdds(a, capacity, source, name, false, fault);
    var copied := CopyAttempt(made, source, name, false, fault);
    WithoutUnstartedOnlyRemoves(copied, name, undo.failing);
    LessOfNew(a, copied, WithoutUnstarted(copied, name, undo.failing), name);
    NothingFromIt(made, copied, source, name, fault);
    NothingFromShrunk(copied, b, name);
  }

  lemma NothingFromIt(a: Array, b: Array, source: Name, name: Name, fault: CopyFault)
    requires Touching(a, name) == {} && b == CopyAttempt(a, source, name, false, fault) && Numbered(a)
    ensures AsSource(b, name) == {}
  {
    assert AsSource(a, name) == {};
    forall id | id in b.fcmaps
      ensures b.fcmaps[id].source != name
    {
      assert id in a.fcmaps ==> id !in AsSource(a, name);
    }
  }

  lemma NothingFromShrunk(a: Array, b: Array, name: Name)
    requires AsSource(a, name) == {} && b.fcmaps.Keys <= a.fcmaps.Keys
    requires forall id | id in b.fcmaps :: b.fcmaps[id].source == a.fcmaps[id].source
    ensures AsSource(b, name) == {}
  {
    forall id | id in b.fcmaps
      ensures b.fcmaps[id].source != name
    {
      assert id !in AsSource(a, name);
    }
  }

  /** Rolling back a new volume leaves at most that volume and a mapping onto it. */
  lemma FreshRollback(a: Array, b: Array, name: Name, tries: seq<Removals>)
    requires EndsExist(a) && name !in a.volumes && IsFresh(a, b, name)
    ensures OnlyNew(a, RollbackResult(b, a.nextUid, tries).0, name)
  {
    RollbackOnlyRemoves(b, a.nextUid, name, tries);
    LessOfNew(a, b, RollbackResult(b, a.nextUid, tries).0, name);
  }

  /** Rolling it back unhindered gives back the objects there were. */
  lemma FreshRollbackRestores(a: Array, b: Array, name: Name, tries: seq<Removals>)
    requires EndsExist(a) && name !in a.volumes && IsFresh(a, b, name) && Unhindered(tries, a.nextMap)
    ensures RollbackResult(b, a.nextUid, tries).1 == Done
    ensures SameObjects(RollbackResult(b, a.nextUid, tries).0, a)
    ensures !Exists(RollbackResult(b, a.nextUid, tries).0, a.nextUid)
  {
    OnlyTheNewTouches(a, b, name);
    RollbackRemoves(b, a.nextUid, name, tries);
    assert Removed(b, name).volumes == a.volumes;
    assert Removed(b, name).fcmaps == a.fcmaps;
    assert forall n | n in b.volumes && n != name :: b.volumes[n].uid != a.nextUid;
  }

  /** What touches the new volume is exactly what is new among the mappings. */
  lemma OnlyTheNewTouches(a: Array, b: Array, name: Name)
    requires EndsExist(a) && name !in a.volumes && IsFresh(a, b, name)
    ensures Touching(b, name) == b.fcmaps.Keys - a.fcmaps.Keys
    ensures Touching(b, name) <= {a.nextMap}
  {
    forall id | id in b.fcmaps
      ensures id in Touching(b, name) <==> id !in a.fcmaps
    {
      if id in a.fcmaps {
        assert b.fcmaps[id] == a.fcmaps[id];
        assert a.fcmaps[id].target in a.volumes && a.fcmaps[id].source in a.volumes;
      }
    }
  }

  // ---------- what CreateVolume spares ----------

  /** The call gets as far as making its volume. */
  predicate Makes(a: Array, req: CreateRequest, fault: CreateFault) {
    req.bytes <= MAX_SIZE && fault != LookupFails && req.name !in a.volumes && !fault.VolumeFails?
  }

  /** The read of the new volume, or of its mappings for the answer, fails. */
  predicate ReadOfNewFails(fault: CreateFault) {
    fault.ReadBackLost? || fault == ResponseUnread
  }

  /** The array once the copy onto the new volume has been tried. */
  lemma CopyFromOnlyAdds(a: Array, capacity: nat, name: Name, source: Source, fault: CreateFault, cleanup: Cleanup)
    requires Integrity(a) && name !in a.volumes
    ensures OnlyNew(a, CopyFromResult(WithVolume(a, name, capacity), a.nextUid, name, source, fault, cleanup).0, name)
  {
    var made := WithVolume(a, name, capacity);
    MadeIsFresh(a, name, capacity);
    FreshRollback(a, made, name, cleanup.first);
    if fault == SourceUnread {
    } else if NameOf(made, source.uid) == None {
      RolledBackTwice(a, made, name, cleanup);
    } else if IsUsable(made, NameOf(made, source.uid).value, source.isSnapshot) {
      var from := NameOf(made, source.uid).value;
      CopiedIsFresh(a, capacity, from, name, FaultOfCopy(fault), cleanup.undo);
      FreshRollback(a, CopyResult(made, from, name, FaultOfCopy(fault), cleanup.undo).0, name, cleanup.first);
    }
  }

  /** The double roll-back of a missing source, from a new volume that nothing touches. */
  lemma RolledBackTwice(a: Array, made: Array, name: Name, cleanup: Cleanup)
    requires EndsExist(a) && name !in a.volumes && IsFresh(a, made, name) && Touching(made, name) == {}
    ensures
      var b := RollbackResult(made, a.nextUid, cleanup.first).0;
      var c := RollbackResult(b, a.nextUid, cleanup.second).0;
      && Integrity(c) && OnlyNew(a, c, name) && (c == made || c == WithoutVolume(made, name))
  {
    var b := RollbackResult(made, a.nextUid, cleanup.first).0;
    UntouchedRollback(made, a.nextUid, name, cleanup.first);
    FreshRollback(a, made, name, cleanup.first);
    if b == made {
      UntouchedRollback(made, a.nextUid, name, cleanup.second);
      FreshRollback(a, made, name, cleanup.second);
    } else {
      assert forall n | n in made.volumes && n != name :: made.volumes[n].uid != a.nextUid;
      assert !Exists(b, a.nextUid);
      MissingRollback(b, a.nextUid, cleanup.second);
    }
  }

  /** CreateVolume never deletes, renames, resizes or maps onto a volume that was there before, and
      never touches a mapping that was there before, whatever fails. */
  lemma CreateSparesWhatExists(a: Array, req: CreateRequest, fault: CreateFault, cleanup: Cleanup)
    requires Integrity(a)
    ensures OnlyNew(a, CreateResult(a, req, fault, cleanup).0, req.name)
    ensures req.name in a.volumes ==> CreateResult(a, req, fault, cleanup).0 == a
  {
    if Makes(a, req, fault) && req.source.Some? {
      CopyFromOnlyAdds(a, ConvertSize(DefaultedSize(req.bytes)), req.name, req.source.value, fault, cleanup);
    }
  }

  // ---------- when a refusal leaves nothing behind ----------

  lemma FailedCopyFromRestores(
    a: Array, capacity: nat, name: Name, source: Source, fault: CreateFault, cleanup: Cleanup)
    requires Integrity(a) && name !in a.volumes && Unhindered(cleanup.first, a.nextMap)
    requires CopyFromResult(WithVolume(a, name, capacity), a.nextUid, name, source, fault, cleanup).1 != Done
    ensures SameObjects(CopyFromResult(WithVolume(a, name, capacity), a.nextUid, name, source, fault, cleanup).0, a)
  {
    var made := WithVolume(a, name, capacity);
    MadeIsFresh(a, name, capacity);
    FreshRollbackRestores(a, made, name, cleanup.first);
    if fault == SourceUnread {
    } else if NameOf(made, source.uid) == None {
      MissingRollback(RollbackResult(made, a.nextUid, cleanup.first).0, a.nextUid, cleanup.second);
    } else if IsUsable(made, NameOf(made, source.uid).value, source.isSnapshot) {
      var from := NameOf(made, source.uid).value;
      CopiedIsFresh(a, capacity, from, name, FaultOfCopy(fault), cleanup.undo);
      FreshRollbackRestores(
        a, CopyResult(made, from, name, FaultOfCopy(fault), cleanup.undo).0, name, cleanup.first);
    }
  }

  /** With the clean-up unhindered, a refused CreateVolume leaves the array's objects as they were if
      and only if it is not a read of the volume just made that failed: after that no clean-up is
      even tried, and the volume stays. */
  lemma RefusedLeavesArrayExactly(a: Array, req: CreateRequest, fault: CreateFault, cleanup: Cleanup)
    requires Integrity(a) && Unhindered(cleanup.first, a.nextMap)
    requires CreateResult(a, req, fault, cleanup).1.Refused?
    ensures SameObjects(CreateResult(a, req, fault, cleanup).0, a) <==> !(Makes(a, req, fault) && ReadOfNewFails(fault))
    ensures Makes(a, req, fault) && ReadOfNewFails(fault) ==>
              CreateResult(a, req, fault, cleanup).0 == WithVolume(a, req.name, ConvertSize(DefaultedSize(req.bytes)))
  {
    var capacity := ConvertSize(DefaultedSize(req.bytes));
    if Makes(a, req, fault) {
      if ReadOfNewFails(fault) {
        assert req.name in WithVolume(a, req.name, capacity).volumes;
      } else {
        FailedCopyFromRestores(a, capacity, req.name, req.source.value, fault, cleanup);
      }
    }
  }

  lemma {:induction false} MissingRollbackReports(a: Array, uid: Uid, tries: seq<Removals>)
    requires !Exists(a, uid) && tries != [] && forall r | r in tries :: !r.unseen
    ensures RollbackResult(a, uid, tries) == (a, Failed(ObjectNotFound))
    decreases |tries|
  {
    assert tries[0] in tries;
    if |tries| > 1 {
      MissingRollbackReports(a, uid, tries[1..]);
    }
  }

  lemma StaysMissing(a: Array, name: Name, capacity: nat, uid: Uid)
    requires !Exists(a, uid) && uid != a.nextUid
    ensures NameOf(WithVolume(a, name, capacity), uid) == None
  {
    var made := WithVolume(a, name, capacity);
    forall n
      ensures !HasUid(made, n, uid)
    {
      assert HasUid(made, n, uid) ==> HasUid(a, n, uid);
    }
  }

  /** A clone of a source that does not exist is answered NotFound and leaves the array's objects as
      they were. The exception that gets out is that of the second roll-back, which does not find the
      volume that the first has deleted. */
  lemma MissingSourceIsNotFound(a: Array, req: CreateRequest, fault: CreateFault, cleanup: Cleanup)
    requires Integrity(a) && Makes(a, req, fault) && !ReadOfNewFails(fault) && fault != SourceUnread
    requires req.source.Some? && req.source.value.uid != a.nextUid && !Exists(a, req.source.value.uid)
    requires Unhindered(cleanup.first, a.nextMap)
    requires cleanup.second != [] && forall r | r in cleanup.second :: !r.unseen
    ensures
      var (b, answer) := CreateResult(a, req, fault, cleanup);
      var made := WithVolume(a, req.name, ConvertSize(DefaultedSize(req.bytes)));
      var c := RollbackResult(made, a.nextUid, cleanup.first).0;
      && answer == Refused(NotFound) && SameObjects(b, a)
      && RollbackResult(c, a.nextUid, cleanup.second) == (b, Failed(ObjectNotFound))
  {
    var made := WithVolume(a, req.name, ConvertSize(DefaultedSize(req.bytes)));
    MadeIsFresh(a, req.name, ConvertSize(DefaultedSize(req.bytes)));
    FreshRollbackRestores(a, made, req.name, cleanup.first);
    MissingRollbackReports(RollbackResult(made, a.nextUid, cleanup.first).0, a.nextUid, cleanup.second);
    StaysMissing(a, req.name, ConvertSize(DefaultedSize(req.bytes)), req.source.value.uid);
  }

  // ---------- when its clean-up leaves a mapping dangling ----------

  /** The copy stops short, and a deletion of the new volume goes through while the mapping onto it
      cannot be removed. */
  ghost predicate CreateDangles(a: Array, req: CreateRequest, fault: CreateFault, cleanup: Cleanup) {
    && Makes(a, req, fault) && !ReadOfNewFails(fault) && fault != SourceUnread && req.source.Some?
    && var made := WithVolume(a, req.name, ConvertSize(DefaultedSize(req.bytes)));
       var from := NameOf(made, req.source.value.uid);
       && from.Some? && IsUsable(made, from.value, req.source.value.isSnapshot)
       && var (b, end) := CopyResult(made, from.value, req.name, FaultOfCopy(fault), cleanup.undo);
          end != Started && RollbackDangles(b, a.nextUid, cleanup.first)
  }

  lemma CopyFromDanglesExactly(a: Array, req: CreateRequest, fault: CreateFault, cleanup: Cleanup)
    requires Integrity(a) && Makes(a, req, fault) && !ReadOfNewFails(fault) && req.source.Some?
    ensures
      var made := WithVolume(a, req.name, ConvertSize(DefaultedSize(req.bytes)));
      Integrity(CopyFromResult(made, a.nextUid, req.name, req.source.value, fault, cleanup).0) <==>
      !CreateDangles(a, req, fault, cleanup)
  {
    var capacity := ConvertSize(DefaultedSize(req.bytes));
    var made := WithVolume(a, req.name, capacity);
    var source := req.source.value;
    MadeIsFresh(a, req.name, capacity);
    UntouchedRollback(made, a.nextUid, req.name, cleanup.first);
    if fault == SourceUnread {
    } else if NameOf(made, source.uid) == None {
      RolledBackTwice(a, made, req.name, cleanup);
    } else if IsUsable(made, NameOf(made, source.uid).value, source.isSnapshot) {
      var from := NameOf(made, source.uid).value;
      CopiedIsFresh(a, capacity, from, req.name, FaultOfCopy(fault), cleanup.undo);
      RollbackDanglesExactly(
        CopyResult(made, from, req.name, FaultOfCopy(fault), cleanup.undo).0, a.nextUid, cleanup.first);
    }
  }

  lemma CreateDanglesExactly(a: Array, req: CreateRequest, fault: CreateFault, cleanup: Cleanup)
    requires Integrity(a)
    ensures Integrity(CreateResult(a, req, fault, cleanup).0) <==> !CreateDangles(a, req, fault, cleanup)
  {
    if Makes(a, req, fault) {
      MadeIsFresh(a, req.name, ConvertSize(DefaultedSize(req.bytes)));
      if !ReadOfNewFails(fault) && req.source.Some? {
        CopyFromDanglesExactly(a, req, fault, cleanup);
      }
    }
  }

  // ---------- when it succeeds, and with what ----------

  /** The least whole number of blocks that holds the bytes, within the array's maximum. */
  ghost predicate IsLeastFit(bytes: nat, capacity: nat) {
    && bytes <= capacity <= MAX_SIZE && capacity % BLOCK_SIZE == 0
    && forall c: nat | c >= bytes && c % BLOCK_SIZE == 0 :: c >= capacity
  }

  lemma LeastBlocks(bytes: nat)
    ensures bytes <= MAX_SIZE ==> IsLeastFit(bytes, ConvertSize(bytes))
  {
  }

  /** A volume of that name can be cloned: it is there, and as a snapshot it must be the target of a
      mapping with copy rate 0. */
  ghost predicate Clonable(a: Array, name: Name, source: Source) {
    && HasUid(a, name, source.uid)
    && (source.isSnapshot ==> exists id :: id in a.fcmaps && a.fcmaps[id].target == name && a.fcmaps[id].noCopy)
  }

  lemma UsableIsClonable(a: Array, name: Name, source: Source)
    requires OneTarget(a) && HasUid(a, name, source.uid)
    ensures IsUsable(a, name, source.isSnapshot) <==> Clonable(a, name, source)
  {
    OntoItIsOne(a, name);
    if id :| id in a.fcmaps && a.fcmaps[id].target == name {
      assert AsTarget(a, name) == {id};
    }
  }

  /** What the copy finds under the source's uid once the new volume is there. */
  lemma SourceAmongMade(a: Array, name: Name, capacity: nat, uid: Uid)
    requires Integrity(a) && name !in a.volumes
    ensures NameOf(WithVolume(a, name, capacity), uid) == if uid == a.nextUid then Some(name) else NameOf(a, uid)
  {
    var made := WithVolume(a, name, capacity);
    MadeHasIntegrity(a, name, capacity);
    if uid == a.nextUid {
      NameIsUnique(made, name, uid);
    } else if n :| HasUid(a, n, uid) {
      assert HasUid(made, n, uid);
      NameIsUnique(a, n, uid);
      NameIsUnique(made, n, uid);
    } else {
      StaysMissing(a, name, capacity, uid);
    }
  }

  /** A source is cloned onto the new volume exactly if it is read and can be cloned and the copy works. */
  lemma CopyFromSucceedsExactly(
    a: Array, capacity: nat, name: Name, source: Source, fault: CreateFault, cleanup: Cleanup)
    requires Integrity(a) && name !in a.volumes
    ensures CopyFromResult(WithVolume(a, name, capacity), a.nextUid, name, source, fault, cleanup).1 == Done <==>
            && fault != SourceUnread && (fault.InCopy? ==> fault == InCopy(NoFault))
            && exists from :: Clonable(a, from, source)
  {
    var made := WithVolume(a, name, capacity);
    SourceAmongMade(a, name, capacity, source.uid);
    NewIsNoSource(a, source);
    if from :| HasUid(a, from, source.uid) {
      NameIsUnique(a, from, source.uid);
      UsableIsClonable(a, from, source);
      assert AsTarget(made, from) == AsTarget(a, from);
      forall other | Clonable(a, other, source)
        ensures other == from
      {
        NameIsUnique(a, other, source.uid);
      }
    }
  }

  /** A request for a free name is answered with a volume exactly if its size is within the maximum, the
      lookup, the making and the two reads of the new volume work, and with a source also the read of
      that, the source can be cloned, and the copy works. */
  lemma CreateSucceedsExactly(a: Array, req: CreateRequest, fault: CreateFault, cleanup: Cleanup)
    requires Integrity(a) && req.name !in a.volumes
    ensures CreateResult(a, req, fault, cleanup).1.Created? <==>
            && req.bytes <= 281474976710656 && fault != LookupFails && !fault.VolumeFails? && !ReadOfNewFails(fault)
            && (req.source.Some? ==>
                  && fault != SourceUnread && (fault.InCopy? ==> fault == InCopy(NoFault))
                  && exists from :: Clonable(a, from, req.source.value))
  {
    if req.source.Some? {
      CopyFromSucceedsExactly(
        a, ConvertSize(DefaultedSize(req.bytes)), req.name, req.source.value, fault, cleanup);
    }
  }

  lemma NewIsNoSource(a: Array, source: Source)
    requires Numbered(a)
    ensures source.uid == a.nextUid ==> forall from :: !Clonable(a, from, source)
  {
  }

  lemma MissingSourceReports(
    a: Array, capacity: nat, name: Name, source: Source, fault: CreateFault, cleanup: Cleanup)
    requires Integrity(a) && name !in a.volumes && Unhindered(cleanup.first, a.nextMap)
    requires cleanup.second != [] && forall r | r in cleanup.second :: !r.unseen
    requires fault != SourceUnread && NameOf(WithVolume(a, name, capacity), source.uid) == None
    ensures CopyFromResult(WithVolume(a, name, capacity), a.nextUid, name, source, fault, cleanup).1
            == Failed(ObjectNotFound)
  {
    var made := WithVolume(a, name, capacity);
    MadeIsFresh(a, name, capacity);
    FreshRollbackRestores(a, made, name, cleanup.first);
    MissingRollbackReports(RollbackResult(made, a.nextUid, cleanup.first).0, a.nextUid, cleanup.second);
  }

  lemma FoundSourceReports(
    a: Array, capacity: nat, name: Name, source: Source, fault: CreateFault, cleanup: Cleanup)
    requires Integrity(a) && name !in a.volumes && Unhindered(cleanup.first, a.nextMap)
    requires fault == SourceUnread || NameOf(WithVolume(a, name, capacity), source.uid).Some?
    ensures CopyFromResult(WithVolume(a, name, capacity), a.nextUid, name, source, fault, cleanup).1
            != Failed(ObjectNotFound)
  {
    var made := WithVolume(a, name, capacity);
    MadeIsFresh(a, name, capacity);
    FreshRollbackRestores(a, made, name, cleanup.first);
    if fault != SourceUnread && IsUsable(made, NameOf(made, source.uid).value, source.isSnapshot) {
      var from := NameOf(made, source.uid).value;
      CopiedIsFresh(a, capacity, from, name, FaultOfCopy(fault), cleanup.undo);
      FreshRollbackRestores(
        a, CopyResult(made, from, name, FaultOfCopy(fault), cleanup.undo).0, name, cleanup.first);
    }
  }

  lemma CopyFromRefusesWith(
    a: Array, capacity: nat, name: Name, source: Source, fault: CreateFault, cleanup: Cleanup)
    requires Integrity(a) && name !in a.volumes && Unhindered(cleanup.first, a.nextMap)
    requires cleanup.second != [] && forall r | r in cleanup.second :: !r.unseen
    ensures CopyFromResult(WithVolume(a, name, capacity), a.nextUid, name, source, fault, cleanup).1
            == Failed(ObjectNotFound) <==>
            fault != SourceUnread && source.uid != a.nextUid && !Exists(a, source.uid)
  {
    SourceAmongMade(a, name, capacity, source.uid);
    if from :| HasUid(a, from, source.uid) {
      NameIsUnique(a, from, source.uid);
    }
    if fault == SourceUnread || NameOf(WithVolume(a, name, capacity), source.uid).Some? {
      FoundSourceReports(a, capacity, name, source, fault, cleanup);
    } else {
      MissingSourceReports(a, capacity, name, source, fault, cleanup);
    }
  }

  /** Some try sees the volume and removes it. */
  ghost predicate SomeTryWorks(tries: seq<Removals>) {
    exists r :: r in tries && !r.unseen && !r.volumeFails
  }

  /** A missing source whatever the two roll-backs meet with: the new volume is gone exactly if some try
      of either works, and if none of the first does, the answer is INTERNAL. */
  lemma MissingSourceRollsBackTwice(
    a: Array, capacity: nat, name: Name, source: Source, fault: CreateFault, cleanup: Cleanup)
    requires Integrity(a) && name !in a.volumes && FiveTries(cleanup)
    requires fault != SourceUnread && source.uid != a.nextUid && !Exists(a, source.uid)
    ensures
      var made := WithVolume(a, name, capacity);
      var (b, outcome) := CopyFromResult(made, a.nextUid, name, source, fault, cleanup);
      && b == (if SomeTryWorks(cleanup.first) || SomeTryWorks(cleanup.second) then WithoutVolume(made, name) else made)
      && outcome.Failed?
      && (!SomeTryWorks(cleanup.first) ==> CodeOf(outcome.error) == Internal)
  {
    var made := WithVolume(a, name, capacity);
    MadeIsFresh(a, name, capacity);
    StaysMissing(a, name, capacity, source.uid);
    RollbackTriesAll(made, a.nextUid, name, cleanup.first);
    RollbackFailsAs(made, a.nextUid, name, cleanup.first);
    if SomeTryWorks(cleanup.first) {
      var gone := WithoutVolume(made, name);
      forall n
        ensures !HasUid(gone, n, a.nextUid)
      {
      }
      MissingRollback(gone, a.nextUid, cleanup.second);
    } else {
      RollbackTriesAll(made, a.nextUid, name, cleanup.second);
      RollbackFailsAs(made, a.nextUid, name, cleanup.second);
    }
  }

  /** A roll-back of an untouched volume that fails, fails with the command's error. */
  lemma {:induction false} RollbackFailsAs(a: Array, uid: Uid, name: Name, tries: seq<Removals>)
    requires Integrity(a) && HasUid(a, name, uid) && Touching(a, name) == {} && tries != []
    ensures RollbackResult(a, uid, tries).1 == Done || RollbackResult(a, uid, tries).1 == Failed(CliFailure)
    decreases |tries|
  {
    UntouchedFailsAs(a, uid, name, tries[0]);
    if |tries| > 1 && DeleteByUid(a, uid, false, tries[0]).1 != Done {
      UntouchedDelete(a, uid, name, tries[0]);
      RollbackFailsAs(a, uid, name, tries[1..]);
    }
  }

  lemma UntouchedFailsAs(a: Array, uid: Uid, name: Name, r: Removals)
    requires Integrity(a) && HasUid(a, name, uid) && Touching(a, name) == {}
    ensures DeleteByUid(a, uid, false, r).1 == Done || DeleteByUid(a, uid, false, r).1 == Failed(CliFailure)
  {
    NameIsUnique(a, name, uid);
    assert AsSource(a, name) == {};
  }

  /** The code of a refusal under a free name, with the clean-up unhindered: OUT_OF_RANGE above 256 TiB,
      NOT_FOUND for a read of the new volume that says so and for a source that does not exist, and
      INTERNAL else. */
  lemma CreateRefusesWith(a: Array, req: CreateRequest, fault: CreateFault, cleanup: Cleanup)
    requires Integrity(a) && req.name !in a.volumes && Unhindered(cleanup.first, a.nextMap)
    requires cleanup.second != [] && forall r | r in cleanup.second :: !r.unseen
    requires CreateResult(a, req, fault, cleanup).1.Refused?
    ensures CreateResult(a, req, fault, cleanup).1.code ==
            if req.bytes > 281474976710656 then OutOfRange
            else if fault == ReadBackLost(true) then NotFound
            else if fault == LookupFails || fault.VolumeFails? || ReadOfNewFails(fault) || fault == SourceUnread
            then Internal
            else if req.source.value.uid != a.nextUid && !Exists(a, req.source.value.uid) then NotFound
            else Internal
  {
    if req.source.Some? {
      CopyFromRefusesWith(a, ConvertSize(DefaultedSize(req.bytes)), req.name, req.source.value, fault, cleanup);
    }
    CreateSucceedsExactly(a, req, fault, cleanup);
  }

  /** What a created volume is: under the uid that is answered, of the least capacity that holds the
      request, beside the volumes there were; and a clone is the target of one new copying mapping,
      not of copy rate 0, from the source. */
  lemma CreatedIsAsRequested(a: Array, req: CreateRequest, fault: CreateFault, cleanup: Cleanup)
    requires Integrity(a) && req.name !in a.volumes && CreateResult(a, req, fault, cleanup).1.Created?
    ensures
      var (b, answer) := CreateResult(a, req, fault, cleanup);
      && b.volumes == a.volumes[req.name := Volume(answer.uid, answer.capacity)] && !Exists(a, answer.uid)
      && IsLeastFit(if req.bytes == 0 then 1 else req.bytes, answer.capacity)
      && (req.source == None ==> b.fcmaps == a.fcmaps && answer.copySource == None)
      && (req.source.Some? ==>
            && answer.copySource == Some(req.source.value.uid)
            && a.nextMap !in a.fcmaps
            && exists from :: Clonable(a, from, req.source.value)
                              && b.fcmaps == a.fcmaps[a.nextMap := FcMap(from, req.name, false, Copying)])
  {
    var capacity := ConvertSize(DefaultedSize(req.bytes));
    LeastBlocks(if req.bytes == 0 then 1 else req.bytes);
    CreateSucceedsExactly(a, req, fault, cleanup);
    CreatedHasSource(a, req, fault, cleanup);
    if req.source.Some? {
      var from :| Clonable(a, from, req.source.value);
      NameIsUnique(a, from, req.source.value.uid);
      SourceAmongMade(a, req.name, capacity, req.source.value.uid);
      assert CreateResult(a, req, fault, cleanup).0.fcmaps
             == a.fcmaps[a.nextMap := FcMap(from, req.name, false, Copying)];
    }
  }

  // ---------- repeating a request ----------

  lemma CreatedHasSource(a: Array, req: CreateRequest, fault: CreateFault, cleanup: Cleanup)
    requires Integrity(a) && req.name !in a.volumes && CreateResult(a, req, fault, cleanup).1.Created?
    ensures
      var (b, answer) := CreateResult(a, req, fault, cleanup);
      && req.name in b.volumes && b.volumes[req.name] == Volume(a.nextUid, ConvertSize(DefaultedSize(req.bytes)))
      && answer == Created(a.nextUid, ConvertSize(DefaultedSize(req.bytes)), SourceUid(req.source))
      && CopySource(b, req.name) == SourceUid(req.source)
  {
    var made := WithVolume(a, req.name, ConvertSize(DefaultedSize(req.bytes)));
    MadeIsFresh(a, req.name, ConvertSize(DefaultedSize(req.bytes)));
    if req.source == None {
      assert AsTarget(made, req.name) == {};
    } else {
      var from := NameOf(made, req.source.value.uid).value;
      CopyHasSource(made, from, req.source.value.uid, req.name);
    }
  }

  lemma CopyHasSource(a: Array, source: Name, uid: Uid, target: Name)
    requires Numbered(a) && HasUid(a, source, uid) && Touching(a, target) == {} && source != target
    ensures CopySource(WithMap(a, source, target, false, Copying), target) == Some(uid)
  {
    var b := WithMap(a, source, target, false, Copying);
    OneNewMap(a, source, target, false, Copying);
    assert AsTarget(b, target) == {a.nextMap};
    forall id | AsTarget(b, target) == {id}
      ensures id == a.nextMap
    {
      assert a.nextMap in {id};
    }
  }

  /** Repeating a request that has just made its volume changes nothing. It gets the same answer, with
      a source, exactly when the name of the source volume is not lost; and without a source exactly
      when the size asked for is a positive whole number of blocks, because the size that is compared
      is the one asked for, not the one that was defaulted and rounded. */
  lemma CreateIsIdempotentExactly(
    a: Array, req: CreateRequest, fault: CreateFault, cleanup: Cleanup, fault': CreateFault, cleanup': Cleanup)
    requires Integrity(a) && req.name !in a.volumes
    requires CreateResult(a, req, fault, cleanup).1.Created? && fault' != LookupFails
    ensures
      var (b, first) := CreateResult(a, req, fault, cleanup);
      var (c, second) := CreateResult(b, req, fault', cleanup');
      && c == b
      && (second == first <==>
            if req.source.Some? then fault' != SourceNameLost else req.bytes > 0 && req.bytes % BLOCK_SIZE == 0)
      && (second != first ==> second == Refused(AlreadyExists))
  {
    CreatedHasSource(a, req, fault, cleanup);
  }

  /** Repeating a request whose new volume could not be read: with a source it is refused for good,
      since the volume has none; without one it succeeds exactly as any other repeat would. */
  lemma RetryAfterFailedRead(
    a: Array, req: CreateRequest, fault: CreateFault, cleanup: Cleanup, fault': CreateFault, cleanup': Cleanup)
    requires Integrity(a) && Makes(a, req, fault) && ReadOfNewFails(fault) && fault' != LookupFails
    ensures
      var b := CreateResult(a, req, fault, cleanup).0;
      var (c, second) := CreateResult(b, req, fault', cleanup');
      && c == b
      && second == if req.source == None && req.bytes > 0 && req.bytes % BLOCK_SIZE == 0
                   then Created(a.nextUid, req.bytes, None) else Refused(AlreadyExists)
  {
    var made := WithVolume(a, req.name, ConvertSize(DefaultedSize(req.bytes)));
    MadeIsFresh(a, req.name, ConvertSize(DefaultedSize(req.bytes)));
    assert AsTarget(made, req.name) == {};
    assert CopySource(made, req.name) == None;
  }

  // ---------- the answer for a volume that is there ----------

  /** The volume is what the request asks for: a copy of the source, whatever its size, or no copy and
      of the size. */
  ghost predicate AsRequested(a: Array, req: CreateRequest)
    requires req.name in a.volumes
  {
    && CopySource(a, req.name) == SourceUid(req.source)
    && (req.source == None ==> a.volumes[req.name].capacity == req.bytes)
  }

  /** The volume is a copy, and the request is for this copy, or for no copy but of its size. */
  ghost predicate Misleading(a: Array, req: CreateRequest)
    requires req.name in a.volumes
  {
    && CopySource(a, req.name).Some?
    && (if req.source.Some? then SourceUid(req.source) == CopySource(a, req.name)
        else a.volumes[req.name].capacity == req.bytes)
  }

  /** A volume that is there is handed out exactly if it is what the request asks for, unless the name
      of its source volume is lost and it is misleading: then exactly the other way round. */
  lemma ExistingAnswerIsRightExactly(a: Array, req: CreateRequest, lost: bool)
    requires req.name in a.volumes
    ensures (ExistingAnswer(a, req, lost).Created? <==> AsRequested(a, req)) <==> !(lost && Misleading(a, req))
    ensures ExistingAnswer(a, req, lost) == ExistingAnswer(a, req, false) <==> !(lost && Misleading(a, req))
  {
  }

  /** A clone is handed out to a request for a plain volume of its size, and refused to the request
      that it was made for, when the read of its source's name fails. */
  lemma LostSourceNameMisleads(source: Name, target: Name, id: MapId, cleanup: Cleanup)
    requires source != target
    ensures
      var a := Array(map[source := Volume(0, 512), target := Volume(1, 512)],
                     map[id := FcMap(source, target, false, IdleOrCopied)], 2, id + 1);
      var plain := CreateRequest(target, 512, None);
      var clone := CreateRequest(target, 512, Some(Source(0, false)));
      && Integrity(a) && !AsRequested(a, plain) && AsRequested(a, clone)
      && CreateResult(a, plain, SourceNameLost, cleanup) == (a, Created(1, 512, None))
      && CreateResult(a, clone, SourceNameLost, cleanup) == (a, Refused(AlreadyExists))
  {
    var a := Array(map[source := Volume(0, 512), target := Volume(1, 512)],
                   map[id := FcMap(source, target, false, IdleOrCopied)], 2, id + 1);
    assert AsTarget(a, target) == {id};
    forall i | AsTarget(a, target) == {i}
      ensures i == id
    {
      assert id in {i};
    }
    assert CopySource(a, target) == Some(0);
  }

  /** A request for a volume that is there changes nothing, and a repeat is answered the same exactly
      when the name of the source volume is lost both times or never, or makes no difference. */
  lemma FindingIsIdempotentExactly(
    a: Array, req: CreateRequest, fault: CreateFault, cleanup: Cleanup, fault': CreateFault, cleanup': Cleanup)
    requires req.name in a.volumes && fault != LookupFails && fault' != LookupFails
    ensures
      var (b, first) := CreateResult(a, req, fault, cleanup);
      var (c, second) := CreateResult(b, req, fault', cleanup');
      && b == a && c == a
      && (second == first <==>
            || req.bytes > MAX_SIZE || !Misleading(a, req)
            || (fault == SourceNameLost <==> fault' == SourceNameLost))
  {
    ExistingAnswerIsRightExactly(a, req, true);
  }
}
