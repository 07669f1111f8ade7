/** The DS8K mediator: the FlashCopy discipline of checking every relation first and deleting after,
    where any failing command ends the operation. */
module Ds8k {
  import opened Faults

  type VolumeId = nat
  type FcId = nat

  datatype Volume = Volume(name: string, capacity: nat)

  /** noBackground is backgroundcopy "disabled", the mark of a snapshot; outOfSync counts the tracks
      still to be copied. */
  datatype Flashcopy = Flashcopy(source: VolumeId, target: VolumeId, noBackground: bool, outOfSync: nat)

  datatype Array = Array(volumes: map<VolumeId, Volume>, flashcopies: map<FcId, Flashcopy>)

  /** CopyRefused stands for the refusals of a new relation that the mediator recognises. */
  datatype Error = ObjectNotFound | StillInUse | NotEnoughSpace | NameTaken | CopyRefused | ClientError

  datatype Outcome = Done | Failed(error: Error)

  function AsSource(a: Array, volume: VolumeId): set<FcId> {
    set id | id in a.flashcopies && a.flashcopies[id].source == volume
  }

  function AsTarget(a: Array, volume: VolumeId): set<FcId> {
    set id | id in a.flashcopies && a.flashcopies[id].target == volume
  }

  function Touching(a: Array, volume: VolumeId): set<FcId> {
    AsSource(a, volume) + AsTarget(a, volume)
  }

  predicate IsSnapshot(a: Array, volume: VolumeId) {
    exists id | id in AsTarget(a, volume) :: a.flashcopies[id].noBackground
  }

  /** The relation is a snapshot's, or its copy is not finished. */
  predicate Unsafe(f: Flashcopy) {
    f.noBackground || f.outOfSync != 0
  }

  predicate AnyUnsafe(a: Array, ids: set<FcId>)
    requires ids <= a.flashcopies.Keys
  {
    exists id | id in ids :: Unsafe(a.flashcopies[id])
  }

  /** Only relations of the set are gone. */
  ghost predicate Shrunk(a: Array, a': Array, ids: set<FcId>) {
    && a'.flashcopies.Keys <= a.flashcopies.Keys
    && (forall id | id in a'.flashcopies :: a'.flashcopies[id] == a.flashcopies[id])
    && (forall id | id in a.flashcopies && id !in ids :: id in a'.flashcopies)
  }

  /** Both ends of every relation exist and differ, and no volume is a target twice. */
  ghost predicate Integrity(a: Array) {
    && (forall id | id in a.flashcopies ::
          && a.flashcopies[id].source in a.volumes && a.flashcopies[id].target in a.volumes
          && a.flashcopies[id].source != a.flashcopies[id].target)
    && (forall i, j | i in a.flashcopies && j in a.flashcopies && a.flashcopies[i].target == a.flashcopies[j].target ::
          i == j)
  }

  // ---------- what the operations do ----------

  /** Success removes the volume and every relation touching it, refusal changes nothing, and a
      failure, an answer that the volume is not found included, may leave some of its relations
      removed but never the volume. */
  ghost predicate DeleteSpec(a: Array, volume: VolumeId, asSnapshot: bool, mayFail: bool, outcome: Outcome, a': Array) {
    var found := volume in a.volumes && (asSnapshot ==> IsSnapshot(a, volume));
    var safe := !AnyUnsafe(a, AsSource(a, volume));
    match outcome
    case Done => found && safe && a' == Array(a.volumes - {volume}, a.flashcopies - Touching(a, volume))
    case Failed(ObjectNotFound) =>
      || (!found && a' == a)
      || (found && safe && mayFail && a' == Array(a.volumes, a.flashcopies - Touching(a, volume)))
    case Failed(StillInUse) => found && !safe && a' == a
    case Failed(ClientError) =>
      && found && mayFail && a'.volumes == a.volumes && Shrunk(a, a', Touching(a, volume)) && (!safe ==> a' == a)
    case Failed(_) => false
  }

  /** What comes of asking the array for a new capacity. Refused stands for every refusal that the
      mediator passes over in silence. */
  datatype ExtendAnswer = Extended | Refused | NoExtents | VolumeNotFound

  function ExtendResult(a: Array, volume: VolumeId, bytes: nat, answer: ExtendAnswer): (Array, Outcome)
    requires volume in a.volumes
  {
    match answer
    case Extended => (a.(volumes := a.volumes[volume := a.volumes[volume].(capacity := bytes)]), Done)
    case Refused => (a, Done)
    case NoExtents => (a, Failed(NotEnoughSpace))
    case VolumeNotFound => (a, Failed(ObjectNotFound))
  }

  /** Success removes every relation touching the volume; it also sets the capacity, unless the
      array refused for a reason the mediator passes over. */
  ghost predicate ExpandSpec(
    a: Array, volume: VolumeId, bytes: nat, mayFail: bool, answer: ExtendAnswer, outcome: Outcome, a': Array)
  {
    if volume !in a.volumes then outcome == Failed(ObjectNotFound) && a' == a
    else if AnyUnsafe(a, Touching(a, volume)) then
      (outcome == Failed(StillInUse) || (mayFail && outcome == Failed(ClientError))) && a' == a
    else
      || (a', outcome) == ExtendResult(a.(flashcopies := a.flashcopies - Touching(a, volume)), volume, bytes, answer)
      || (mayFail && outcome == Failed(ClientError) && a'.volumes == a.volumes && Shrunk(a, a', Touching(a, volume)))
  }

  // ---------- making relations ----------

  /** Where creating a relation fails. The command is refused in a recognised or another way; then
      the state of the relation cannot be read, or is invalid, upon which the relation is deleted if
      that works; last, reading the target again says it is not found, or fails otherwise. */
  datatype CopyFault =
    | NoFault | Recognised | Unrecognised
    | StateUnreadable | StateInvalid(deleted: bool)
    | RereadNotFound | RereadFails | RereadEmpty

  predicate Copyable(a: Array, source: VolumeId, target: VolumeId) {
    source in a.volumes && target in a.volumes && source != target && AsTarget(a, target) == {}
  }

  function WithCopy(a: Array, fc: FcId, f: Flashcopy): Array {
    a.(flashcopies := a.flashcopies[fc := f])
  }

  function CopyResult(a: Array, fc: FcId, f: Flashcopy, fault: CopyFault): (Array, Outcome) {
    match fault
    case NoFault => (WithCopy(a, fc, f), Done)
    case Recognised => (a, Failed(CopyRefused))
    case Unrecognised => (a, Failed(ClientError))
    case StateUnreadable => (WithCopy(a, fc, f), Failed(ClientError))
    case StateInvalid(deleted) => (if deleted then a else WithCopy(a, fc, f), Failed(ClientError))
    case RereadNotFound => (WithCopy(a, fc, f), Failed(ObjectNotFound))
    case RereadFails => (WithCopy(a, fc, f), Failed(ClientError))
    case RereadEmpty => (WithCopy(a, fc, f), Done)
  }

  /** Where creating a snapshot fails: making the target volume, reading it back, or the copy. */
  datatype SnapshotFault = VolumeRefused | VolumeUnreadable | Copying(fault: CopyFault)

  const DELETE_TRIES: nat := 11

  /** Creating a snapshot as a new target and relation. On the two failures it recognises the
      mediator deletes the target, trying again while that fails. A clone does not need what the last
      read gives, a snapshot does. */
  function SnapshotResult(
    a: Array, source: VolumeId, name: string, target: VolumeId, fc: FcId, fault: SnapshotFault, failures: nat)
    : (Array, Outcome)
  {
    if source !in a.volumes then (a, Failed(ObjectNotFound))
    else if NameTakenIn(a, name) then (a, Failed(NameTaken))
    else if fault == VolumeRefused then (a, Failed(NotEnoughSpace))
    else
      var made := a.(volumes := a.volumes[target := Volume(name, a.volumes[source].capacity)]);
      if fault == VolumeUnreadable then (made, Failed(ClientError))
      else
        var (copied, outcome) := CopyResult(made, fc, Flashcopy(source, target, true, 0), fault.fault);
        if outcome == Failed(CopyRefused) || outcome == Failed(ObjectNotFound) then
          if failures < DELETE_TRIES then (copied.(volumes := copied.volumes - {target}), outcome)
          else (copied, Failed(ClientError))
        else (copied, if fault.fault == RereadEmpty then Failed(ClientError) else outcome)
  }

  predicate NameTakenIn(a: Array, name: string) {
    exists v | v in a.volumes :: a.volumes[v].name == name
  }

  /** Copying a source onto an existing volume, enlarged first where the request was smaller. */
  function CloneResult(
    a: Array, source: VolumeId, volume: VolumeId, capacity: nat, minimum: nat, answer: ExtendAnswer,
    fc: FcId, tracks: nat, fault: CopyFault): (Array, Outcome)
  {
    if minimum < capacity && volume !in a.volumes then (a, Failed(ObjectNotFound))
    else
      var (b, outcome) := if minimum < capacity then ExtendResult(a, volume, capacity, answer) else (a, Done);
      if outcome.Failed? then (b, outcome)
      else CopyResult(b, fc, Flashcopy(source, volume, false, tracks), Possible(b, source, volume, fault))
  }

  /** What the array cannot do, it refuses. */
  function Possible(a: Array, source: VolumeId, target: VolumeId, fault: CopyFault): CopyFault {
    if Copyable(a, source, target) || fault == Unrecognised then fault else Recognised
  }

  class Ds8kMediator {
    var state: Array

    constructor (state: Array)
      ensures this.state == state
    {
      this.state := state;
    }

    method DeleteFlashcopy(id: FcId, mayFail: bool) returns (ok: bool)
      modifies this
      ensures !ok ==> mayFail
      ensures state == if ok then old(state).(flashcopies := old(state).flashcopies - {id}) else old(state)
    {
      var fault := Fault(mayFail);
      if fault {
        return false;
      }
      state := state.(flashcopies := state.flashcopies - {id});
      return true;
    }

    method EnsureFlashcopySafeToDelete(id: FcId, mayFail: bool) returns (outcome: Outcome)
      requires id in state.flashcopies
      ensures outcome == Done ==> !Unsafe(state.flashcopies[id])
      ensures outcome == Failed(StillInUse) ==> Unsafe(state.flashcopies[id])
      ensures outcome != Done && outcome != Failed(StillInUse) ==> mayFail && outcome == Failed(ClientError)
    {
      var fault := Fault(mayFail);
      if fault {
        return Failed(ClientError);
      }
      if state.flashcopies[id].noBackground {
        return Failed(StillInUse);
      }
      if state.flashcopies[id].outOfSync != 0 {
        return Failed(StillInUse);
      }
      return Done;
    }

    /** Every relation is checked before the first is deleted. */
    method SafeDeleteFlashcopies(ids: set<FcId>, mayFail: bool) returns (outcome: Outcome)
      requires ids <= state.flashcopies.Keys
      modifies this
      ensures outcome.Failed? ==> outcome.error in {StillInUse, ClientError}
      ensures outcome == Done ==> state == old(state).(flashcopies := old(state).flashcopies - ids)
      ensures outcome == Failed(ClientError) ==> mayFail
      ensures outcome == Failed(StillInUse) ==> state == old(state) && AnyUnsafe(old(state), ids)
      ensures AnyUnsafe(old(state), ids) ==> outcome != Done && state == old(state)
      ensures state.volumes == old(state).volumes && Shrunk(old(state), state, ids)
    {
      var todo := ids;
      while todo != {}
        invariant todo <= ids && state == old(state)
        invariant forall id | id in ids - todo :: !Unsafe(state.flashcopies[id])
        decreases |todo|
      {
        var id :| id in todo;
        todo := todo - {id};
        outcome := EnsureFlashcopySafeToDelete(id, mayFail);
        if outcome.Failed? {
          return;
        }
      }
      assert ids - todo == ids;
      todo := ids;
      while todo != {}
        invariant todo <= ids
        invariant state == old(state).(flashcopies := old(state).flashcopies - (ids - todo))
        decreases |todo|
      {
        var id :| id in todo;
        var ok := DeleteFlashcopy(id, mayFail);
        if !ok {
          return Failed(ClientError);
        }
        todo := todo - {id};
        assert old(state).flashcopies - (ids - todo) == old(state).flashcopies - (ids - (todo + {id})) - {id};
      }
      assert ids - todo == ids;
      return Done;
    }

    method DeleteObject(volume: VolumeId, asSnapshot: bool, mayFail: bool) returns (outcome: Outcome)
      requires Integrity(state)
      modifies this
      ensures DeleteSpec(old(state), volume, asSnapshot, mayFail, outcome, state)
    {
      if volume !in state.volumes {
        return Failed(ObjectNotFound);
      }
      if asSnapshot && !IsSnapshot(state, volume) {
        return Failed(ObjectNotFound);
      }
      ghost var before := state;
      // what the volume's relations were when it was read
      var sources, targets := AsSource(state, volume), AsTarget(state, volume);
      outcome := SafeDeleteFlashcopies(sources, mayFail);
      if outcome.Failed? {
        return;
      }
      OneAtMost(before, volume);
      if |targets| == 1 {
        var id :| id in targets;
        var ok := DeleteFlashcopy(id, mayFail);
        if !ok {
          return Failed(ClientError);
        }
        OneElement(targets, id);
      } else {
        assert targets == {};
      }
      TouchingIsBoth(before, volume);
      outcome := DeleteVolume(volume, mayFail);
    }

    method DeleteVolume(volume: VolumeId, mayFail: bool) returns (outcome: Outcome)
      modifies this
      ensures outcome == Done || (mayFail && outcome in {Failed(ObjectNotFound), Failed(ClientError)})
      ensures state == if outcome == Done then old(state).(volumes := old(state).volumes - {volume}) else old(state)
    {
      var fault := Fault(mayFail);
      var notFound := Fault(mayFail);
      if fault {
        return Failed(if notFound then ObjectNotFound else ClientError);
      }
      state := state.(volumes := state.volumes - {volume});
      return Done;
    }

    /** Errors of the array other than a missing volume and missing space are passed over. */
    method ExtendVolume(volume: VolumeId, bytes: nat, answer: ExtendAnswer) returns (outcome: Outcome)
      requires volume in state.volumes
      modifies this
      ensures (state, outcome) == ExtendResult(old(state), volume, bytes, answer)
    {
      match answer
      case Extended =>
        state := state.(volumes := state.volumes[volume := state.volumes[volume].(capacity := bytes)]);
        return Done;
      case VolumeNotFound => return Failed(ObjectNotFound);
      case NoExtents => return Failed(NotEnoughSpace);
      case Refused => return Done;
    }

    method ExpandVolume(volume: VolumeId, bytes: nat, mayFail: bool, answer: ExtendAnswer) returns (outcome: Outcome)
      modifies this
      ensures ExpandSpec(old(state), volume, bytes, mayFail, answer, outcome, state)
    {
      if volume !in state.volumes {
        return Failed(ObjectNotFound);
      }
      outcome := SafeDeleteFlashcopies(Touching(state, volume), mayFail);
      if outcome.Failed? {
        return;
      }
      outcome := ExtendVolume(volume, bytes, answer);
    }

    /** Asks for the relation, reads its state and then the target again. */
    method CreateFlashcopy(source: VolumeId, target: VolumeId, noBackground: bool, tracks: nat, fault: CopyFault)
      returns (outcome: Outcome, ghost fc: FcId)
      modifies this
      ensures fc !in old(state).flashcopies
      ensures (state, outcome) == CopyResult(old(state), fc, Flashcopy(source, target, noBackground, tracks),
                                             Possible(old(state), source, target, fault))
    {
      var next := Unused(state.flashcopies.Keys);
      fc := next;
      var possible := source in state.volumes && target in state.volumes && source != target
                      && AsTarget(state, target) == {};
      if fault == Unrecognised {
        return Failed(ClientError), fc;
      }
      if !possible || fault == Recognised {
        return Failed(CopyRefused), fc;
      }
      state := state.(flashcopies := state.flashcopies[next := Flashcopy(source, target, noBackground, tracks)]);
      if fault == StateUnreadable {
        return Failed(ClientError), fc;
      }
      if fault.StateInvalid? {
        if fault.deleted {
          state := state.(flashcopies := state.flashcopies - {next});
          assert state.flashcopies == old(state).flashcopies;
        }
        return Failed(ClientError), fc;
      }
      if fault == RereadNotFound {
        return Failed(ObjectNotFound), fc;
      }
      if fault == RereadFails {
        return Failed(ClientError), fc;
      }
      return Done, fc;
    }

    method CreateSnapshot(source: VolumeId, name: string, fault: SnapshotFault, failures: nat)
      returns (outcome: Outcome, ghost target: VolumeId, ghost fc: FcId)
      requires Integrity(state)
      modifies this
      ensures target !in old(state).volumes && fc !in old(state).flashcopies
      ensures (state, outcome) == SnapshotResult(old(state), source, name, target, fc, fault, failures)
    {
      var next := Unused(state.volumes.Keys);
      target := next;
      fc := SomeAbove(state.flashcopies.Keys);
      if source !in state.volumes {
        return Failed(ObjectNotFound), target, fc;
      }
      if exists v | v in state.volumes :: state.volumes[v].name == name {
        return Failed(NameTaken), target, fc;
      }
      if fault == VolumeRefused {
        return Failed(NotEnoughSpace), target, fc;
      }
      ghost var before := state;
      state := state.(volumes := state.volumes[next := Volume(name, state.volumes[source].capacity)]);
      if fault == VolumeUnreadable {
        return Failed(ClientError), target, fc;
      }
      NewVolumeIsCopyable(before, state, source, next);
      outcome, fc := CreateFlashcopy(source, next, true, 0, fault.fault);
      if outcome == Failed(CopyRefused) || outcome == Failed(ObjectNotFound) {
        var deleted := DeleteTargetVolumeIfExists(next, failures);
        if !deleted {
          outcome := Failed(ClientError);
        }
      } else if fault.fault == RereadEmpty {
        outcome := Failed(ClientError);
      }
    }

    /** Tried up to eleven times, of which the first ones fail. */
    method DeleteTargetVolumeIfExists(target: VolumeId, failures: nat) returns (deleted: bool)
      modifies this
      ensures deleted <==> failures < DELETE_TRIES
      ensures state == if deleted then old(state).(volumes := old(state).volumes - {target}) else old(state)
    {
      for tries := 0 to DELETE_TRIES
        invariant state == old(state) && tries <= failures
      {
        if tries == failures {
          state := state.(volumes := state.volumes - {target});
          return true;
        }
      }
      return false;
    }

    /** A clone that fails leaves what it has done to the caller's clean-up. */
    method CopyToExistingVolumeFromSource(
      volume: VolumeId, source: VolumeId, capacity: nat, minimum: nat, answer: ExtendAnswer,
      tracks: nat, fault: CopyFault)
      returns (outcome: Outcome, ghost fc: FcId)
      modifies this
      ensures fc !in old(state).flashcopies
      ensures (state, outcome)
              == CloneResult(old(state), source, volume, capacity, minimum, answer, fc, tracks, fault)
    {
      fc := SomeAbove(state.flashcopies.Keys);
      if minimum < capacity {
        if volume !in state.volumes {
          return Failed(ObjectNotFound), fc;
        }
        outcome := ExtendVolume(volume, capacity, answer);
        if outcome.Failed? {
          return outcome, fc;
        }
      }
      outcome, fc := CreateFlashcopy(source, volume, false, tracks, fault);
    }
  }

  lemma NewVolumeIsCopyable(a: Array, made: Array, source: VolumeId, target: VolumeId)
    requires Integrity(a) && source in a.volumes && target !in a.volumes
    requires made.flashcopies == a.flashcopies && made.volumes.Keys == a.volumes.Keys + {target}
    ensures Copyable(made, source, target)
  {
    forall id | id in made.flashcopies
      ensures made.flashcopies[id].target != target
    {
      assert a.flashcopies[id].target in a.volumes;
    }
  }

  lemma {:induction false} SomeAbove(used: set<nat>) returns (bound: nat)
    ensures forall n | n in used :: n < bound
  {
    bound := 0;
    if used != {} {
      var n :| n in used;
      var rest := SomeAbove(used - {n});
      bound := if n < rest then rest else n + 1;
      assert forall m | m in used :: m == n || m in used - {n};
    }
  }

  /** A number the array has not given out. */
  method Unused(used: set<nat>) returns (id: nat)
    ensures id !in used
  {
    ghost var bound := SomeAbove(used);
    assert bound !in used;
    id :| id !in used;
  }

  lemma TouchingIsBoth(a: Array, volume: VolumeId)
    ensures a.flashcopies - AsSource(a, volume) - AsTarget(a, volume) == a.flashcopies - Touching(a, volume)
    ensures AsTarget(a, volume) == {} ==> a.flashcopies - AsSource(a, volume) == a.flashcopies - Touching(a, volume)
  {
  }

  lemma OneElement(ids: set<FcId>, id: FcId)
    requires |ids| == 1 && id in ids
    ensures ids == {id}
  {
    assert |ids - {id}| == 0;
  }

  lemma OneAtMost(a: Array, volume: VolumeId)
    requires Integrity(a)
    ensures |AsTarget(a, volume)| <= 1
  {
    if AsTarget(a, volume) != {} {
      var id :| id in AsTarget(a, volume);
      assert AsTarget(a, volume) == {id};
    }
  }

  // ---------- over every run ----------

  /** The calls, and the array copying tracks on its own. */
  datatype Op =
    | Delete(volume: VolumeId, asSnapshot: bool, mayFail: bool)
    | Expand(volume: VolumeId, bytes: nat, mayFail: bool, answer: ExtendAnswer)
    | Snapshot(source: VolumeId, name: string, fault: SnapshotFault, failures: nat)
    | Clone(source: VolumeId, volume: VolumeId, capacity: nat, minimum: nat, answer: ExtendAnswer,
            tracks: nat, copyFault: CopyFault)
    | TracksCopied(fc: FcId, left: nat)

  /** newVolume and newCopy are the numbers the array gives out, if it makes anything. */
  datatype Step = Step(op: Op, newVolume: VolumeId, newCopy: FcId, outcome: Outcome, after: Array)

  ghost predicate Performs(a: Array, step: Step) {
    && step.newVolume !in a.volumes && step.newCopy !in a.flashcopies
    && match step.op
       case Delete(volume, asSnapshot, mayFail) => DeleteSpec(a, volume, asSnapshot, mayFail, step.outcome, step.after)
       case Expand(volume, bytes, mayFail, answer) =>
         ExpandSpec(a, volume, bytes, mayFail, answer, step.outcome, step.after)
       case Snapshot(source, name, fault, failures) =>
         (step.after, step.outcome) == SnapshotResult(a, source, name, step.newVolume, step.newCopy, fault, failures)
       case Clone(source, volume, capacity, minimum, answer, tracks, fault) =>
         (step.after, step.outcome)
         == CloneResult(a, source, volume, capacity, minimum, answer, step.newCopy, tracks, fault)
       case TracksCopied(fc, left) =>
         && fc in a.flashcopies && left <= a.flashcopies[fc].outOfSync && step.outcome == Done
         && step.after == WithCopy(a, fc, a.flashcopies[fc].(outOfSync := left))
  }

  ghost predicate Run(a: Array, steps: seq<Step>)
    decreases |steps|
  {
    steps == [] || (Performs(a, steps[0]) && Run(steps[0].after, steps[1..]))
  }

  function Before(a: Array, steps: seq<Step>, k: nat): Array
    requires k < |steps|
  {
    if k == 0 then a else steps[k - 1].after
  }

  /** The step takes a snapshot, gets as far as reading the target again, is told that it is not
      found, and then has the target deleted although the relation onto it is there. */
  predicate Dangles(a: Array, op: Op) {
    && op.Snapshot? && op.source in a.volumes && !NameTakenIn(a, op.name)
    && op.fault == Copying(RereadNotFound) && op.failures < DELETE_TRIES
  }

  /** A volume with an unsafe relation from it is still there. */
  ghost predicate ProtectsSources(a: Array, a': Array) {
    forall id | id in a.flashcopies && Unsafe(a.flashcopies[id]) && a.flashcopies[id].source in a.volumes ::
      a.flashcopies[id].source in a'.volumes
  }

  lemma ShrunkKeepsIntegrity(a: Array, a': Array, ids: set<FcId>)
    requires Integrity(a) && Shrunk(a, a', ids) && a.volumes.Keys <= a'.volumes.Keys
    ensures Integrity(a')
  {
  }

  lemma RemovedKeepsIntegrity(a: Array, volume: VolumeId)
    requires Integrity(a)
    ensures Integrity(Array(a.volumes - {volume}, a.flashcopies - Touching(a, volume)))
  {
    var a' := Array(a.volumes - {volume}, a.flashcopies - Touching(a, volume));
    forall id | id in a'.flashcopies
      ensures a'.flashcopies[id].source in a'.volumes && a'.flashcopies[id].target in a'.volumes
    {
      assert id !in AsSource(a, volume) && id !in AsTarget(a, volume);
    }
  }

  lemma CopyKeepsIntegrity(a: Array, fc: FcId, f: Flashcopy)
    requires Integrity(a) && fc !in a.flashcopies && Copyable(a, f.source, f.target)
    ensures Integrity(WithCopy(a, fc, f))
  {
    forall id | id in a.flashcopies
      ensures a.flashcopies[id].target != f.target
    {
      assert id !in AsTarget(a, f.target);
    }
  }

  lemma MadeHasIntegrity(a: Array, target: VolumeId, volume: Volume)
    requires Integrity(a) && target !in a.volumes
    ensures Integrity(a.(volumes := a.volumes[target := volume]))
  {
  }

  lemma DeleteKeepsIntegrity(a: Array, volume: VolumeId, asSnapshot: bool, mayFail: bool, outcome: Outcome, a': Array)
    requires Integrity(a) && DeleteSpec(a, volume, asSnapshot, mayFail, outcome, a')
    ensures Integrity(a') && ProtectsSources(a, a')
  {
    if outcome == Done {
      RemovedKeepsIntegrity(a, volume);
      forall id | id in a.flashcopies && a.flashcopies[id].source == volume
        ensures !Unsafe(a.flashcopies[id])
      {
        assert id in AsSource(a, volume);
      }
    } else {
      ShrunkKeepsIntegrity(a, a', Touching(a, volume));
    }
  }

  lemma CopyResultKeepsIntegrity(a: Array, fc: FcId, f: Flashcopy, fault: CopyFault)
    requires Integrity(a) && fc !in a.flashcopies && Copyable(a, f.source, f.target)
    ensures Integrity(CopyResult(a, fc, f, fault).0)
  {
    CopyKeepsIntegrity(a, fc, f);
  }

  lemma SnapshotProtects(
    a: Array, source: VolumeId, name: string, target: VolumeId, fc: FcId, fault: SnapshotFault, failures: nat)
    requires target !in a.volumes
    ensures a.volumes.Keys <= SnapshotResult(a, source, name, target, fc, fault, failures).0.volumes.Keys
  {
  }

  lemma SnapshotKeepsIntegrity(
    a: Array, source: VolumeId, name: string, target: VolumeId, fc: FcId, fault: SnapshotFault, failures: nat)
    requires Integrity(a) && target !in a.volumes && fc !in a.flashcopies
    ensures Integrity(SnapshotResult(a, source, name, target, fc, fault, failures).0) <==>
            !Dangles(a, Snapshot(source, name, fault, failures))
  {
    if source in a.volumes && !NameTakenIn(a, name) && fault != VolumeRefused {
      var made := a.(volumes := a.volumes[target := Volume(name, a.volumes[source].capacity)]);
      var f := Flashcopy(source, target, true, 0);
      MadeHasIntegrity(a, target, made.volumes[target]);
      if fault.Copying? {
        NewVolumeIsCopyable(a, made, source, target);
        CopyResultKeepsIntegrity(made, fc, f, fault.fault);
        assert made.volumes - {target} == a.volumes;
        TargetlessHasNoIntegrity(WithCopy(made, fc, f).(volumes := made.volumes - {target}), fc);
      }
    }
  }

  lemma TargetlessHasNoIntegrity(a: Array, fc: FcId)
    requires fc in a.flashcopies && a.flashcopies[fc].target !in a.volumes
    ensures !Integrity(a)
  {
  }

  lemma CloneKeepsIntegrity(
    a: Array, source: VolumeId, volume: VolumeId, capacity: nat, minimum: nat, answer: ExtendAnswer,
    fc: FcId, tracks: nat, fault: CopyFault)
    requires Integrity(a) && fc !in a.flashcopies
    ensures
      var a' := CloneResult(a, source, volume, capacity, minimum, answer, fc, tracks, fault).0;
      Integrity(a') && a.volumes.Keys <= a'.volumes.Keys
  {
    if !(minimum < capacity && volume !in a.volumes) {
      var b := if minimum < capacity then ExtendResult(a, volume, capacity, answer).0 else a;
      assert b.flashcopies == a.flashcopies && b.volumes.Keys == a.volumes.Keys;
      ShrunkKeepsIntegrity(a, b, {});
      if Copyable(b, source, volume) {
        CopyKeepsIntegrity(b, fc, Flashcopy(source, volume, false, tracks));
      }
    }
  }

  /** Every step from an array with integrity protects the sources of unsafe relations, and it keeps
      integrity unless it is the one that dangles. */
  lemma StepKeepsIntegrity(a: Array, step: Step)
    requires Integrity(a) && Performs(a, step)
    ensures Integrity(step.after) <==> !Dangles(a, step.op)
    ensures ProtectsSources(a, step.after)
  {
    match step.op
    case Delete(volume, asSnapshot, mayFail) =>
      DeleteKeepsIntegrity(a, volume, asSnapshot, mayFail, step.outcome, step.after);
    case Expand(volume, _, _, _) =>
      ShrunkKeepsIntegrity(a, step.after, Touching(a, volume));
    case Snapshot(source, name, fault, failures) =>
      SnapshotKeepsIntegrity(a, source, name, step.newVolume, step.newCopy, fault, failures);
      SnapshotProtects(a, source, name, step.newVolume, step.newCopy, fault, failures);
    case Clone(source, volume, capacity, minimum, answer, tracks, fault) =>
      CloneKeepsIntegrity(a, source, volume, capacity, minimum, answer, step.newCopy, tracks, fault);
    case TracksCopied(fc, left) =>
      assert a.flashcopies[fc].(outOfSync := left).target == a.flashcopies[fc].target;
  }

  /** Whatever is deleted, expanded, cloned or snapshotted, and whichever commands fail on the way,
      every relation keeps both its volumes and no volume becomes a target twice throughout a run,
      if and only if no snapshot of the run has its target deleted over a lost answer. Up to the
      first such snapshot no source of an unsafe relation is deleted. */
  lemma {:induction false} RunsKeepIntegrity(a: Array, steps: seq<Step>)
    requires Integrity(a) && Run(a, steps)
    ensures (forall k | 0 <= k < |steps| :: Integrity(steps[k].after)) <==>
            (forall k | 0 <= k < |steps| :: !Dangles(Before(a, steps, k), steps[k].op))
    ensures forall k | 0 <= k < |steps| && (forall j | 0 <= j < k :: !Dangles(Before(a, steps, j), steps[j].op)) ::
              ProtectsSources(Before(a, steps, k), steps[k].after)
    decreases |steps|
  {
    if steps != [] {
      var first, rest := steps[0], steps[1..];
      StepKeepsIntegrity(a, first);
      assert Before(a, steps, 0) == a;
      forall k | 0 < k < |steps|
        ensures steps[k] == rest[k - 1] && Before(a, steps, k) == Before(first.after, rest, k - 1)
      {
      }
      assert forall k | 0 <= k < |rest| :: rest[k] == steps[k + 1];
      if !Dangles(a, first.op) {
        RunsKeepIntegrity(first.after, rest);
        forall k | 0 < k < |steps| && (forall j | 0 <= j < k :: !Dangles(Before(a, steps, j), steps[j].op))
          ensures ProtectsSources(Before(a, steps, k), steps[k].after)
        {
          assert forall j | 0 <= j < k - 1 ::
              Before(first.after, rest, j) == Before(a, steps, j + 1) && rest[j] == steps[j + 1];
        }
      }
    }
  }

  /** The run that dangles: one snapshot, whose last read is answered "not found". */
  lemma LostAnswerDangles(source: VolumeId, target: VolumeId, fc: FcId, volume: Volume, name: string)
    requires source != target && volume.name != name
    ensures
      var a := Array(map[source := volume], map[]);
      var (after, outcome) := SnapshotResult(a, source, name, target, fc, Copying(RereadNotFound), 0);
      && Integrity(a) && outcome == Failed(ObjectNotFound)
      && after == Array(map[source := volume], map[fc := Flashcopy(source, target, true, 0)])
      && !Integrity(after)
  {
    var a := Array(map[source := volume], map[]);
    var made := a.volumes[target := Volume(name, volume.capacity)];
    assert made - {target} == a.volumes;
    var after := SnapshotResult(a, source, name, target, fc, Copying(RereadNotFound), 0).0;
    assert after.flashcopies[fc].target !in after.volumes;
  }

  /** As a corollary of SnapshotResult, failure by failure: a snapshot that is started leaves the array
      as it was exactly when making the volume was refused, or the relation was refused in a recognised
      way and one of the eleven deletions worked; it leaves its target volume after every failure but
      these and the dangling one. */
  lemma SnapshotLeavesArrayExactly(
    a: Array, source: VolumeId, name: string, target: VolumeId, fc: FcId, fault: SnapshotFault, failures: nat)
    requires source in a.volumes && !NameTakenIn(a, name) && target !in a.volumes && fc !in a.flashcopies
    ensures
      var (after, outcome) := SnapshotResult(a, source, name, target, fc, fault, failures);
      && (after == a <==> fault == VolumeRefused || (fault == Copying(Recognised) && failures < DELETE_TRIES))
      && (target in after.volumes <==>
            fault != VolumeRefused
            && !(failures < DELETE_TRIES && (fault == Copying(Recognised) || fault == Copying(RereadNotFound))))
      && (fc in after.flashcopies <==>
            fault.Copying? && fault.fault !in {Recognised, Unrecognised, StateInvalid(true)})
      && (outcome == Done <==> fault == Copying(NoFault))
  {
    var made := a.volumes[target := Volume(name, a.volumes[source].capacity)];
    assert made - {target} == a.volumes;
    assert target in made;
  }

  // ---------- what success leaves, and what is refused ----------

  /** A clone copies from its source onto the volume, in the background, and touches no other volume:
      the volume is enlarged to the source's capacity where the request was smaller, unless the array
      refuses that in a way the mediator passes over. */
  lemma CloneCopiesFromItsSource(
    a: Array, source: VolumeId, volume: VolumeId, capacity: nat, minimum: nat, answer: ExtendAnswer,
    fc: FcId, tracks: nat, fault: CopyFault)
    requires CloneResult(a, source, volume, capacity, minimum, answer, fc, tracks, fault).1 == Done
    ensures
      var b := CloneResult(a, source, volume, capacity, minimum, answer, fc, tracks, fault).0;
      && source in a.volumes && volume in a.volumes && source != volume
      && (forall id | id in a.flashcopies :: a.flashcopies[id].target != volume)
      && b.flashcopies == a.flashcopies[fc := Flashcopy(source, volume, false, tracks)]
      && b.volumes == (if minimum < capacity && answer == Extended
                       then a.volumes[volume := Volume(a.volumes[volume].name, capacity)] else a.volumes)
  {
    var b := if minimum < capacity then ExtendResult(a, volume, capacity, answer).0 else a;
    assert b.flashcopies == a.flashcopies && b.volumes.Keys == a.volumes.Keys;
    forall id | id in a.flashcopies
      ensures a.flashcopies[id].target != volume
    {
      assert id !in AsTarget(b, volume);
    }
  }

  /** When a clone succeeds. */
  lemma CloneSucceedsExactly(
    a: Array, source: VolumeId, volume: VolumeId, capacity: nat, minimum: nat, answer: ExtendAnswer,
    fc: FcId, tracks: nat, fault: CopyFault)
    ensures CloneResult(a, source, volume, capacity, minimum, answer, fc, tracks, fault).1 == Done <==>
            && source in a.volumes && volume in a.volumes && source != volume
            && (forall id | id in a.flashcopies :: a.flashcopies[id].target != volume)
            && (minimum < capacity ==> answer == Extended || answer == Refused)
            && (fault == NoFault || fault == RereadEmpty)
  {
    if minimum < capacity && volume !in a.volumes {
    } else {
      var b := if minimum < capacity then ExtendResult(a, volume, capacity, answer).0 else a;
      assert b.flashcopies == a.flashcopies && b.volumes.Keys == a.volumes.Keys;
      assert AsTarget(b, volume) == {} <==> forall id | id in a.flashcopies :: a.flashcopies[id].target != volume by {
        if id :| id in a.flashcopies && a.flashcopies[id].target == volume {
          assert id in AsTarget(b, volume);
        }
      }
    }
  }

  /** A snapshot that succeeds has a new target of the name that was asked for and of its source's
      capacity, and one new relation onto it without background copy; nothing else changes. */
  lemma SnapshotIsOfItsSource(
    a: Array, source: VolumeId, name: string, target: VolumeId, fc: FcId, fault: SnapshotFault, failures: nat)
    requires SnapshotResult(a, source, name, target, fc, fault, failures).1 == Done
    ensures
      var b := SnapshotResult(a, source, name, target, fc, fault, failures).0;
      && source in a.volumes && (forall v | v in a.volumes :: a.volumes[v].name != name)
      && b.volumes == a.volumes[target := Volume(name, a.volumes[source].capacity)]
      && b.flashcopies == a.flashcopies[fc := Flashcopy(source, target, true, 0)]
  {
  }

  /** What a failed snapshot is answered with. */
  lemma SnapshotFailsWith(
    a: Array, source: VolumeId, name: string, target: VolumeId, fc: FcId, fault: SnapshotFault, failures: nat)
    ensures
      var outcome := SnapshotResult(a, source, name, target, fc, fault, failures).1;
      if source !in a.volumes then outcome == Failed(ObjectNotFound)
      else if exists v :: v in a.volumes && a.volumes[v].name == name then outcome == Failed(NameTaken)
      else if fault == VolumeRefused then outcome == Failed(NotEnoughSpace)
      else if fault == Copying(NoFault) then outcome == Done
      else if fault == Copying(Recognised) && failures < 11 then outcome == Failed(CopyRefused)
      else if fault == Copying(RereadNotFound) && failures < 11 then outcome == Failed(ObjectNotFound)
      else outcome == Failed(ClientError)
  {
  }

  /** A deletion that goes through had no snapshot's relation and no unfinished copy from the volume,
      and one that is refused as in use has one; a snapshot's deletion needs a relation without
      background copy onto it. */
  lemma DeleteOutcomes(a: Array, volume: VolumeId, asSnapshot: bool, mayFail: bool, outcome: Outcome, a': Array)
    requires DeleteSpec(a, volume, asSnapshot, mayFail, outcome, a')
    ensures
      var busy := exists id :: id in a.flashcopies && a.flashcopies[id].source == volume
                               && (a.flashcopies[id].noBackground || a.flashcopies[id].outOfSync > 0);
      var snapped := exists id :: id in a.flashcopies && a.flashcopies[id].target == volume
                                  && a.flashcopies[id].noBackground;
      && (outcome == Done ==> volume in a.volumes && !busy && (asSnapshot ==> snapped))
      && (outcome == Failed(StillInUse) ==> busy && a' == a)
      && (outcome == Failed(ObjectNotFound) && !mayFail ==> volume !in a.volumes || (asSnapshot && !snapped))
      && (!mayFail && volume in a.volumes && (asSnapshot ==> snapped) ==>
            outcome == if busy then Failed(StillInUse) else Done)
      && (outcome == Done ==>
            && a'.volumes == a.volumes - {volume}
            && forall id :: id in a'.flashcopies <==>
                 id in a.flashcopies && a.flashcopies[id].source != volume && a.flashcopies[id].target != volume)
  {
    if id :| id in a.flashcopies && a.flashcopies[id].source == volume && Unsafe(a.flashcopies[id]) {
      assert id in AsSource(a, volume);
    }
    if id :| id in a.flashcopies && a.flashcopies[id].target == volume && a.flashcopies[id].noBackground {
      assert id in AsTarget(a, volume);
    }
  }

  /** The same for an expansion, which looks at the relations onto the volume too. */
  lemma ExpandOutcomes(
    a: Array, volume: VolumeId, bytes: nat, answer: ExtendAnswer, outcome: Outcome, a': Array)
    requires ExpandSpec(a, volume, bytes, false, answer, outcome, a') && volume in a.volumes
    ensures
      var busy := exists id :: id in a.flashcopies
                               && (a.flashcopies[id].source == volume || a.flashcopies[id].target == volume)
                               && (a.flashcopies[id].noBackground || a.flashcopies[id].outOfSync > 0);
      && (outcome == Failed(StillInUse) <==> busy)
      && (busy ==> a' == a)
      && (!busy ==>
            && (outcome == Done <==> answer == Extended || answer == Refused)
            && (outcome == Failed(NotEnoughSpace) <==> answer == NoExtents)
            && (outcome == Failed(ObjectNotFound) <==> answer == VolumeNotFound)
            && a'.volumes == (if answer == Extended then a.volumes[volume := Volume(a.volumes[volume].name, bytes)]
                              else a.volumes)
            && forall id :: id in a'.flashcopies <==>
                 id in a.flashcopies && a.flashcopies[id].source != volume && a.flashcopies[id].target != volume)
  {
    if id :| id in a.flashcopies && (a.flashcopies[id].source == volume || a.flashcopies[id].target == volume)
             && Unsafe(a.flashcopies[id]) {
      assert id in Touching(a, volume);
    }
  }
}
