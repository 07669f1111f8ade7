/** Deletions and snapshots on SVC as the server's threads run them, interleaved: nothing locks a
    volume, so a snapshot may be mapped from a volume between the check of its deletion and the
    removal. Each command and each read is one step. */
module DeletionMachine {
  import opened Options
  import opened SvcArray
  import opened SvcLaws
  import opened SvcMediator

  /** Where a call is. A deletion finds its volume, reads the mapping onto it, reads and checks those
      from it, removes them, stops and removes the one onto it, and removes the volume. A snapshot
      looks its name up, reads its source, makes its target and reads it back, maps onto it, reads it
      again and starts the mapping; after a failed command it is undone: the target is read, its one
      mapping removed, and the target removed. */
  datatype Task =
    | Finding(vol: Name)
    | ReadingOnto(vol: Name)
    | Checking(vol: Name, onto: Option<MapId>)
    | Clearing(vol: Name, todo: set<MapId>, onto: Option<MapId>)
    | Stopping(vol: Name, onto: Option<MapId>)
    | Dropping(vol: Name, onto: Option<MapId>)
    | Removing(vol: Name, undo: bool)
    | NameLookup(source: Name, target: Name)
    | ReadingSource(source: Name, target: Name)
    | Making(source: Name, target: Name, capacity: nat)
    | ReadingBack(source: Name, target: Name)
    | Mapping(source: Name, target: Name)
    | Rereading(target: Name)
    | Starting(target: Name, found: Option<MapId>)
    | UndoLooking(target: Name)
    | UndoDropping(target: Name, found: Option<MapId>)
    | Ended

  datatype State = State(arr: Array, tasks: map<nat, Task>)

  /** How a step's command or read goes. LetGo is that of an array which lets a volume go although
      mappings touch it; Refuses a failure that ends the call, GivesUp one that is not tried again. */
  datatype Answer = Works | LetGo | Fails | Refuses | GivesUp

  /** A call begins, or makes a step; a deletion that is removing mappings removes the one named. */
  datatype Event =
    | Delete(id: nat, vol: Name)
    | Snapshot(id: nat, source: Name, target: Name)
    | Act(id: nat, answer: Answer, fcmap: MapId)
    | CopyFinishes(fcmap: MapId)

  predicate Good(answer: Answer) {
    answer == Works || answer == LetGo
  }

  function WithStatus(a: Array, id: MapId, status: Status): Array
    requires id in a.fcmaps
  {
    a.(fcmaps := a.fcmaps[id := a.fcmaps[id].(status := status)])
  }

  /** Removing one mapping: without force the array keeps one that is copying. */
  function AfterRmFcMap(a: Array, id: MapId, force: bool, answer: Answer): Array {
    if Good(answer) && id in a.fcmaps && (force || a.fcmaps[id].status != Copying) then WithoutMaps(a, {id}) else a
  }

  /** The mapping that a set consists of, if it is exactly one. */
  function Single(ids: set<MapId>): (id: Option<MapId>)
    ensures id.Some? ==> ids == {id.value}
  {
    if |ids| == 1 then Some(TheOnly(ids)) else None
  }

  predicate Mappable(a: Array, source: Name, target: Name) {
    source in a.volumes && target in a.volumes && source != target && AsTarget(a, target) == {}
  }

  predicate Goes(a: Array, vol: Name, answer: Answer) {
    vol in a.volumes && (answer == LetGo || (answer == Works && Touching(a, vol) == {}))
  }

  /** The array and the call after one step of it. */
  function Step(a: Array, task: Task, answer: Answer, fcmap: MapId): (Array, Task) {
    var good := Good(answer);
    match task
    case Finding(vol) => (a, if good && vol in a.volumes then ReadingOnto(vol) else Ended)
    case ReadingOnto(vol) => (a, if good then Checking(vol, Single(AsTarget(a, vol))) else Ended)
    case Checking(vol, onto) =>
      (a, if good && !SourceBusy(a, vol) then Clearing(vol, AsSource(a, vol), onto) else Ended)
    case Clearing(vol, todo, onto) =>
      if todo == {} then (a, if onto.Some? then Stopping(vol, onto) else Removing(vol, false))
      else if fcmap in todo then (AfterRmFcMap(a, fcmap, false, answer), Clearing(vol, todo - {fcmap}, onto))
      else (a, task)
    case Stopping(vol, onto) =>
      (if good && onto.Some? && onto.value in a.fcmaps then WithStatus(a, onto.value, Stopped) else a,
       Dropping(vol, onto))
    case Dropping(vol, onto) =>
      (if onto.Some? then AfterRmFcMap(a, onto.value, true, answer) else a, Removing(vol, false))
    case Removing(vol, undo) =>
      if Goes(a, vol, answer) then (WithoutVolume(a, vol), Ended)
      else (a, if undo && answer != GivesUp then UndoLooking(vol) else Ended)
    case NameLookup(source, target) =>
      (a, if answer == Refuses || (good && target in a.volumes) then Ended else ReadingSource(source, target))
    case ReadingSource(source, target) =>
      (a, if good && source in a.volumes then Making(source, target, ConvertSize(a.volumes[source].capacity))
          else Ended)
    case Making(source, target, capacity) =>
      if answer == Refuses then (a, Ended)
      else if !good then (a, UndoLooking(target))
      else if target in a.volumes then (a, Ended)
      else (WithVolume(a, target, capacity), ReadingBack(source, target))
    case ReadingBack(source, target) => (a, if good then Mapping(source, target) else Ended)
    case Mapping(source, target) =>
      if good && Mappable(a, source, target)
      then (WithMap(a, source, target, true, IdleOrCopied), Rereading(target))
      else (a, UndoLooking(target))
    case Rereading(target) => (a, if good then Starting(target, Single(Touching(a, target))) else Ended)
    case Starting(target, found) =>
      if good && found.Some? && found.value in a.fcmaps then (WithStatus(a, found.value, Copying), Ended)
      else (a, UndoLooking(target))
    case UndoLooking(target) =>
      (a, if good && target in a.volumes then UndoDropping(target, Single(Touching(a, target))) else Ended)
    case UndoDropping(target, found) =>
      (if found.Some? then AfterRmFcMap(a, found.value, false, answer) else a, Removing(target, true))
    case Ended => (a, Ended)
  }

  function Apply(s: State, e: Event): State {
    match e
    case Delete(id, vol) => if id in s.tasks then s else s.(tasks := s.tasks[id := Finding(vol)])
    case Snapshot(id, source, target) =>
      if id in s.tasks then s else s.(tasks := s.tasks[id := NameLookup(source, target)])
    case Act(id, answer, fcmap) =>
      if id !in s.tasks then s
      else
        var next := Step(s.arr, s.tasks[id], answer, fcmap);
        State(next.0, s.tasks[id := next.1])
    case CopyFinishes(id) =>
      if id in s.arr.fcmaps && s.arr.fcmaps[id].status == Copying && !s.arr.fcmaps[id].noCopy
      then s.(arr := WithStatus(s.arr, id, IdleOrCopied)) else s
  }

  function Exec(s: State, events: seq<Event>): State
    decreases |events|
  {
    if events == [] then s else Exec(Apply(s, events[0]), events[1..])
  }

  // ---------- what is to be kept, and what endangers it ----------

  /** The volume of every snapshot is there. */
  ghost predicate Protected(a: Array) {
    forall id | id in a.fcmaps && a.fcmaps[id].noCopy :: a.fcmaps[id].source in a.volumes
  }

  /** A snapshot was taken of the volume. */
  ghost predicate Snapped(a: Array, vol: Name) {
    exists id :: id in a.fcmaps && a.fcmaps[id].noCopy && a.fcmaps[id].source == vol
  }

  /** The call may remove the volume without checking its mappings any more. */
  predicate Bound(task: Task, vol: Name) {
    match task
    case Clearing(v, _, _) => v == vol
    case Stopping(v, _) => v == vol
    case Dropping(v, _) => v == vol
    case Removing(v, _) => v == vol
    case ReadingBack(_, v) => v == vol
    case Mapping(_, v) => v == vol
    case Starting(v, _) => v == vol
    case Rereading(v) => v == vol
    case UndoLooking(v) => v == vol
    case UndoDropping(v, _) => v == vol
    case _ => false
  }

  ghost predicate SomeoneBound(s: State, vol: Name) {
    exists id :: id in s.tasks && Bound(s.tasks[id], vol)
  }

  /** A snapshot was taken of a volume that some call may remove unchecked. */
  ghost predicate Exposed(s: State) {
    exists vol :: Snapped(s.arr, vol) && SomeoneBound(s, vol)
  }

  /** The step maps a snapshot from a volume whose deletion is past its check, or whose making may
      still be undone. */
  ghost predicate MapsTooLate(s: State, e: Event) {
    && e.Act? && e.id in s.tasks && s.tasks[e.id].Mapping?
    && Good(e.answer) && Mappable(s.arr, s.tasks[e.id].source, s.tasks[e.id].target)
    && SomeoneBound(s, s.tasks[e.id].source)
  }

  /** The step fails to make a target whose name a volume bears that a snapshot was taken of. */
  ghost predicate UndoesTooMuch(s: State, e: Event) {
    && e.Act? && e.id in s.tasks && s.tasks[e.id].Making?
    && (e.answer == Fails || e.answer == GivesUp) && Snapped(s.arr, s.tasks[e.id].target)
  }

  ghost predicate Intrudes(s: State, e: Event) {
    MapsTooLate(s, e) || UndoesTooMuch(s, e)
  }

  ghost predicate NoneIntrudes(s: State, events: seq<Event>)
    decreases |events|
  {
    events == [] || (!Intrudes(s, events[0]) && NoneIntrudes(Apply(s, events[0]), events[1..]))
  }

  /** What is under way may lose the volume of a snapshot although no step intrudes any more. */
  ghost predicate Endangered(s: State) {
    exists events :: NoneIntrudes(s, events) && !Protected(Exec(s, events).arr)
  }

  // ---------- one step ----------

  /** Mappings come from one step only and never change their ends; volumes go in one step only. */
  lemma StepShape(a: Array, task: Task, answer: Answer, fcmap: MapId)
    ensures
      var (b, _) := Step(a, task, answer, fcmap);
      && (forall v | v in a.volumes && v !in b.volumes :: task.Removing? && task.vol == v)
      && (forall id | id in b.fcmaps && b.fcmaps[id].noCopy ::
            || (id in a.fcmaps && a.fcmaps[id].noCopy && a.fcmaps[id].source == b.fcmaps[id].source)
            || (task.Mapping? && Good(answer) && Mappable(a, task.source, task.target)
                && b.fcmaps[id].source == task.source))
  {
  }

  /** A call becomes bound to a volume by passing the check, by making it, or by failing to. */
  lemma BecomingBound(a: Array, task: Task, answer: Answer, fcmap: MapId, vol: Name)
    requires Bound(Step(a, task, answer, fcmap).1, vol)
    ensures
      || Bound(task, vol)
      || (task.Checking? && task.vol == vol && !SourceBusy(a, vol))
      || (task.Making? && task.target == vol && vol !in a.volumes)
      || (task.Making? && task.target == vol && (answer == Fails || answer == GivesUp))
  {
  }

  lemma ActKeepsProtected(s: State, e: Event)
    requires e.Act? && e.id in s.tasks && Protected(s.arr) && !Exposed(s)
    ensures Protected(Apply(s, e).arr)
  {
    var a, task := s.arr, s.tasks[e.id];
    var b := Step(a, task, e.answer, e.fcmap).0;
    StepShape(a, task, e.answer, e.fcmap);
    forall id | id in b.fcmaps && b.fcmaps[id].noCopy
      ensures b.fcmaps[id].source in b.volumes
    {
      var source := b.fcmaps[id].source;
      if source !in b.volumes {
        assert source in a.volumes && task.Removing? && task.vol == source;
        assert Bound(task, source) && Snapped(a, source);
      }
    }
  }

  lemma ApplyKeepsProtected(s: State, e: Event)
    requires Protected(s.arr) && !Exposed(s)
    ensures Protected(Apply(s, e).arr)
  {
    if e.Act? && e.id in s.tasks {
      ActKeepsProtected(s, e);
    }
  }

  /** A snapshot comes to be taken of a bound volume, or of a volume that becomes bound, exactly by an
      intruding step. */
  lemma ExposedByIntruding(s: State, e: Event)
    requires Protected(s.arr) && !Exposed(s) && Exposed(Apply(s, e))
    ensures Intrudes(s, e)
  {
    var s' := Apply(s, e);
    var vol :| Snapped(s'.arr, vol) && SomeoneBound(s', vol);
    if e.Act? && e.id in s.tasks {
      var a, task := s.arr, s.tasks[e.id];
      StepShape(a, task, e.answer, e.fcmap);
      var id :| id in s'.tasks && Bound(s'.tasks[id], vol);
      if !Snapped(a, vol) {
        assert task.Mapping? && task.source == vol;
        assert id != e.id && s'.tasks[id] == s.tasks[id];
        assert SomeoneBound(s, vol);
      } else {
        assert !SomeoneBound(s, vol);
        assert id == e.id;
        BecomingBound(a, task, e.answer, e.fcmap, vol);
        SnappedIsBusy(a, vol);
      }
    } else {
      OtherwiseUnexposed(s, e, vol);
    }
  }

  lemma SnappedIsBusy(a: Array, vol: Name)
    requires Protected(a) && Snapped(a, vol)
    ensures SourceBusy(a, vol) && vol in a.volumes
  {
    var id :| id in a.fcmaps && a.fcmaps[id].noCopy && a.fcmaps[id].source == vol;
    assert id in AsSource(a, vol) && Unfinished(a.fcmaps[id]);
  }

  lemma OtherwiseUnexposed(s: State, e: Event, vol: Name)
    requires !(e.Act? && e.id in s.tasks)
    requires Snapped(Apply(s, e).arr, vol) && SomeoneBound(Apply(s, e), vol)
    ensures Snapped(s.arr, vol) && SomeoneBound(s, vol)
  {
    var s' := Apply(s, e);
    var id :| id in s'.tasks && Bound(s'.tasks[id], vol);
    assert id in s.tasks && s.tasks[id] == s'.tasks[id];
    var m :| m in s'.arr.fcmaps && s'.arr.fcmaps[m].noCopy && s'.arr.fcmaps[m].source == vol;
    assert m in s.arr.fcmaps && s.arr.fcmaps[m].noCopy && s.arr.fcmaps[m].source == vol;
  }

  lemma IntrudingExposes(s: State, e: Event)
    requires Intrudes(s, e)
    ensures Exposed(Apply(s, e))
  {
    var s', task := Apply(s, e), s.tasks[e.id];
    if MapsTooLate(s, e) {
      var id :| id in s.tasks && Bound(s.tasks[id], task.source);
      assert id != e.id && s'.tasks[id] == s.tasks[id];
      assert s'.arr.fcmaps[s.arr.nextMap] == FcMap(task.source, task.target, true, IdleOrCopied);
      assert Snapped(s'.arr, task.source) && SomeoneBound(s', task.source);
    } else {
      assert s'.arr == s.arr && s'.tasks[e.id] == UndoLooking(task.target);
      assert Bound(s'.tasks[e.id], task.target);
      assert Snapped(s'.arr, task.target) && SomeoneBound(s', task.target);
    }
  }

  // ---------- whole runs ----------

  ghost predicate NeverExposed(s: State, events: seq<Event>)
    decreases |events|
  {
    !Exposed(s) && (events != [] ==> NeverExposed(Apply(s, events[0]), events[1..]))
  }

  /** Along a run no call may remove the volume of a snapshot unchecked, exactly when no step intrudes;
      and then the volumes of all snapshots stay. */
  lemma {:induction false} NeverExposedExactly(s: State, events: seq<Event>)
    requires Protected(s.arr) && !Exposed(s)
    ensures NeverExposed(s, events) <==> NoneIntrudes(s, events)
    ensures NoneIntrudes(s, events) ==> Protected(Exec(s, events).arr) && !Exposed(Exec(s, events))
    decreases |events|
  {
    if events != [] {
      var next := Apply(s, events[0]);
      ApplyKeepsProtected(s, events[0]);
      if Intrudes(s, events[0]) {
        IntrudingExposes(s, events[0]);
      } else {
        if Exposed(next) {
          ExposedByIntruding(s, events[0]);
        }
        NeverExposedExactly(next, events[1..]);
      }
    }
  }

  /** The steps a bound call takes at most until it removes its volume. */
  function StepsLeft(task: Task): nat {
    match task
    case ReadingBack(_, _) => 7
    case Mapping(_, _) => 6
    case Rereading(_) => 6
    case Starting(_, _) => 5
    case UndoLooking(_) => 4
    case UndoDropping(_, _) => 3
    case Clearing(_, todo, _) => 4 + |todo|
    case Stopping(_, _) => 3
    case Dropping(_, _) => 2
    case Removing(_, _) => 1
    case _ => 0
  }

  /** The answer that takes a bound call on towards removing its volume, and leaves the mappings. */
  function Onwards(task: Task): Answer {
    match task
    case ReadingBack(_, _) => Works
    case Rereading(_) => Works
    case UndoLooking(_) => Works
    case Removing(_, _) => LetGo
    case _ => Fails
  }

  lemma OnwardsDeleting(a: Array, task: Task, fcmap: MapId, vol: Name)
    requires Bound(task, vol) && (task.Stopping? || task.Dropping?) && vol in a.volumes
    ensures
      var (b, next) := Step(a, task, Onwards(task), fcmap);
      b == a && Bound(next, vol) && StepsLeft(next) < StepsLeft(task)
  {
  }

  lemma OnwardsMaking(a: Array, task: Task, fcmap: MapId, vol: Name)
    requires Bound(task, vol) && (task.ReadingBack? || task.Mapping?) && vol in a.volumes
    ensures
      var (b, next) := Step(a, task, Onwards(task), fcmap);
      b == a && Bound(next, vol) && StepsLeft(next) < StepsLeft(task)
  {
  }

  lemma OnwardsStarting(a: Array, task: Task, fcmap: MapId, vol: Name)
    requires Bound(task, vol) && (task.Rereading? || task.Starting?) && vol in a.volumes
    ensures
      var (b, next) := Step(a, task, Onwards(task), fcmap);
      b == a && Bound(next, vol) && StepsLeft(next) < StepsLeft(task)
  {
  }

  lemma OnwardsUndoing(a: Array, task: Task, fcmap: MapId, vol: Name)
    requires Bound(task, vol) && (task.UndoLooking? || task.UndoDropping?) && vol in a.volumes
    ensures
      var (b, next) := Step(a, task, Onwards(task), fcmap);
      b == a && Bound(next, vol) && StepsLeft(next) < StepsLeft(task)
  {
  }

  lemma OnwardsClearing(a: Array, task: Task, fcmap: MapId, vol: Name)
    requires task.Clearing? && task.vol == vol && (task.todo != {} ==> fcmap in task.todo)
    ensures
      var (b, next) := Step(a, task, Fails, fcmap);
      b == a && Bound(next, vol) && StepsLeft(next) < StepsLeft(task)
  {
    if task.todo != {} {
      assert |task.todo - {fcmap}| == |task.todo| - 1;
    }
  }

  /** A bound call can remove its volume, the mappings staying, and no step of it intrudes. */
  lemma {:induction false} BoundCanRemove(s: State, id: nat, vol: Name) returns (events: seq<Event>)
    requires id in s.tasks && Bound(s.tasks[id], vol) && vol in s.arr.volumes
    ensures NoneIntrudes(s, events) && Exec(s, events).arr == WithoutVolume(s.arr, vol)
    decreases StepsLeft(s.tasks[id])
  {
    var task := s.tasks[id];
    var fcmap: MapId := 0;
    if task.Clearing? && task.todo != {} {
      fcmap :| fcmap in task.todo;
    }
    var e := Act(id, Onwards(task), fcmap);
    var next := Apply(s, e);
    assert !Intrudes(s, e);
    if task.Clearing? {
      OnwardsClearing(s.arr, task, fcmap, vol);
    } else if task.Stopping? || task.Dropping? {
      OnwardsDeleting(s.arr, task, fcmap, vol);
    } else if task.ReadingBack? || task.Mapping? {
      OnwardsMaking(s.arr, task, fcmap, vol);
    } else if task.Rereading? || task.Starting? {
      OnwardsStarting(s.arr, task, fcmap, vol);
    } else if !task.Removing? {
      OnwardsUndoing(s.arr, task, fcmap, vol);
    }
    if task.Removing? {
      events := [e];
      assert events[1..] == [];
      assert Exec(s, events) == Exec(next, []);
    } else {
      assert next.arr == s.arr;
      var rest := BoundCanRemove(next, id, vol);
      events := [e] + rest;
      assert events[1..] == rest;
    }
  }

  /** While every snapshot still has its volume: some snapshot can lose it without any further
      intrusion exactly when some call is bound to the volume of a snapshot. */
  lemma EndangeredExactlyWhenExposed(s: State)
    requires Protected(s.arr)
    ensures Endangered(s) <==> Exposed(s)
  {
    if Exposed(s) {
      var vol :| Snapped(s.arr, vol) && SomeoneBound(s, vol);
      var id :| id in s.tasks && Bound(s.tasks[id], vol);
      SnappedIsBusy(s.arr, vol);
      var events := BoundCanRemove(s, id, vol);
      var m :| m in s.arr.fcmaps && s.arr.fcmaps[m].noCopy && s.arr.fcmaps[m].source == vol;
      var b := Exec(s, events).arr;
      assert m in b.fcmaps && b.fcmaps[m].source !in b.volumes;
    } else {
      forall events | NoneIntrudes(s, events)
        ensures Protected(Exec(s, events).arr)
      {
        NeverExposedExactly(s, events);
      }
    }
  }

  function Begin(a: Array): State {
    State(a, map[])
  }

  /** Deletions and snapshots may interleave in any way: as long as no step of a run intrudes, every
      snapshot has its volume; and the next step leaves what is under way able to lose one, without
      any further intrusion, if and only if that step intrudes. */
  lemma SourcesSurviveExactly(a: Array, events: seq<Event>, e: Event)
    requires Protected(a) && NoneIntrudes(Begin(a), events)
    ensures
      var s := Exec(Begin(a), events);
      && Protected(s.arr) && Protected(Apply(s, e).arr)
      && (Endangered(Apply(s, e)) <==> Intrudes(s, e))
  {
    var s := Exec(Begin(a), events);
    NeverExposedExactly(Begin(a), events);
    ApplyKeepsProtected(s, e);
    EndangeredExactlyWhenExposed(Apply(s, e));
    if Intrudes(s, e) {
      IntrudingExposes(s, e);
    } else if Exposed(Apply(s, e)) {
      ExposedByIntruding(s, e);
    }
  }

  // ---------- a snapshot that comes too late ----------

  lemma {:induction false} ExecConcat(s: State, first: seq<Event>, second: seq<Event>)
    ensures Exec(s, first + second) == Exec(Exec(s, first), second)
    decreases |first|
  {
    if first == [] {
      assert first + second == second;
    } else {
      ExecConcat(Apply(s, first[0]), first[1..], second);
      assert (first + second)[1..] == first[1..] + second;
    }
  }

  lemma OneMore(s: State, events: seq<Event>, reached: State, e: Event, next: State) returns (longer: seq<Event>)
    requires Exec(s, events) == reached && Apply(reached, e) == next
    ensures longer == events + [e] && Exec(s, longer) == next
  {
    longer := events + [e];
    ExecConcat(s, events, [e]);
    assert Exec(reached, [e]) == Exec(next, []);
  }

  function Both(a: Array, first: Task, second: Task): State {
    State(a, map[1 := first, 2 := second])
  }

  lemma Started(a: Array, vol: Name, target: Name) returns (events: seq<Event>)
    ensures Exec(Begin(a), events) == Both(a, Finding(vol), NameLookup(vol, target))
    ensures NoneIntrudes(Begin(a), events)
  {
    var one := State(a, map[1 := Finding(vol)]);
    events := Then(Begin(a), [], Begin(a), Delete(1, vol), one);
    events := Then(Begin(a), events, one, Snapshot(2, vol, target), Both(a, Finding(vol), NameLookup(vol, target)));
  }

  /** A step more that does not intrude. */
  lemma Then(s: State, events: seq<Event>, reached: State, e: Event, next: State) returns (longer: seq<Event>)
    requires Exec(s, events) == reached && NoneIntrudes(s, events)
    requires Apply(reached, e) == next && !Intrudes(reached, e)
    ensures Exec(s, longer) == next && NoneIntrudes(s, longer)
  {
    longer := OneMore(s, events, reached, e, next);
    NoneIntrudesSnoc(s, events, e);
  }

  lemma {:induction false} NoneIntrudesSnoc(s: State, events: seq<Event>, e: Event)
    ensures NoneIntrudes(s, events + [e]) <==> NoneIntrudes(s, events) && !Intrudes(Exec(s, events), e)
    decreases |events|
  {
    if events == [] {
      assert [e][1..] == [] && [] + [e] == [e];
      assert NoneIntrudes(s, [e]) <==> !Intrudes(s, e) && NoneIntrudes(Apply(s, e), []);
    } else {
      assert (events + [e])[1..] == events[1..] + [e];
      NoneIntrudesSnoc(Apply(s, events[0]), events[1..], e);
    }
  }

  lemma FirstActs(a: Array, events: seq<Event>, now: Array, task: Task, second: Task, after: Array, next: Task)
    returns (longer: seq<Event>)
    requires Exec(Begin(a), events) == Both(now, task, second) && NoneIntrudes(Begin(a), events)
    requires !task.Mapping? && Step(now, task, Works, 0) == (after, next)
    ensures Exec(Begin(a), longer) == Both(after, next, second) && NoneIntrudes(Begin(a), longer)
  {
    longer := Then(Begin(a), events, Both(now, task, second), Act(1, Works, 0), Both(after, next, second));
  }

  lemma SecondActs(a: Array, events: seq<Event>, now: Array, first: Task, task: Task, after: Array, next: Task)
    returns (longer: seq<Event>)
    requires Exec(Begin(a), events) == Both(now, first, task) && NoneIntrudes(Begin(a), events)
    requires !task.Mapping? && Step(now, task, Works, 0) == (after, next)
    ensures Exec(Begin(a), longer) == Both(after, first, next) && NoneIntrudes(Begin(a), longer)
  {
    longer := Then(Begin(a), events, Both(now, first, task), Act(2, Works, 0), Both(after, first, next));
  }

  /** The deletion of a volume that nothing touches passes its check. */
  lemma DeletionChecks(a: Array, vol: Name, target: Name) returns (events: seq<Event>)
    requires vol in a.volumes && Touching(a, vol) == {}
    ensures Exec(Begin(a), events) == Both(a, Removing(vol, false), NameLookup(vol, target))
    ensures NoneIntrudes(Begin(a), events)
  {
    var look := NameLookup(vol, target);
    assert AsTarget(a, vol) == {} && AsSource(a, vol) == {};
    events := Started(a, vol, target);
    events := FirstActs(a, events, a, Finding(vol), look, a, ReadingOnto(vol));
    events := FirstActs(a, events, a, ReadingOnto(vol), look, a, Checking(vol, None));
    events := FirstActs(a, events, a, Checking(vol, None), look, a, Clearing(vol, {}, None));
    events := FirstActs(a, events, a, Clearing(vol, {}, None), look, a, Removing(vol, false));
  }

  /** And a snapshot of it gets as far as its mapping. */
  lemma SnapshotFollows(a: Array, vol: Name, target: Name) returns (events: seq<Event>)
    requires vol in a.volumes && Touching(a, vol) == {} && target !in a.volumes
    ensures
      var made := WithVolume(a, target, ConvertSize(a.volumes[vol].capacity));
      Exec(Begin(a), events) == Both(made, Removing(vol, false), Mapping(vol, target))
    ensures NoneIntrudes(Begin(a), events)
  {
    var capacity := ConvertSize(a.volumes[vol].capacity);
    var made := WithVolume(a, target, capacity);
    var gone := Removing(vol, false);
    events := DeletionChecks(a, vol, target);
    events := SecondActs(a, events, a, gone, NameLookup(vol, target), a, ReadingSource(vol, target));
    events := SecondActs(a, events, a, gone, ReadingSource(vol, target), a, Making(vol, target, capacity));
    events := SecondActs(a, events, a, gone, Making(vol, target, capacity), made, ReadingBack(vol, target));
    events := SecondActs(a, events, made, gone, ReadingBack(vol, target), made, Mapping(vol, target));
  }

  lemma MapsAndGoes(made: Array, vol: Name, target: Name)
    requires vol in made.volumes && Mappable(made, vol, target)
    ensures
      var mapped := WithMap(made, vol, target, true, IdleOrCopied);
      && Apply(Both(made, Removing(vol, false), Mapping(vol, target)), Act(2, Works, 0))
         == Both(mapped, Removing(vol, false), Rereading(target))
      && Apply(Both(mapped, Removing(vol, false), Rereading(target)), Act(1, LetGo, 0))
         == Both(WithoutVolume(mapped, vol), Ended, Rereading(target))
  {
  }

  /** Whatever volume nothing touches can be deleted under a snapshot that is just being taken of it:
      the mapping comes between the check and the removal, and both calls go through. */
  lemma LateSnapshotLosesItsVolume(a: Array, vol: Name, target: Name) returns (events: seq<Event>)
    requires Integrity(a) && vol in a.volumes && Touching(a, vol) == {} && target !in a.volumes
    ensures
      var b := Exec(Begin(a), events).arr;
      && Protected(a) && vol !in b.volumes && target in b.volumes
      && a.nextMap in b.fcmaps && b.fcmaps[a.nextMap] == FcMap(vol, target, true, IdleOrCopied)
      && !Protected(b)
  {
    var made := WithVolume(a, target, ConvertSize(a.volumes[vol].capacity));
    MadeHasIntegrity(a, target, made.volumes[target].capacity);
    assert AsTarget(made, target) == {};
    MapsAndGoes(made, vol, target);
    var mapped := WithMap(made, vol, target, true, IdleOrCopied);
    var racing := Both(made, Removing(vol, false), Mapping(vol, target));
    var late := Both(mapped, Removing(vol, false), Rereading(target));
    events := SnapshotFollows(a, vol, target);
    events := OneMore(Begin(a), events, racing, Act(2, Works, 0), late);
    events := OneMore(Begin(a), events, late, Act(1, LetGo, 0), Apply(late, Act(1, LetGo, 0)));
  }
}
