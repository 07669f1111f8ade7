/** The calls of the deletion machine when nothing disturbs them: they do what the mediator's deletion
    and snapshot are described to do, with the same failures. */
module DeletionSolo {
  import opened DeletionMachine
  import opened Options
  import opened SvcArray
  import opened SvcLaws
  import opened SvcMediator

  // ---------- one deletion ----------

  function Alone(a: Array, task: Task): State {
    State(a, map[1 := task])
  }

  lemma AloneActs(s: State, events: seq<Event>, a: Array, task: Task, answer: Answer, fcmap: MapId)
    returns (longer: seq<Event>)
    requires Exec(s, events) == Alone(a, task)
    ensures
      var (b, next) := Step(a, task, answer, fcmap);
      Exec(s, longer) == Alone(b, next)
  {
    var (b, next) := Step(a, task, answer, fcmap);
    assert map[1 := task][1 := next] == map[1 := next];
    longer := OneMore(s, events, Alone(a, task), Act(1, answer, fcmap), Alone(b, next));
  }

  function Try(fails: bool): Answer {
    if fails then Fails else Works
  }

  /** Removing the mappings one by one removes those whose removal does not fail. */
  lemma {:induction false} ClearsAlone(
    s: State, events: seq<Event>, a: Array, vol: Name, onto: Option<MapId>, ids: set<MapId>, todo: set<MapId>,
    failing: set<MapId>)
    returns (longer: seq<Event>)
    requires todo <= ids && forall id | id in ids :: id in a.fcmaps && a.fcmaps[id].status != Copying
    requires Exec(s, events) == Alone(WithoutMaps(a, ids - todo - failing), Clearing(vol, todo, onto))
    ensures Exec(s, longer) == Alone(WithoutMaps(a, ids - failing), Clearing(vol, {}, onto))
    decreases |todo|
  {
    if todo == {} {
      assert ids - todo - failing == ids - failing;
      longer := events;
    } else {
      var id :| id in todo;
      var now := WithoutMaps(a, ids - todo - failing);
      var rest := todo - {id};
      assert rest + {id} == todo;
      OneMoreRemoved(a, ids, rest, id, failing);
      assert id in now.fcmaps && now.fcmaps[id].status != Copying;
      longer := AloneActs(s, events, now, Clearing(vol, todo, onto), Try(id in failing), id);
      longer := ClearsAlone(s, longer, a, vol, onto, ids, rest, failing);
    }
  }

  lemma DropsAlone(s: State, events: seq<Event>, a: Array, b: Array, vol: Name, id: MapId, r: Removals)
    returns (longer: seq<Event>)
    requires id in b.fcmaps && Exec(s, events) == Alone(b, Stopping(vol, Some(id)))
    requires Cleared(a, vol, r)
             == if id !in r.failing then WithoutMaps(b, {id})
                else if r.stops then WithStatus(b, id, Stopped)
                else b
    ensures Exec(s, longer) == Alone(Cleared(a, vol, r), Removing(vol, false))
  {
    var stopped := if r.stops then WithStatus(b, id, Stopped) else b;
    longer := AloneActs(s, events, b, Stopping(vol, Some(id)), Try(!r.stops), 0);
    assert WithoutMaps(stopped, {id}).fcmaps == WithoutMaps(b, {id}).fcmaps;
    longer := AloneActs(s, longer, stopped, Dropping(vol, Some(id)), Try(id in r.failing), 0);
  }

  lemma RemovesAlone(s: State, events: seq<Event>, a: Array, vol: Name, r: Removals) returns (longer: seq<Event>)
    requires vol in a.volumes && Exec(s, events) == Alone(a, Removing(vol, false))
    ensures Exec(s, longer) == Alone(if VolumeGoes(a, vol, r) then WithoutVolume(a, vol) else a, Ended)
  {
    var answer := if r.volumeFails then Fails else if r.letsGo then LetGo else Works;
    longer := AloneActs(s, events, a, Removing(vol, false), answer, 0);
  }

  lemma ChecksAlone(a: Array, vol: Name) returns (events: seq<Event>)
    requires vol in a.volumes
    ensures
      var onto := Single(AsTarget(a, vol));
      Exec(Alone(a, Finding(vol)), events)
      == Alone(a, if SourceBusy(a, vol) then Ended else Clearing(vol, AsSource(a, vol), onto))
  {
    var s := Alone(a, Finding(vol));
    var onto := Single(AsTarget(a, vol));
    events := AloneActs(s, [], a, Finding(vol), Works, 0);
    events := AloneActs(s, events, a, ReadingOnto(vol), Works, 0);
    events := AloneActs(s, events, a, Checking(vol, onto), Works, 0);
  }

  /** A deletion that no other call disturbs does what the mediator's deletion is described to do, with
      the same failures. */
  lemma SoloDeletionIsDeleteResult(a: Array, vol: Name, r: Removals) returns (events: seq<Event>)
    requires Integrity(a) && vol in a.volumes && !r.unseen
    ensures Exec(Alone(a, Finding(vol)), events) == Alone(DeleteResult(a, vol, false, r).0, Ended)
  {
    var s := Alone(a, Finding(vol));
    var ids, onto := AsSource(a, vol), Single(AsTarget(a, vol));
    events := ChecksAlone(a, vol);
    if !SourceBusy(a, vol) {
      AtMostOneTarget(a, vol);
      assert WithoutMaps(a, ids - ids - r.failing).fcmaps == a.fcmaps;
      events := ClearsAlone(s, events, a, vol, onto, ids, ids, r.failing);
      var b := WithoutMaps(a, ids - r.failing);
      events := AloneActs(s, events, b, Clearing(vol, {}, onto), Works, 0);
      if onto.Some? {
        ClearedInTwo(a, vol, r, onto.value);
        events := DropsAlone(s, events, a, b, vol, onto.value, r);
      } else {
        NothingOntoIt(a, vol, r);
      }
      events := RemovesAlone(s, events, Cleared(a, vol, r), vol, r);
    }
  }

  // ---------- one snapshot ----------

  lemma UndropsAlone(s: State, events: seq<Event>, a: Array, target: Name, failing: set<MapId>)
    returns (longer: seq<Event>)
    requires target in a.volumes && Exec(s, events) == Alone(a, UndoLooking(target))
    ensures Exec(s, longer) == Alone(WithoutUnstarted(a, target, failing), Removing(target, true))
  {
    var found := Single(Touching(a, target));
    longer := AloneActs(s, events, a, UndoLooking(target), Works, 0);
    longer := AloneActs(s, longer, a, UndoDropping(target, found), Try(found.Some? && found.value in failing), 0);
    if found.Some? {
      assert Touching(a, target) == {found.value};
    }
  }

  /** One try at undoing, the last one or not. */
  lemma TriesAlone(s: State, events: seq<Event>, a: Array, target: Name, r: Removals, last: bool)
    returns (longer: seq<Event>)
    requires Exec(s, events) == Alone(a, UndoLooking(target))
    ensures
      var (b, done) := UndoTry(a, target, r);
      Exec(s, longer) == Alone(b, if done || last then Ended else UndoLooking(target))
  {
    if r.unseen || target !in a.volumes {
      longer := AloneActs(s, events, a, UndoLooking(target), Try(r.unseen), 0);
    } else {
      var cleared := WithoutUnstarted(a, target, r.failing);
      longer := UndropsAlone(s, events, a, target, r.failing);
      assert cleared.volumes == a.volumes;
      longer := GoesAlone(s, longer, cleared, target, r, last);
    }
  }

  lemma GoesAlone(s: State, events: seq<Event>, a: Array, target: Name, r: Removals, last: bool)
    returns (longer: seq<Event>)
    requires target in a.volumes && Exec(s, events) == Alone(a, Removing(target, true))
    ensures Exec(s, longer) == if VolumeGoes(a, target, r) then Alone(WithoutVolume(a, target), Ended)
                               else Alone(a, if last then Ended else UndoLooking(target))
  {
    var answer := if VolumeGoes(a, target, r) then LetGo else if last then GivesUp else Fails;
    longer := AloneActs(s, events, a, Removing(target, true), answer, 0);
  }

  lemma {:induction false} UndoesAlone(s: State, events: seq<Event>, a: Array, target: Name, tries: seq<Removals>)
    returns (longer: seq<Event>)
    requires tries != [] && Exec(s, events) == Alone(a, UndoLooking(target))
    ensures Exec(s, longer) == Alone(Undo(a, target, tries), Ended)
    decreases |tries|
  {
    var (b, done) := UndoTry(a, target, tries[0]);
    longer := TriesAlone(s, events, a, target, tries[0], |tries| == 1);
    if !done && |tries| > 1 {
      longer := UndoesAlone(s, longer, b, target, tries[1..]);
    }
  }

  lemma MakesAlone(a: Array, source: Name, target: Name, lookup: Answer, making: Answer) returns (events: seq<Event>)
    requires source in a.volumes && lookup != Refuses && (target in a.volumes ==> lookup == Fails)
    ensures
      var capacity := ConvertSize(a.volumes[source].capacity);
      var (b, next) := Step(a, Making(source, target, capacity), making, 0);
      Exec(Alone(a, NameLookup(source, target)), events) == Alone(b, next)
  {
    var s := Alone(a, NameLookup(source, target));
    events := AloneActs(s, [], a, NameLookup(source, target), lookup, 0);
    events := AloneActs(s, events, a, ReadingSource(source, target), Works, 0);
    events := AloneActs(s, events, a, Making(source, target, ConvertSize(a.volumes[source].capacity)), making, 0);
  }

  lemma StartsAlone(
    s: State, events: seq<Event>, a: Array, target: Name, id: MapId, fault: CopyFault, tries: seq<Removals>)
    returns (longer: seq<Event>)
    requires Touching(a, target) == {id} && id in a.fcmaps && fault != MkFcMapFails && tries != []
    requires Exec(s, events) == Alone(a, Rereading(target))
    ensures Exec(s, longer)
            == Alone(match fault
                     case NoFault => WithStatus(a, id, Copying)
                     case StartFails => Undo(a, target, tries)
                     case _ => a, Ended)
  {
    longer := AloneActs(s, events, a, Rereading(target), Try(fault == RereadFails), 0);
    if fault != RereadFails {
      var found := Single({id});
      assert found == Some(id) by {
        assert id in {found.value};
      }
      longer := AloneActs(s, longer, a, Starting(target, found), Try(fault == StartFails), 0);
      if fault == StartFails {
        longer := UndoesAlone(s, longer, a, target, tries);
      }
    }
  }

  lemma CopiesAlone(
    s: State, events: seq<Event>, a: Array, source: Name, target: Name, fault: CopyFault, tries: seq<Removals>)
    returns (longer: seq<Event>)
    requires Numbered(a) && source in a.volumes && target in a.volumes && source != target && Touching(a, target) == {}
    requires tries != [] && Exec(s, events) == Alone(a, Mapping(source, target))
    ensures
      var copied := CopyAttempt(a, source, target, true, fault);
      Exec(s, longer)
      == Alone(if fault == MkFcMapFails || fault == StartFails then Undo(copied, target, tries) else copied, Ended)
  {
    var mapped := WithMap(a, source, target, true, IdleOrCopied);
    assert AsTarget(a, target) == {};
    longer := AloneActs(s, events, a, Mapping(source, target), Try(fault == MkFcMapFails), 0);
    if fault == MkFcMapFails {
      longer := UndoesAlone(s, longer, a, target, tries);
    } else {
      OneNewMap(a, source, target, true, IdleOrCopied);
      longer := StartsAlone(s, longer, mapped, target, a.nextMap, fault, tries);
      assert WithStatus(mapped, a.nextMap, Copying) == WithMap(a, source, target, true, Copying);
    }
  }

  /** A snapshot call that no other call disturbs does what the mediator's is described to do, with the
      same failures, under a name that is free or whose lookup is lost. */
  lemma SoloSnapshotIsSnapshotResult(a: Array, source: Name, target: Name, fault: SnapshotFault, tries: seq<Removals>)
    returns (events: seq<Event>)
    requires Integrity(a) && source in a.volumes && |tries| == ROLLBACK_TRIES
    ensures Exec(Alone(a, NameLookup(source, target)), events)
            == Alone(SnapshotResult(a, source, target, fault, tries).0, Ended)
  {
    var s := Alone(a, NameLookup(source, target));
    var lookup := if target in a.volumes then Fails else Works;
    var capacity := ConvertSize(a.volumes[source].capacity);
    if fault.MkVolumeFails? {
      events := MakesAlone(a, source, target, lookup, if fault.rejected then Refuses else Fails);
      if !fault.rejected {
        events := UndoesAlone(s, events, a, target, tries);
        if target !in a.volumes {
          assert Undo(a, target, tries) == a;
        }
      }
    } else {
      events := MakesAlone(a, source, target, lookup, Works);
      if target !in a.volumes {
        var made := WithVolume(a, target, capacity);
        MadeHasIntegrity(a, target, capacity);
        events := AloneActs(s, events, made, ReadingBack(source, target), Try(fault == ReadBackFails), 0);
        if fault.AtCopy? {
          events := CopiesAlone(s, events, made, source, target, fault.fault, tries);
        }
      }
    }
  }
}
