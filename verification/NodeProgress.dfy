/** Progress of the node handlers over every interleaving: no handler ever waits, and each ends, with
    its lock free, after a bounded number of steps of its own, whatever the others do. */
module NodeProgress {
  import opened NodeMachine
  import opened NodeSafety
  import opened NodeSpec

  /** No handler makes more steps than this. */
  const MAX_STEPS: nat := 20

  /** How many of the events are steps of the handler itself. */
  function OwnSteps(id: nat, events: seq<Event>): nat
    decreases |events|
  {
    if events == [] then 0
    else (if events[0].Act? && events[0].id == id then 1 else 0) + OwnSteps(id, events[1..])
  }

  /** Every step of a handler that has not ended brings it nearer to its end, and no step of another
      moves it. */
  lemma ApplyDescends(s: State, e: Event, id: nat)
    requires id in s.threads
    ensures
      var s' := Apply(s, e);
      && id in s'.threads && s'.threads[id].req == s.threads[id].req
      && (if e.Act? && e.id == id then
            s.threads[id].pc == Done || Rank(s'.threads[id].pc) < Rank(s.threads[id].pc)
          else
            s'.threads[id] == s.threads[id])
      && (s.threads[id].pc == Done ==> s'.threads[id].pc == Done)
  {
    if e.Act? && e.id == id && s.threads[id].pc != Done {
      StepDescends(s.os, s.locks, s.threads[id], e.ok);
      StepKeepsRequest(s.os, s.locks, s.threads[id], e.ok);
    }
  }

  lemma StepKeepsRequest(os: Os, locks: set<VolumeId>, th: Thread, ok: bool)
    ensures Step(os, locks, th, ok).thread.req == th.req
  {
  }

  lemma {:induction false} ExecDescends(s: State, events: seq<Event>, id: nat)
    requires id in s.threads
    ensures
      var s' := Exec(s, events);
      && id in s'.threads && s'.threads[id].req == s.threads[id].req
      && (Rank(s'.threads[id].pc) + OwnSteps(id, events) <= Rank(s.threads[id].pc) || s'.threads[id].pc == Done)
    decreases |events|
  {
    if events != [] {
      ApplyDescends(s, events[0], id);
      ExecDescends(Apply(s, events[0]), events[1..], id);
      if s.threads[id].pc == Done {
        DoneStays(Apply(s, events[0]), events[1..], id);
      }
    }
  }

  lemma {:induction false} DoneStays(s: State, events: seq<Event>, id: nat)
    requires id in s.threads && s.threads[id].pc == Done
    ensures id in Exec(s, events).threads && Exec(s, events).threads[id].pc == Done
    decreases |events|
  {
    if events != [] {
      ApplyDescends(s, events[0], id);
      DoneStays(Apply(s, events[0]), events[1..], id);
    }
  }

  /** From every reachable state, and whatever other handlers do in between: a handler that makes its
      remaining steps, at most twenty, has ended; and if its volume is locked then, it is by another
      handler that is inside its section. */
  lemma HandlersEnd(os: Os, before: seq<Event>, after: seq<Event>, id: nat)
    requires id in Exec(Boot(os), before).threads
    requires OwnSteps(id, after) >= MAX_STEPS
    ensures
      var s := Exec(Boot(os), before + after);
      && id in s.threads && s.threads[id].pc == Done
      && (s.threads[id].req.volume in s.locks ==>
            exists other :: other != id && Holds(s, other) && s.threads[other].req.volume == s.threads[id].req.volume)
  {
    ExecConcat(Boot(os), before, after);
    ExecDescends(Exec(Boot(os), before), after, id);
    LockMapIsExact(os, before + after);
  }

  /** Once no new handler comes and all those there have made their steps, everybody has ended and no
      lock is left. */
  lemma LocksAreAllFreed(os: Os, before: seq<Event>, after: seq<Event>)
    requires forall id | id in Exec(Boot(os), before).threads :: OwnSteps(id, after) >= MAX_STEPS
    requires forall e | e in after && e.Spawn? :: e.id in Exec(Boot(os), before).threads
    ensures
      var s := Exec(Boot(os), before + after);
      s.locks == {} && forall id | id in s.threads :: s.threads[id].pc == Done
  {
    var s := Exec(Boot(os), before + after);
    ExecConcat(Boot(os), before, after);
    NobodyComes(Exec(Boot(os), before), after);
    forall id | id in s.threads
      ensures s.threads[id].pc == Done
    {
      HandlersEnd(os, before, after, id);
    }
    LockMapIsExact(os, before + after);
    assert forall v :: v !in s.locks;
  }

  lemma {:induction false} NobodyComes(s: State, events: seq<Event>)
    requires forall e | e in events && e.Spawn? :: e.id in s.threads
    ensures Exec(s, events).threads.Keys == s.threads.Keys
    decreases |events|
  {
    if events != [] {
      assert events[0] in events;
      assert Apply(s, events[0]).threads.Keys == s.threads.Keys;
      assert forall e | e in events[1..] :: e in events;
      NobodyComes(Apply(s, events[0]), events[1..]);
    }
  }
}
