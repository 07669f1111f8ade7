/** The connection pool under any number of threads: every access to the queue, and every block
    under the pool's lock, is one atomic step. A thread follows the discipline of get_mediator:
    each connection it gets it puts back once. */
module PoolMachine {

  type Connection = nat

  /** Where a thread is inside get and put. */
  datatype Task =
    | Idle
    | Popping                         // channel.get(block=False)
    | Checking(item: Connection)      // item.is_active()
    | Retiring(item: Connection)      // current_size -= 1 for a dead item
    | Closing(item: Connection)       // item.disconnect() of a dead item
    | Sizing                          // is_full, and current_size += 1 if not
    | Creating                        // create()
    | Failing                         // current_size -= 1 after a failed create
    | Waiting                         // channel.get(block, timeout)
    | Holding(item: Connection)       // between get and put
    | Returning(item: Connection)     // discard = current_size > max_size
    | Enqueuing(item: Connection)     // channel.put(item, block=False)
    | Discarding(item: Connection)    // item.disconnect() instead of queueing

  /** next numbers the connections made so far; lost holds the items whose activity check raised,
      which get neither returns nor counts off; closed lists the disconnected ones, in order. */
  datatype Pool = Pool(
    queue: seq<Connection>, size: int, max: nat, tasks: map<nat, Task>, next: Connection, lost: set<Connection>,
    closed: seq<Connection>)

  /** The outcome of a step's call: it answers yes or works, answers no or fails, or raises. */
  datatype Answer = Good | Bad | Raises

  datatype Event = Join(id: nat) | Act(id: nat, answer: Answer)

  /** Queue(maxsize): a size of zero means no bound. */
  predicate Full(p: Pool) {
    p.max > 0 && |p.queue| >= p.max
  }

  function Step(p: Pool, id: nat, answer: Answer): Pool
    requires id in p.tasks
  {
    match p.tasks[id]
    case Idle => Move(p, id, Popping)
    case Popping =>
      if p.queue == [] then Move(p, id, Sizing)
      else Move(p, id, Checking(p.queue[0])).(queue := p.queue[1..])
    case Checking(item) =>
      (match answer
       case Good => Move(p, id, Holding(item))
       case Bad => Move(p, id, Retiring(item))
       case Raises => Move(p, id, Idle).(lost := p.lost + {item}))
    case Retiring(item) => Move(p, id, Closing(item)).(size := p.size - 1)
    case Closing(item) => Move(p, id, Popping).(closed := p.closed + [item])
    case Sizing =>
      if p.size >= p.max then Move(p, id, Waiting) else Move(p, id, Creating).(size := p.size + 1)
    case Creating =>
      if answer == Good then Move(p, id, Holding(p.next)).(next := p.next + 1) else Move(p, id, Failing)
    case Failing => Move(p, id, Idle).(size := p.size - 1)
    case Waiting =>
      if p.queue != [] then Move(p, id, Holding(p.queue[0])).(queue := p.queue[1..])
      else if answer == Good then p
      else Move(p, id, Idle)
    case Holding(item) => Move(p, id, Returning(item))
    case Returning(item) =>
      if p.size > p.max then Move(p, id, Discarding(item)).(size := p.size - 1) else Move(p, id, Enqueuing(item))
    case Enqueuing(item) =>
      if Full(p) then Move(p, id, Discarding(item)) else Move(p, id, Idle).(queue := p.queue + [item])
    case Discarding(item) => Move(p, id, Idle).(closed := p.closed + [item])
  }

  function Move(p: Pool, id: nat, task: Task): Pool {
    p.(tasks := p.tasks[id := task])
  }

  function Apply(p: Pool, e: Event): Pool {
    match e
    case Join(id) => if id in p.tasks then p else Move(p, id, Idle)
    case Act(id, answer) => if id in p.tasks then Step(p, id, answer) else p
  }

  function Exec(p: Pool, events: seq<Event>): Pool
    decreases |events|
  {
    if events == [] then p else Exec(Apply(p, events[0]), events[1..])
  }

  function Fresh(max: nat): Pool {
    Pool([], 0, max, map[], 0, {}, [])
  }

  // ---------- conservation ----------

  /** The thread accounts for one unit of current_size. */
  predicate Counts(task: Task) {
    task.Checking? || task.Retiring? || task.Creating? || task.Failing? || task.Holding?
    || task.Returning? || task.Enqueuing?
  }

  /** The thread has a connection in its hands that is not disconnected yet. */
  predicate Has(task: Task) {
    task.Checking? || task.Retiring? || task.Closing? || task.Holding? || task.Returning? || task.Enqueuing?
    || task.Discarding?
  }

  function Counted(p: Pool): set<nat> {
    set id | id in p.tasks && Counts(p.tasks[id])
  }

  /** current_size is the number of items queued, items held, checked or being created, and items
      lost to a raising activity check; it stays within 0 and max_size. */
  ghost predicate Conserved(p: Pool) {
    && p.size == |p.queue| + |Counted(p)| + |p.lost|
    && 0 <= p.size <= p.max
  }

  /** No connection is in two places, and none is disconnected twice. */
  ghost predicate OnePlace(p: Pool) {
    && Distinct(p.queue) && Distinct(p.closed)
    && (forall a, b | a in p.tasks && b in p.tasks && a != b && Has(p.tasks[a]) && Has(p.tasks[b]) ::
          p.tasks[a].item != p.tasks[b].item)
    && (forall a | a in p.tasks && Has(p.tasks[a]) ::
          && p.tasks[a].item !in p.queue && p.tasks[a].item !in p.lost && p.tasks[a].item !in p.closed
          && p.tasks[a].item < p.next)
    && (forall c | c in p.queue :: c < p.next && c !in p.lost && c !in p.closed)
    && (forall c | c in p.lost :: c < p.next && c !in p.closed)
    && (forall c | c in p.closed :: c < p.next)
  }

  ghost predicate Distinct(items: seq<Connection>) {
    forall i, j | 0 <= i < j < |items| :: items[i] != items[j]
  }

  /** Every connection ever made is queued, in some thread's hands, disconnected or lost. */
  ghost predicate SomePlace(p: Pool) {
    forall c: Connection | c < p.next :: c in p.queue || c in p.closed || c in p.lost || InHands(p, c)
  }

  ghost predicate InHands(p: Pool, c: Connection) {
    exists a :: a in p.tasks && Has(p.tasks[a]) && p.tasks[a].item == c
  }

  ghost predicate NobodyDiscards(p: Pool) {
    forall a | a in p.tasks :: !p.tasks[a].Discarding?
  }

  ghost predicate Inv(p: Pool) {
    Conserved(p) && OnePlace(p) && SomePlace(p) && NobodyDiscards(p)
  }

  lemma MoveCounted(p: Pool, id: nat, task: Task)
    ensures Counted(Move(p, id, task)) == Counted(p) - {id} + (if Counts(task) then {id} else {})
  {
    var p' := Move(p, id, task);
    assert p'.tasks.Keys == p.tasks.Keys + {id};
    forall x ensures x in Counted(p') <==> x in Counted(p) - {id} + (if Counts(task) then {id} else {}) {
      if x != id && x in p.tasks {
        assert p'.tasks[x] == p.tasks[x];
      }
    }
  }

  /** How a move changes the number of counted threads. */
  lemma MoveCount(p: Pool, id: nat, task: Task)
    ensures |Counted(Move(p, id, task))|
            == |Counted(p)| - (if id in p.tasks && Counts(p.tasks[id]) then 1 else 0) + (if Counts(task) then 1 else 0)
  {
    MoveCounted(p, id, task);
    ReplaceOne(Counted(p), id, Counts(task));
  }

  lemma ReplaceOne(s: set<nat>, id: nat, put: bool)
    ensures |s - {id} + (if put then {id} else {})| == |s| - (if id in s then 1 else 0) + (if put then 1 else 0)
  {
    if id in s {
      assert s == (s - {id}) + {id};
    } else {
      assert s == s - {id};
    }
  }

  /** A thread about to queue its item finds room: it is itself one of the counted. */
  lemma EnqueuingFindsRoom(p: Pool, id: nat)
    requires Conserved(p) && id in p.tasks && (p.tasks[id].Returning? || p.tasks[id].Enqueuing?)
    ensures p.size <= p.max && !Full(p)
  {
    assert id in Counted(p);
    assert |Counted(p)| >= 1;
  }

  function Unit(task: Task): nat {
    if Counts(task) then 1 else 0
  }

  /** A step moves units between the counter, the queue, the lost items and its own thread, and
      makes or drops none. */
  lemma StepBalances(p: Pool, id: nat, answer: Answer)
    requires id in p.tasks && !p.tasks[id].Discarding?
    requires p.tasks[id].Checking? ==> p.tasks[id].item !in p.lost
    requires p.tasks[id].Returning? || p.tasks[id].Enqueuing? ==> p.size <= p.max && !Full(p)
    ensures var p' := Step(p, id, answer);
            && id in p'.tasks && p'.tasks == p.tasks[id := p'.tasks[id]] && p'.max == p.max
            && p'.size - |p'.queue| - |p'.lost| - Unit(p'.tasks[id]) == p.size - |p.queue| - |p.lost| - Unit(p.tasks[id])
            && (p'.size <= p.size || p'.size == p.size + 1 <= p.max)
            && (p'.size >= p.size || (p'.size == p.size - 1 && Counts(p.tasks[id])))
            && !p'.tasks[id].Discarding?
  {
  }

  lemma StepConserves(p: Pool, id: nat, answer: Answer)
    requires Inv(p) && id in p.tasks
    ensures Conserved(Step(p, id, answer)) && NobodyDiscards(Step(p, id, answer))
  {
    if p.tasks[id].Returning? || p.tasks[id].Enqueuing? {
      EnqueuingFindsRoom(p, id);
    }
    StepBalances(p, id, answer);
    Rebalanced(p, Step(p, id, answer), id);
  }

  lemma Rebalanced(p: Pool, p': Pool, id: nat)
    requires Conserved(p) && NobodyDiscards(p) && id in p.tasks && id in p'.tasks
    requires p'.tasks == p.tasks[id := p'.tasks[id]] && p'.max == p.max
    requires p'.size - |p'.queue| - |p'.lost| - Unit(p'.tasks[id]) == p.size - |p.queue| - |p.lost| - Unit(p.tasks[id])
    requires p'.size <= p.size || p'.size == p.size + 1 <= p.max
    requires p'.size >= p.size || (p'.size == p.size - 1 && Counts(p.tasks[id]))
    requires !p'.tasks[id].Discarding?
    ensures Conserved(p') && NobodyDiscards(p')
  {
    var moved := Move(p, id, p'.tasks[id]);
    MoveCount(p, id, p'.tasks[id]);
    assert p'.tasks == moved.tasks;
    assert Counted(p') == Counted(moved);
    if Counts(p.tasks[id]) {
      assert id in Counted(p);
      assert |Counted(p)| >= 1;
    }
  }

  /** The thread keeps its item or lets it go. */
  lemma KeepingIsFine(p: Pool, id: nat, task: Task)
    requires OnePlace(p)
    requires Has(task) ==> id in p.tasks && Has(p.tasks[id]) && p.tasks[id].item == task.item
    ensures OnePlace(Move(p, id, task))
  {
  }

  lemma TakingHeadIsFine(p: Pool, id: nat, task: Task)
    requires OnePlace(p) && p.queue != [] && id in p.tasks
    requires Has(task) && task.item == p.queue[0]
    ensures OnePlace(Move(p, id, task).(queue := p.queue[1..]))
  {
    var rest := p.queue[1..];
    assert p.queue[0] in p.queue;
    assert forall c | c in rest :: c in p.queue && c != p.queue[0];
  }

  lemma AppendingIsFine(p: Pool, id: nat, task: Task)
    requires OnePlace(p) && id in p.tasks && Has(p.tasks[id]) && !Has(task)
    ensures OnePlace(Move(p, id, task).(queue := p.queue + [p.tasks[id].item]))
  {
    var item := p.tasks[id].item;
    assert forall c | c in p.queue + [item] :: c in p.queue || c == item;
  }

  lemma LosingIsFine(p: Pool, id: nat, task: Task)
    requires OnePlace(p) && id in p.tasks && Has(p.tasks[id]) && !Has(task)
    ensures OnePlace(Move(p, id, task).(lost := p.lost + {p.tasks[id].item}))
  {
  }

  lemma MakingIsFine(p: Pool, id: nat)
    requires OnePlace(p) && id in p.tasks
    ensures OnePlace(Move(p, id, Holding(p.next)).(next := p.next + 1))
  {
  }

  lemma ClosingIsFine(p: Pool, id: nat, task: Task)
    requires OnePlace(p) && id in p.tasks && Has(p.tasks[id]) && !Has(task)
    ensures OnePlace(Move(p, id, task).(closed := p.closed + [p.tasks[id].item]))
  {
    var item := p.tasks[id].item;
    assert forall c | c in p.closed + [item] :: c in p.closed || c == item;
  }

  /** Counters do not matter for where connections are. */
  lemma SizeDoesNotMatter(p: Pool, size: int)
    requires OnePlace(p)
    ensures OnePlace(p.(size := size))
  {
  }

  lemma StepKeepsOnePlace(p: Pool, id: nat, answer: Answer)
    requires OnePlace(p) && id in p.tasks
    ensures OnePlace(Step(p, id, answer))
  {
    var p' := Step(p, id, answer);
    match p.tasks[id]
    case Popping | Waiting =>
      if p.queue != [] {
        TakingHeadIsFine(p, id, p'.tasks[id]);
      } else {
        KeepingIsFine(p, id, p'.tasks[id]);
      }
    case Checking(item) =>
      if answer == Raises {
        LosingIsFine(p, id, Idle);
      } else {
        KeepingIsFine(p, id, p'.tasks[id]);
      }
    case Creating =>
      if answer == Good {
        MakingIsFine(p, id);
      } else {
        KeepingIsFine(p, id, Failing);
      }
    case Enqueuing(item) =>
      if Full(p) {
        KeepingIsFine(p, id, Discarding(item));
      } else {
        AppendingIsFine(p, id, Idle);
      }
    case Closing(item) => ClosingIsFine(p, id, Popping);
    case Discarding(item) => ClosingIsFine(p, id, Idle);
    case _ =>
      KeepingIsFine(p, id, p'.tasks[id]);
      SizeDoesNotMatter(Move(p, id, p'.tasks[id]), p'.size);
  }

  /** A step moves a connection from one place to the next, or makes one into its own hands. */
  lemma StepKeepsSomePlace(p: Pool, id: nat, answer: Answer)
    requires SomePlace(p) && id in p.tasks
    ensures SomePlace(Step(p, id, answer))
  {
    var p' := Step(p, id, answer);
    forall c: Connection | c < p'.next
      ensures c in p'.queue || c in p'.closed || c in p'.lost || InHands(p', c)
    {
      StepKeepsPlace(p, id, answer, c);
    }
  }

  lemma StepKeepsPlace(p: Pool, id: nat, answer: Answer, c: Connection)
    requires id in p.tasks && c < Step(p, id, answer).next
    requires c < p.next ==> c in p.queue || c in p.closed || c in p.lost || InHands(p, c)
    ensures
      var p' := Step(p, id, answer);
      c in p'.queue || c in p'.closed || c in p'.lost || InHands(p', c)
  {
    var p' := Step(p, id, answer);
    StepShape(p, id, answer);
    if Has(p'.tasks[id]) && p'.tasks[id].item == c {
      assert InHands(p', c);
    } else if c in p.queue {
      QueuedStays(p, id, answer, c);
    } else if c !in p.closed && c !in p.lost {
      if Has(p.tasks[id]) && p.tasks[id].item == c {
        LettingGo(p, id, answer);
      } else {
        OthersHold(p, p', id, c);
      }
    }
  }

  lemma StepShape(p: Pool, id: nat, answer: Answer)
    requires id in p.tasks
    ensures
      var p' := Step(p, id, answer);
      && id in p'.tasks && p'.tasks == p.tasks[id := p'.tasks[id]]
      && p.closed <= p'.closed && p.lost <= p'.lost
      && (p'.next == p.next || (p'.next == p.next + 1 && Has(p'.tasks[id]) && p'.tasks[id].item == p.next))
  {
  }

  lemma OthersHold(p: Pool, p': Pool, id: nat, c: Connection)
    requires InHands(p, c) && id in p.tasks && !(Has(p.tasks[id]) && p.tasks[id].item == c)
    requires id in p'.tasks && p'.tasks == p.tasks[id := p'.tasks[id]]
    ensures InHands(p', c)
  {
    var a :| a in p.tasks && Has(p.tasks[a]) && p.tasks[a].item == c;
    assert a != id && p'.tasks[a] == p.tasks[a];
  }

  /** A thread that no longer has its connection has queued it, disconnected it or lost it. */
  lemma LettingGo(p: Pool, id: nat, answer: Answer)
    requires id in p.tasks && Has(p.tasks[id])
    ensures
      var (p', c) := (Step(p, id, answer), p.tasks[id].item);
      (Has(p'.tasks[id]) && p'.tasks[id].item == c) || c in p'.queue || c in p'.closed || c in p'.lost
  {
  }

  lemma QueuedStays(p: Pool, id: nat, answer: Answer, c: Connection)
    requires id in p.tasks && c in p.queue
    ensures
      var p' := Step(p, id, answer);
      c in p'.queue || (Has(p'.tasks[id]) && p'.tasks[id].item == c)
  {
    assert p.queue[0] == c || c in p.queue[1..];
  }

  lemma ApplyKeepsInv(p: Pool, e: Event)
    requires Inv(p)
    ensures Inv(Apply(p, e))
  {
    if e.Act? && e.id in p.tasks {
      StepConserves(p, e.id, e.answer);
      StepKeepsOnePlace(p, e.id, e.answer);
      StepKeepsSomePlace(p, e.id, e.answer);
    } else if e.Join? && e.id !in p.tasks {
      MoveCount(p, e.id, Idle);
      KeepingIsFine(p, e.id, Idle);
      JoinKeepsSomePlace(p, e.id);
    }
  }

  lemma JoinKeepsSomePlace(p: Pool, id: nat)
    requires SomePlace(p) && id !in p.tasks
    ensures SomePlace(Move(p, id, Idle))
  {
    var p' := Move(p, id, Idle);
    forall c: Connection | c < p.next && InHands(p, c)
      ensures InHands(p', c)
    {
      var a :| a in p.tasks && Has(p.tasks[a]) && p.tasks[a].item == c;
      assert p'.tasks[a] == p.tasks[a];
    }
  }

  lemma {:induction false} ExecKeepsInv(p: Pool, events: seq<Event>)
    requires Inv(p)
    ensures Inv(Exec(p, events))
    decreases |events|
  {
    if events != [] {
      ApplyKeepsInv(p, events[0]);
      ExecKeepsInv(Apply(p, events[0]), events[1..]);
    }
  }

  /** Over every interleaving: the counter is exactly what it should count and stays in
      0..max_size, every connection ever made is in exactly one place and disconnected at most once,
      and no thread ever takes put's discard or Full branch. */
  lemma PoolIsConserved(max: nat, events: seq<Event>)
    ensures
      var p := Exec(Fresh(max), events);
      && p.max == max
      && p.size == |p.queue| + |Counted(p)| + |p.lost| && 0 <= p.size <= max
      && OnePlace(p) && SomePlace(p) && NobodyDiscards(p)
  {
    assert Counted(Fresh(max)) == {};
    ExecKeepsInv(Fresh(max), events);
    ExecKeepsMax(Fresh(max), events);
  }

  lemma {:induction false} ExecKeepsMax(p: Pool, events: seq<Event>)
    ensures Exec(p, events).max == p.max
    decreases |events|
  {
    if events != [] {
      ExecKeepsMax(Apply(p, events[0]), events[1..]);
    }
  }

  // ---------- who gets what ----------

  /** The queue changes only at its ends: a thread takes the first connection, to check it or, if it
      was waiting, to hold it unchecked; or a thread puts the connection it has behind the others. */
  lemma QueueIsFifo(p: Pool, e: Event)
    ensures
      var p' := Apply(p, e);
      || p'.queue == p.queue
      || (e.Act? && e.id in p.tasks && p.queue != [] && p'.queue == p.queue[1..]
          && ((p.tasks[e.id] == Popping && p'.tasks[e.id] == Checking(p.queue[0]))
              || (p.tasks[e.id] == Waiting && p'.tasks[e.id] == Holding(p.queue[0]))))
      || (e.Act? && e.id in p.tasks && Has(p.tasks[e.id]) && !Full(p)
          && p'.queue == p.queue + [p.tasks[e.id].item] && p'.tasks[e.id] == Idle)
  {
  }

  /** A thread comes to hold a connection in three ways, each of which leads to it: its check answers
      yes, its create works, or it was waiting and one is queued. A waiter's connection is not checked. */
  lemma HoldingComesFrom(p: Pool, id: nat, answer: Answer, item: Connection)
    requires id in p.tasks && p.tasks[id] != Holding(item)
    ensures Apply(p, Act(id, answer)).tasks[id] == Holding(item) <==>
            || (p.tasks[id] == Checking(item) && answer == Good)
            || (p.tasks[id] == Creating && answer == Good && item == p.next)
            || (p.tasks[id] == Waiting && p.queue != [] && item == p.queue[0])
  {
  }

  /** A thread that waits on the empty queue goes on waiting, or gives up when its time is over. */
  lemma WaiterWaitsOrGivesUp(p: Pool, id: nat, answer: Answer)
    requires id in p.tasks && p.tasks[id] == Waiting && p.queue == []
    ensures Apply(p, Act(id, answer)) == p.(tasks := p.tasks[id := if answer == Good then Waiting else Idle])
  {
    assert p.tasks[id := Waiting] == p.tasks;
  }

  /** A thread that has found no connection creates one below the limit, and waits at it. */
  lemma CreatesBelowTheLimit(p: Pool, id: nat, answer: Answer)
    requires id in p.tasks && p.tasks[id] == Sizing
    ensures
      var p' := Apply(p, Act(id, answer));
      && p'.tasks[id] == (if p.size < p.max then Creating else Waiting)
      && p'.size == p.size + if p.size < p.max then 1 else 0
  {
  }

  // ---------- what may go wrong in a run ----------

  datatype Cause = DeadFound | CheckRaised | CreateFailed

  function CauseOf(p: Pool, e: Event): set<Cause> {
    if !e.Act? || e.id !in p.tasks then {}
    else if p.tasks[e.id].Checking? then
      if e.answer == Bad then {DeadFound} else if e.answer == Raises then {CheckRaised} else {}
    else if p.tasks[e.id].Creating? && e.answer != Good then {CreateFailed}
    else {}
  }

  function Causes(p: Pool, events: seq<Event>): set<Cause>
    decreases |events|
  {
    if events == [] then {} else CauseOf(p, events[0]) + Causes(Apply(p, events[0]), events[1..])
  }

  /** The counter equals queue plus users exactly while no activity check has raised. */
  lemma LeakExactlyWhenCheckRaises(max: nat, events: seq<Event>)
    ensures
      var p := Exec(Fresh(max), events);
      p.size == |p.queue| + |Counted(p)| <==> CheckRaised !in Causes(Fresh(max), events)
  {
    PoolIsConserved(max, events);
    LostExactlyByRaising(Fresh(max), events);
  }

  lemma {:induction false} LostExactlyByRaising(p: Pool, events: seq<Event>)
    ensures Exec(p, events).lost == {} <==> p.lost == {} && CheckRaised !in Causes(p, events)
    decreases |events|
  {
    if events != [] {
      LostExactlyByRaising(Apply(p, events[0]), events[1..]);
    }
  }

  // ---------- when a waiter is left behind ----------

  /** The thread is on its way through get or put, or has a connection to put back. */
  predicate Busy(task: Task) {
    !task.Idle? && !task.Waiting?
  }

  ghost predicate SomeoneBusy(p: Pool) {
    exists a :: a in p.tasks && Busy(p.tasks[a])
  }

  ghost predicate SomeoneWaits(p: Pool) {
    exists a :: a in p.tasks && p.tasks[a].Waiting?
  }

  /** A thread waits on the empty queue, and no thread is under way that could put anything there. */
  ghost predicate Stranded(p: Pool) {
    SomeoneWaits(p) && p.queue == [] && !SomeoneBusy(p)
  }

  /** A thread waits on the empty queue, and the counter counts nobody. */
  ghost predicate Unprovided(p: Pool) {
    SomeoneWaits(p) && p.queue == [] && Counted(p) == {}
  }

  ghost predicate Attended(p: Pool) {
    && p.lost == {} && !Stranded(p)
    && forall a | a in p.tasks :: !p.tasks[a].Failing?
  }

  /** A full counter that has lost nothing counts a thread or a queued item. */
  lemma FullMeansSomeoneHolds(p: Pool)
    requires Conserved(p) && p.max > 0 && p.size >= p.max && p.lost == {} && p.queue == []
    ensures Counted(p) != {} && SomeoneBusy(p)
  {
    assert |Counted(p)| > 0;
    var a :| a in Counted(p);
    assert Busy(p.tasks[a]);
  }

  lemma ApplyAttends(p: Pool, e: Event)
    requires Conserved(p) && NobodyDiscards(p) && p.max > 0 && Attended(p)
    requires CauseOf(p, e) <= {DeadFound}
    ensures Attended(Apply(p, e)) && Apply(p, e).max == p.max
  {
    var p' := Apply(p, e);
    if e.Act? && e.id in p.tasks {
      ActAttends(p, e.id, e.answer);
    } else if e.Join? && e.id !in p.tasks {
      OthersStay(p, p', e.id);
    }
  }

  /** Threads other than the moving one keep their part in who waits and who is busy. */
  lemma OthersStay(p: Pool, p': Pool, id: nat)
    requires id in p'.tasks && p'.tasks == p.tasks[id := p'.tasks[id]]
    ensures SomeoneWaits(p') ==> SomeoneWaits(p) || p'.tasks[id].Waiting?
    ensures SomeoneBusy(p) ==> SomeoneBusy(p') || (id in p.tasks && Busy(p.tasks[id]))
    ensures Busy(p'.tasks[id]) ==> SomeoneBusy(p')
  {
    if a :| a in p'.tasks && p'.tasks[a].Waiting? {
      assert a == id || (a in p.tasks && p.tasks[a].Waiting?);
    }
    if a :| a in p.tasks && Busy(p.tasks[a]) {
      assert a == id || (a in p'.tasks && Busy(p'.tasks[a]));
    }
  }

  lemma ActAttends(p: Pool, id: nat, answer: Answer)
    requires Conserved(p) && NobodyDiscards(p) && p.max > 0 && Attended(p) && id in p.tasks
    requires CauseOf(p, Act(id, answer)) <= {DeadFound}
    ensures Attended(Step(p, id, answer)) && Step(p, id, answer).max == p.max
  {
    if p.tasks[id].Returning? || p.tasks[id].Enqueuing? {
      EnqueuingFindsRoom(p, id);
    }
    StepShape(p, id, answer);
    ComesToRest(p, id, answer);
    RestIsAttended(p, Step(p, id, answer), id);
  }

  lemma RestIsAttended(p: Pool, p': Pool, id: nat)
    requires Conserved(p) && p.max > 0 && Attended(p)
    requires id in p.tasks && id in p'.tasks && p'.tasks == p.tasks[id := p'.tasks[id]]
    requires p'.lost == p.lost && !p'.tasks[id].Failing?
    requires Busy(p.tasks[id]) ==>
      Busy(p'.tasks[id]) || p'.queue != [] || (p.tasks[id].Sizing? && p'.tasks[id].Waiting? && p.size >= p.max)
    requires p'.queue == [] && p.queue != [] ==> Busy(p'.tasks[id])
    requires p'.tasks[id].Waiting? ==> p.tasks[id].Waiting? || p.tasks[id].Sizing?
    ensures Attended(p')
  {
    OthersStay(p, p', id);
    if p.tasks[id].Sizing? && p'.tasks[id].Waiting? && p.size >= p.max && p.queue == [] {
      FullMeansSomeoneHolds(p);
      var a :| a in Counted(p);
      assert a != id && Busy(p'.tasks[a]);
    }
  }

  /** A thread stays busy until it has queued its connection or waits for one, if nothing raises. */
  lemma ComesToRest(p: Pool, id: nat, answer: Answer)
    requires id in p.tasks && !p.tasks[id].Failing? && !p.tasks[id].Discarding?
    requires CauseOf(p, Act(id, answer)) <= {DeadFound}
    requires p.tasks[id].Enqueuing? ==> !Full(p)
    ensures
      var p' := Step(p, id, answer);
      && p'.lost == p.lost && !p'.tasks[id].Failing?
      && (Busy(p.tasks[id]) ==>
            Busy(p'.tasks[id]) || p'.queue != [] || (p.tasks[id].Sizing? && p'.tasks[id].Waiting? && p.size >= p.max))
      && (p'.queue == [] && p.queue != [] ==> Busy(p'.tasks[id]))
      && (p'.tasks[id].Waiting? ==> p.tasks[id].Waiting? || p.tasks[id].Sizing?)
  {
  }

  lemma {:induction false} ExecAttends(p: Pool, events: seq<Event>)
    requires Inv(p) && p.max > 0 && Attended(p) && Causes(p, events) <= {DeadFound}
    ensures Attended(Exec(p, events))
    decreases |events|
  {
    if events != [] {
      var next := Apply(p, events[0]);
      ApplyKeepsInv(p, events[0]);
      ApplyAttends(p, events[0]);
      ExecAttends(next, events[1..]);
    }
  }

  /** No run strands anybody, as long as its causes of trouble stay within the given ones. */
  ghost predicate NeverStrands(allowed: set<Cause>) {
    forall max, events | max > 0 && Causes(Fresh(max), events) <= allowed :: !Stranded(Exec(Fresh(max), events))
  }

  /** Waiters are never stranded exactly when neither a raising activity check nor a failing create
      is allowed for: dead connections alone strand nobody, and either of the others alone can. */
  lemma StrandingNeedsRaiseOrFailedCreate(allowed: set<Cause>)
    ensures NeverStrands(allowed) <==> CheckRaised !in allowed && CreateFailed !in allowed
  {
    if CheckRaised !in allowed && CreateFailed !in allowed {
      forall max, events | max > 0 && Causes(Fresh(max), events) <= allowed
        ensures !Stranded(Exec(Fresh(max), events))
      {
        assert Counted(Fresh(max)) == {};
        assert forall cause | cause in allowed :: cause == DeadFound;
        ExecAttends(Fresh(max), events);
      }
    }
    if CheckRaised in allowed {
      var events := RaisingStrands();
      assert Stranded(Exec(Fresh(1), events)) by {
        assert Exec(Fresh(1), events).tasks[2].Waiting?;
      }
    }
    if CreateFailed in allowed {
      var events := WaiterCanBeStranded();
      assert Stranded(Exec(Fresh(1), events)) by {
        assert Exec(Fresh(1), events).tasks[2].Waiting?;
      }
    }
  }

  // ---------- when the counter still answers for a waiter ----------

  ghost predicate Provided(p: Pool) {
    && p.lost == {}
    && (forall a | a in p.tasks :: !p.tasks[a].Failing? && !p.tasks[a].Retiring? && !p.tasks[a].Closing?)
    && (SomeoneWaits(p) ==> p.size == p.max)
  }

  lemma ApplyProvides(p: Pool, e: Event)
    requires Conserved(p) && NobodyDiscards(p) && Provided(p) && CauseOf(p, e) == {}
    ensures Provided(Apply(p, e))
  {
    var p' := Apply(p, e);
    if e.Act? && e.id in p.tasks {
      if p.tasks[e.id].Returning? || p.tasks[e.id].Enqueuing? {
        EnqueuingFindsRoom(p, e.id);
      }
      OthersStay(p, p', e.id);
    } else if e.Join? && e.id !in p.tasks {
      OthersStay(p, p', e.id);
    }
  }

  lemma {:induction false} ExecProvides(p: Pool, events: seq<Event>)
    requires Inv(p) && Provided(p) && Causes(p, events) == {}
    ensures Provided(Exec(p, events))
    decreases |events|
  {
    if events != [] {
      ApplyKeepsInv(p, events[0]);
      ApplyProvides(p, events[0]);
      ExecProvides(Apply(p, events[0]), events[1..]);
    }
  }

  ghost predicate AlwaysProvides(allowed: set<Cause>) {
    forall max, events | max > 0 && Causes(Fresh(max), events) <= allowed :: !Unprovided(Exec(Fresh(max), events))
  }

  /** While every check answers yes and every create works, a thread that waits on the empty queue
      has some counted thread to wait for; each of the three causes of trouble alone breaks this,
      a dead connection for the moment until its finder has made a new one. */
  lemma WaitersAreProvidedExactlyWithoutTrouble(allowed: set<Cause>)
    ensures AlwaysProvides(allowed) <==> allowed == {}
  {
    if allowed == {} {
      forall max, events | max > 0 && Causes(Fresh(max), events) <= allowed
        ensures !Unprovided(Exec(Fresh(max), events))
      {
        var p := Exec(Fresh(max), events);
        assert Counted(Fresh(max)) == {};
        ExecKeepsInv(Fresh(max), events);
        ExecKeepsMax(Fresh(max), events);
        ExecProvides(Fresh(max), events);
        if SomeoneWaits(p) && p.queue == [] {
          FullMeansSomeoneHolds(p);
        }
      }
    } else {
      var cause :| cause in allowed;
      var events := UnprovidedBy(cause);
      assert Unprovided(Exec(Fresh(1), events));
    }
  }

  lemma UnprovidedBy(cause: Cause) returns (events: seq<Event>)
    ensures Causes(Fresh(1), events) == {cause} && Unprovided(Exec(Fresh(1), events))
  {
    match cause {
      case DeadFound => events := DeadFoundUnprovides();
      case CheckRaised => events := RaisingStrands();
      case CreateFailed => events := WaiterCanBeStranded();
    }
    var p := Exec(Fresh(1), events);
    assert p.tasks[2].Waiting?;
    assert Counted(p) == {};
  }

  // ---------- the runs that show it, with one connection allowed ----------

  lemma {:induction false} OneMore(p: Pool, events: seq<Event>, e: Event)
    ensures Exec(p, events + [e]) == Apply(Exec(p, events), e)
    ensures Causes(p, events + [e]) == Causes(p, events) + CauseOf(Exec(p, events), e)
    decreases |events|
  {
    if events == [] {
      assert [e][1..] == [] && [] + [e] == [e];
      assert Exec(p, [e]) == Exec(Apply(p, e), []);
      assert Causes(p, [e]) == CauseOf(p, e) + Causes(Apply(p, e), []);
    } else {
      OneMore(Apply(p, events[0]), events[1..], e);
      assert (events + [e])[1..] == events[1..] + [e];
    }
  }

  function Small(queue: seq<Connection>, size: int, first: Task, second: Task, next: Connection): Pool {
    Pool(queue, size, 1, map[1 := first, 2 := second], next, {}, [])
  }

  /** The run leads a new pool of one connection here, and met with these causes of trouble. */
  ghost predicate LeadsTo(events: seq<Event>, p: Pool, causes: set<Cause>) {
    Exec(Fresh(1), events) == p && Causes(Fresh(1), events) == causes
  }

  lemma Then(events: seq<Event>, p: Pool, e: Event, p': Pool) returns (longer: seq<Event>)
    requires LeadsTo(events, p, {}) && Apply(p, e) == p'
    ensures LeadsTo(longer, p', CauseOf(p, e))
  {
    longer := events + [e];
    OneMore(Fresh(1), events, e);
  }

  lemma BothJoin() returns (events: seq<Event>)
    ensures LeadsTo(events, Small([], 0, Idle, Idle, 0), {})
  {
    var joined := Move(Fresh(1), 1, Idle);
    events := Then([], Fresh(1), Join(1), joined);
    events := Then(events, joined, Join(2), Small([], 0, Idle, Idle, 0));
  }

  lemma FirstCreates() returns (events: seq<Event>)
    ensures LeadsTo(events, Small([], 1, Creating, Idle, 0), {})
  {
    events := BothJoin();
    events := Then(events, Small([], 0, Idle, Idle, 0), Act(1, Good), Small([], 0, Popping, Idle, 0));
    events := Then(events, Small([], 0, Popping, Idle, 0), Act(1, Good), Small([], 0, Sizing, Idle, 0));
    events := Then(events, Small([], 0, Sizing, Idle, 0), Act(1, Good), Small([], 1, Creating, Idle, 0));
  }

  /** One thread is creating the only connection, the other waits for it. */
  lemma CreatingAndWaiting() returns (events: seq<Event>)
    ensures LeadsTo(events, Small([], 1, Creating, Waiting, 0), {})
  {
    events := FirstCreates();
    events := Then(events, Small([], 1, Creating, Idle, 0), Act(2, Good), Small([], 1, Creating, Popping, 0));
    events := Then(events, Small([], 1, Creating, Popping, 0), Act(2, Good), Small([], 1, Creating, Sizing, 0));
    events := Then(events, Small([], 1, Creating, Sizing, 0), Act(2, Good), Small([], 1, Creating, Waiting, 0));
  }

  lemma FirstPuts() returns (events: seq<Event>)
    ensures LeadsTo(events, Small([], 1, Enqueuing(0), Waiting, 1), {})
  {
    events := CreatingAndWaiting();
    events := Then(events, Small([], 1, Creating, Waiting, 0), Act(1, Good), Small([], 1, Holding(0), Waiting, 1));
    events := Then(events, Small([], 1, Holding(0), Waiting, 1), Act(1, Good), Small([], 1, Returning(0), Waiting, 1));
    events := Then(events, Small([], 1, Returning(0), Waiting, 1), Act(1, Good), Small([], 1, Enqueuing(0), Waiting, 1));
  }

  /** The first thread has put its connection back and taken it again before the waiter. */
  lemma CheckingAndWaiting() returns (events: seq<Event>)
    ensures LeadsTo(events, Small([], 1, Checking(0), Waiting, 1), {})
  {
    events := FirstPuts();
    events := Then(events, Small([], 1, Enqueuing(0), Waiting, 1), Act(1, Good), Small([0], 1, Idle, Waiting, 1));
    events := Then(events, Small([0], 1, Idle, Waiting, 1), Act(1, Good), Small([0], 1, Popping, Waiting, 1));
    events := Then(events, Small([0], 1, Popping, Waiting, 1), Act(1, Good), Small([], 1, Checking(0), Waiting, 1));
  }

  /** With one connection allowed, a thread can be left waiting on an empty queue although the
      counter is back at zero: another thread was creating the connection when the waiter came, and
      the create failed. Nothing wakes the waiter. */
  lemma WaiterCanBeStranded() returns (events: seq<Event>)
    ensures
      var p := Exec(Fresh(1), events);
      p.tasks == map[1 := Idle, 2 := Waiting] && p.queue == [] && p.size == 0 < p.max
    ensures Causes(Fresh(1), events) == {CreateFailed}
  {
    events := CreatingAndWaiting();
    OneMore(Fresh(1), events, Act(1, Bad));
    OneMore(Fresh(1), events + [Act(1, Bad)], Act(1, Good));
    assert Exec(Fresh(1), events + [Act(1, Bad)]) == Small([], 1, Failing, Waiting, 0);
    events := events + [Act(1, Bad)] + [Act(1, Good)];
    assert Exec(Fresh(1), events) == Small([], 0, Idle, Waiting, 0);
  }

  lemma RaisingStrands() returns (events: seq<Event>)
    ensures
      var p := Exec(Fresh(1), events);
      p.tasks == map[1 := Idle, 2 := Waiting] && p.queue == [] && p.size == p.max
    ensures Causes(Fresh(1), events) == {CheckRaised}
  {
    events := CheckingAndWaiting();
    OneMore(Fresh(1), events, Act(1, Raises));
    events := events + [Act(1, Raises)];
    assert Exec(Fresh(1), events) == Small([], 1, Idle, Waiting, 1).(lost := {0});
  }

  lemma DeadFoundUnprovides() returns (events: seq<Event>)
    ensures
      var p := Exec(Fresh(1), events);
      p.tasks == map[1 := Closing(0), 2 := Waiting] && p.queue == [] && p.size == 0
    ensures Causes(Fresh(1), events) == {DeadFound}
  {
    events := CheckingAndWaiting();
    OneMore(Fresh(1), events, Act(1, Bad));
    OneMore(Fresh(1), events + [Act(1, Bad)], Act(1, Good));
    assert Exec(Fresh(1), events + [Act(1, Bad)]) == Small([], 1, Retiring(0), Waiting, 1);
    events := events + [Act(1, Bad)] + [Act(1, Good)];
    assert Exec(Fresh(1), events) == Small([], 0, Closing(0), Waiting, 1);
  }
}
