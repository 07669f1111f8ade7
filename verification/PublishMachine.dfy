/** Publishes of any number of threads, interleaved: each reads the volume's mappings, and if there
    are none picks the least free LUN of its host and asks the array for it, as separate steps. */
module PublishMachine {
  import opened HostMapping
  import opened Options

  /** A taken LUN is picked anew. How often is bounded in HostMapper; here a thread may also give up. */
  datatype Task =
    | Reading(vol: Vol, host: Host)
    | Picking(vol: Vol, host: Host)
    | Asking(vol: Vol, host: Host, lun: Lun)
    | Ended

  datatype State = State(managed: set<Vol>, slots: Slots, tasks: map<nat, Task>)

  /** A publish begins or makes one step, an unpublish removes a volume from a host, and others
      change mappings of their own. */
  datatype Event =
    | Begin(id: nat, vol: Vol, host: Host)
    | Act(id: nat, ok: bool)
    | Remove(vol: Vol, host: Host)
    | Others(theirs: Slots)

  function Step(s: State, id: nat, ok: bool): State
    requires id in s.tasks
  {
    match s.tasks[id]
    case Reading(vol, host) =>
      s.(tasks := s.tasks[id := if ok && HostsOf(s.slots, vol) == {} then Picking(vol, host) else Ended])
    case Picking(vol, host) =>
      var lun := LeastFree(UsedLuns(s.slots, host), 0);
      s.(tasks := s.tasks[id := if ok && lun.Some? then Asking(vol, host, lun.value) else Ended])
    case Asking(vol, host, lun) =>
      if Slot(host, lun) in s.slots then s.(tasks := s.tasks[id := if ok then Picking(vol, host) else Ended])
      else if ok then s.(slots := s.slots[Slot(host, lun) := vol], tasks := s.tasks[id := Ended])
      else s.(tasks := s.tasks[id := Ended])
    case Ended => s
  }

  function Removed(slots: Slots, vol: Vol, host: Host): Slots {
    map slot | slot in slots && !(slot.host == host && slots[slot] == vol) :: slots[slot]
  }

  function WithTheirs(slots: Slots, managed: set<Vol>, theirs: Slots): Slots {
    (map slot | slot in theirs && theirs[slot] !in managed :: theirs[slot]) + Managed(slots, managed)
  }

  function Apply(s: State, e: Event): State {
    match e
    case Begin(id, vol, host) =>
      if id in s.tasks || vol !in s.managed then s else s.(tasks := s.tasks[id := Reading(vol, host)])
    case Act(id, ok) => if id in s.tasks then Step(s, id, ok) else s
    case Remove(vol, host) => s.(slots := Removed(s.slots, vol, host))
    case Others(theirs) => s.(slots := WithTheirs(s.slots, s.managed, theirs))
  }

  function Exec(s: State, events: seq<Event>): State
    decreases |events|
  {
    if events == [] then s else Exec(Apply(s, events[0]), events[1..])
  }

  /** A thread that picks takes the least LUN that is free on its host, if one is. */
  lemma PickIsLeast(s: State, id: nat)
    requires id in s.tasks && s.tasks[id].Picking?
    ensures
      var (task, next) := (s.tasks[id], Step(s, id, true).tasks[id]);
      if next.Asking? then
        && next == Asking(task.vol, task.host, next.lun) && IsLeastFree(s.slots, task.host, next.lun)
      else next == Ended && AllInUse(s.slots, task.host)
  {
    InUseAtLook(s.slots, s.tasks[id].host);
  }

  /** A thread that has read goes on exactly if its volume is not mapped. */
  lemma ReadsBeforePicking(s: State, id: nat)
    requires id in s.tasks && s.tasks[id].Reading?
    ensures
      var (task, s') := (s.tasks[id], Step(s, id, true));
      && s'.slots == s.slots
      && s'.tasks[id] == if forall slot | slot in s.slots :: s.slots[slot] != task.vol
                         then Picking(task.vol, task.host) else Ended
  {
    var task := s.tasks[id];
    if slot :| slot in s.slots && s.slots[slot] == task.vol {
      assert slot in SlotsOf(s.slots, task.vol);
      assert slot.host in HostsOf(s.slots, task.vol);
    } else {
      assert HostsOf(s.slots, task.vol) == {};
    }
  }

  /** A LUN that was taken meanwhile is picked anew, and one that is still free is mapped. */
  lemma TakenLunIsPickedAnew(s: State, id: nat)
    requires id in s.tasks && s.tasks[id].Asking?
    ensures
      var (task, s') := (s.tasks[id], Step(s, id, true));
      if Slot(task.host, task.lun) in s.slots then
        s'.slots == s.slots && s'.tasks[id] == Picking(task.vol, task.host)
      else
        s'.slots == s.slots[Slot(task.host, task.lun) := task.vol] && s'.tasks[id] == Ended
  {
  }

  // ---------- what is to be kept, and what endangers it ----------

  ghost predicate OneHost(s: State) {
    forall p, q | p in s.slots && q in s.slots && s.slots[p] == s.slots[q] && s.slots[p] in s.managed ::
      p.host == q.host
  }

  /** The thread has read that its volume is not mapped, and has not mapped it yet. */
  predicate Open(s: State, id: nat) {
    id in s.tasks && (s.tasks[id].Picking? || s.tasks[id].Asking?)
  }

  /** Two publishes of one volume to different hosts are both between their read and their map. */
  ghost predicate Overlap(s: State) {
    exists a, b :: Open(s, a) && Open(s, b) && s.tasks[a].vol == s.tasks[b].vol && s.tasks[a].host != s.tasks[b].host
  }

  /** A volume whose publish is between read and map is at most on the host it is to be mapped to. */
  ghost predicate ReadsHold(s: State) {
    && (forall id | id in s.tasks && !s.tasks[id].Ended? :: s.tasks[id].vol in s.managed)
    && (forall id, p | Open(s, id) && p in s.slots && s.slots[p] == s.tasks[id].vol :: p.host == s.tasks[id].host)
  }

  ghost predicate Inv(s: State) {
    OneHost(s) && ReadsHold(s)
  }

  // ---------- without overlaps ----------

  lemma ActKeepsInv(s: State, id: nat, ok: bool)
    requires Inv(s) && !Overlap(s) && id in s.tasks
    ensures Inv(Step(s, id, ok))
  {
    var s' := Step(s, id, ok);
    var task := s.tasks[id];
    if task.Reading? && s'.tasks[id].Picking? {
      NoHostNoSlot(s.slots, task.vol);
    }
    forall i | Open(s', i) && i != id
      ensures Open(s, i) && s'.tasks[i] == s.tasks[i]
      ensures Open(s, id) && s.tasks[i].vol == task.vol ==> s.tasks[i].host == task.host
    {
    }
  }

  lemma NoHostNoSlot(slots: Slots, vol: Vol)
    requires HostsOf(slots, vol) == {}
    ensures forall slot | slot in slots :: slots[slot] != vol
  {
    forall slot | slot in slots
      ensures slots[slot] != vol
    {
      assert slot in SlotsOf(slots, vol) ==> slot.host in HostsOf(slots, vol);
    }
  }

  lemma FewerSlotsKeepInv(s: State, slots: Slots)
    requires Inv(s)
    requires forall p | p in slots && slots[p] in s.managed :: p in s.slots && s.slots[p] == slots[p]
    ensures Inv(s.(slots := slots))
  {
    var s' := s.(slots := slots);
    forall id, p | Open(s', id) && p in s'.slots && s'.slots[p] == s'.tasks[id].vol
      ensures p.host == s'.tasks[id].host
    {
      assert Open(s, id) && s.tasks[id].vol in s.managed;
    }
  }

  lemma ApplyKeepsInv(s: State, e: Event)
    requires Inv(s) && !Overlap(s)
    ensures Inv(Apply(s, e))
  {
    match e
    case Begin(id, vol, host) =>
      assert forall i | Open(Apply(s, e), i) :: Open(s, i) && Apply(s, e).tasks[i] == s.tasks[i];
    case Act(id, ok) => if id in s.tasks { ActKeepsInv(s, id, ok); }
    case Remove(vol, host) => FewerSlotsKeepInv(s, Removed(s.slots, vol, host));
    case Others(theirs) => FewerSlotsKeepInv(s, WithTheirs(s.slots, s.managed, theirs));
  }

  /** No two publishes of one volume to different hosts overlap anywhere before the end of the run. */
  ghost predicate NeverOverlaps(s: State, events: seq<Event>)
    decreases |events|
  {
    events == [] || (!Overlap(s) && NeverOverlaps(Apply(s, events[0]), events[1..]))
  }

  lemma {:induction false} ExecKeepsInv(s: State, events: seq<Event>)
    requires Inv(s) && NeverOverlaps(s, events)
    ensures Inv(Exec(s, events))
    decreases |events|
  {
    if events != [] {
      ApplyKeepsInv(s, events[0]);
      ExecKeepsInv(Apply(s, events[0]), events[1..]);
    }
  }

  function Unmapped(managed: set<Vol>): State {
    State(managed, map[], map[])
  }

  /** Over every interleaving in which no two publishes of one volume to different hosts overlap
      between read and map, every volume stays on at most one host. */
  lemma WithoutOverlapOneHost(managed: set<Vol>, events: seq<Event>)
    requires NeverOverlaps(Unmapped(managed), events)
    ensures Inv(Exec(Unmapped(managed), events))
  {
    ExecKeepsInv(Unmapped(managed), events);
  }

  // ---------- with an overlap ----------

  /** No publish begins or reads: what happens is up to those that have read already, to unpublishes
      and to others. */
  ghost predicate Quiet(s: State, events: seq<Event>)
    decreases |events|
  {
    events == []
    || (!events[0].Begin?
        && !(events[0].Act? && events[0].id in s.tasks && s.tasks[events[0].id].Reading?)
        && Quiet(Apply(s, events[0]), events[1..]))
  }

  /** The reads made so far already allow a volume to end up on two hosts. */
  ghost predicate Endangered(s: State) {
    exists events :: Quiet(s, events) && !OneHost(Exec(s, events))
  }

  lemma QuietOpensNothing(s: State, e: Event)
    requires Quiet(s, [e]) && !Overlap(s)
    ensures !Overlap(Apply(s, e))
  {
    var s' := Apply(s, e);
    forall i | Open(s', i)
      ensures Open(s, i) && s'.tasks[i].vol == s.tasks[i].vol && s'.tasks[i].host == s.tasks[i].host
    {
    }
  }

  lemma {:induction false} QuietKeepsOneHost(s: State, events: seq<Event>)
    requires Inv(s) && !Overlap(s) && Quiet(s, events)
    ensures OneHost(Exec(s, events))
    decreases |events|
  {
    if events != [] {
      ApplyKeepsInv(s, events[0]);
      assert Quiet(s, [events[0]]);
      QuietOpensNothing(s, events[0]);
      QuietKeepsOneHost(Apply(s, events[0]), events[1..]);
    }
  }

  lemma {:induction false} QuietConcat(s: State, first: seq<Event>, second: seq<Event>)
    ensures Exec(s, first + second) == Exec(Exec(s, first), second)
    ensures Quiet(s, first) && Quiet(Exec(s, first), second) ==> Quiet(s, first + second)
    decreases |first|
  {
    if first == [] {
      assert first + second == second;
    } else {
      assert (first + second)[1..] == first[1..] + second;
      QuietConcat(Apply(s, first[0]), first[1..], second);
    }
  }

  /** Whoever holds a slot can be unmapped from it, without touching another volume or host. */
  lemma SlotCanBeFreed(s: State, slot: Slot) returns (events: seq<Event>)
    ensures Quiet(s, events)
    ensures
      var s' := Exec(s, events);
      && s'.tasks == s.tasks && s'.managed == s.managed && slot !in s'.slots
      && forall p | p in s.slots && (p.host != slot.host || (slot in s.slots && s.slots[p] != s.slots[slot])) ::
           p in s'.slots && s'.slots[p] == s.slots[p]
    ensures forall p | p in Exec(s, events).slots :: p in s.slots && Exec(s, events).slots[p] == s.slots[p]
  {
    events := if slot in s.slots then [Remove(s.slots[slot], slot.host)] else [];
    if slot in s.slots {
      assert Exec(s, events) == Apply(s, events[0]);
    }
  }

  /** A thread past its read maps its volume within a few steps, if the LUN it wants is let free. */
  lemma OpenThreadMaps(s: State, id: nat) returns (events: seq<Event>)
    requires Open(s, id)
    requires forall p | p in s.slots && s.slots[p] == s.tasks[id].vol :: p.host != s.tasks[id].host
    ensures Quiet(s, events)
    ensures
      var s' := Exec(s, events);
      && s'.managed == s.managed && s'.tasks == s.tasks[id := Ended]
      && (exists lun ::
            Slot(s.tasks[id].host, lun) in s'.slots && s'.slots[Slot(s.tasks[id].host, lun)] == s.tasks[id].vol)
      && (forall p: Slot | p.host != s.tasks[id].host ::
            (p in s.slots <==> p in s'.slots) && (p in s.slots ==> s'.slots[p] == s.slots[p]))
  {
    var task := s.tasks[id];
    var lun := if task.Asking? then task.lun else 0;
    var freeing := SlotCanBeFreed(s, Slot(task.host, lun));
    var freed := Exec(s, freeing);
    var acts := if task.Asking? then [Act(id, true)] else [Act(id, true), Act(id, true)];
    FreeSlotIsTaken(freed, id, lun);
    QuietConcat(s, freeing, acts);
    events := freeing + acts;
    assert Slot(task.host, lun) in Exec(s, events).slots;
  }

  lemma FreeSlotIsTaken(s: State, id: nat, lun: Lun)
    requires Open(s, id) && Slot(s.tasks[id].host, lun) !in s.slots
    requires lun == if s.tasks[id].Asking? then s.tasks[id].lun else 0
    ensures
      var acts := if s.tasks[id].Asking? then [Act(id, true)] else [Act(id, true), Act(id, true)];
      && Quiet(s, acts)
      && Exec(s, acts) == s.(slots := s.slots[Slot(s.tasks[id].host, lun) := s.tasks[id].vol],
                             tasks := s.tasks[id := Ended])
  {
    var task := s.tasks[id];
    var act := Act(id, true);
    if task.Asking? {
      assert Exec(s, [act]) == Apply(s, act);
    } else {
      assert 0 !in UsedLuns(s.slots, task.host) by {
        assert forall p | p in s.slots && p.host == task.host && p.lun == 0 :: p == Slot(task.host, 0);
      }
      var next := Apply(s, act);
      assert next == s.(tasks := s.tasks[id := Asking(task.vol, task.host, 0)]);
      assert [act, act][1..] == [act];
      assert Exec(next, [act]) == Apply(next, act);
      assert next.tasks[id := Ended] == s.tasks[id := Ended];
    }
  }

  /** Once two publishes of one volume to different hosts overlap, both can land. */
  lemma OverlappingPublishesMapTwice(s: State, a: nat, b: nat) returns (events: seq<Event>)
    requires Inv(s) && Open(s, a) && Open(s, b)
    requires s.tasks[a].vol == s.tasks[b].vol && s.tasks[a].host != s.tasks[b].host
    ensures Quiet(s, events) && !OneHost(Exec(s, events))
  {
    assert forall p | p in s.slots :: s.slots[p] != s.tasks[a].vol;
    var first := OpenThreadMaps(s, a);
    var s1 := Exec(s, first);
    assert Open(s1, b) && s1.tasks[b] == s.tasks[b];
    assert forall p | p in s1.slots && p.host == s.tasks[b].host :: p in s.slots && s1.slots[p] == s.slots[p];
    var second := OpenThreadMaps(s1, b);
    var s2 := Exec(s1, second);
    QuietConcat(s, first, second);
    events := first + second;
    var l :| Slot(s.tasks[a].host, l) in s1.slots && s1.slots[Slot(s.tasks[a].host, l)] == s.tasks[a].vol;
    var m :| Slot(s.tasks[b].host, m) in s2.slots && s2.slots[Slot(s.tasks[b].host, m)] == s.tasks[b].vol;
    assert Slot(s.tasks[a].host, l) in s2.slots && s2.slots[Slot(s.tasks[a].host, l)] == s.tasks[a].vol;
  }

  /** While every volume is still on one host, what has been read so far allows one to end up on two
      exactly when two publishes of it to different hosts overlap between read and map. */
  lemma EndangeredExactlyByOverlap(s: State)
    requires Inv(s)
    ensures Endangered(s) <==> Overlap(s)
  {
    if Overlap(s) {
      var a, b :|
        Open(s, a) && Open(s, b) && s.tasks[a].vol == s.tasks[b].vol && s.tasks[a].host != s.tasks[b].host;
      var events := OverlappingPublishesMapTwice(s, a, b);
    } else {
      forall events | Quiet(s, events)
        ensures OneHost(Exec(s, events))
      {
        QuietKeepsOneHost(s, events);
      }
    }
  }

  /** Over every run whose earlier states are free of overlaps: every volume is on at most one host
      after it, and stays so whatever the publishes under way still do, if and only if no two of them
      overlap at its end. */
  lemma SafeExactlyWithoutOverlap(managed: set<Vol>, events: seq<Event>)
    requires NeverOverlaps(Unmapped(managed), events)
    ensures OneHost(Exec(Unmapped(managed), events))
    ensures Endangered(Exec(Unmapped(managed), events)) <==> Overlap(Exec(Unmapped(managed), events))
  {
    WithoutOverlapOneHost(managed, events);
    EndangeredExactlyByOverlap(Exec(Unmapped(managed), events));
  }

  // ---------- which publishes may run freely ----------

  ghost predicate Among(events: seq<Event>, requests: set<(Vol, Host)>) {
    forall e | e in events && e.Begin? :: (e.vol, e.host) in requests
  }

  ghost predicate TasksAmong(s: State, requests: set<(Vol, Host)>) {
    forall id | id in s.tasks && !s.tasks[id].Ended? ::
      (s.tasks[id].vol, s.tasks[id].host) in requests && s.tasks[id].vol in s.managed
  }

  /** Every managed volume is asked for on one host only. */
  ghost predicate HostsAgree(managed: set<Vol>, requests: set<(Vol, Host)>) {
    forall p, q | p in requests && q in requests && p.0 == q.0 && p.0 in managed :: p.1 == q.1
  }

  lemma {:induction false} AgreeingNeverOverlap(s: State, events: seq<Event>, requests: set<(Vol, Host)>)
    requires TasksAmong(s, requests) && Among(events, requests) && HostsAgree(s.managed, requests)
    ensures NeverOverlaps(s, events)
    decreases |events|
  {
    if events != [] {
      var next := Apply(s, events[0]);
      assert events[0] in events;
      assert TasksAmong(next, requests);
      assert forall e | e in events[1..] :: e in events;
      AgreeingNeverOverlap(next, events[1..], requests);
    }
  }

  lemma QuietBeginsNothing(s: State, events: seq<Event>)
    requires Quiet(s, events)
    ensures forall e | e in events :: !e.Begin?
    decreases |events|
  {
    if events != [] {
      QuietBeginsNothing(Apply(s, events[0]), events[1..]);
      assert forall e | e in events :: e == events[0] || e in events[1..];
    }
  }

  /** Two publishes of one volume to different hosts that have both read. */
  lemma BothRead(managed: set<Vol>, vol: Vol, host: Host, other: Host) returns (events: seq<Event>)
    requires vol in managed && host != other
    ensures Exec(Unmapped(managed), events)
            == State(managed, map[], map[1 := Picking(vol, host), 2 := Picking(vol, other)])
    ensures forall e | e in events && e.Begin? :: e.vol == vol && (e.host == host || e.host == other)
  {
    events := [Begin(1, vol, host), Begin(2, vol, other), Act(1, true), Act(2, true)];
    var s0 := Unmapped(managed);
    var s1 := Apply(s0, events[0]);
    var s2 := Apply(s1, events[1]);
    var s3 := Apply(s2, events[2]);
    assert HostsOf(map[], vol) == {};
    assert s3.tasks == map[1 := Picking(vol, host), 2 := Reading(vol, other)];
    var s4 := Apply(s3, events[3]);
    assert s4.tasks == map[1 := Picking(vol, host), 2 := Picking(vol, other)];
    var last1, last2, last3 := [events[3]], [events[2], events[3]], [events[1], events[2], events[3]];
    assert events[1..] == last3 && last3[1..] == last2 && last2[1..] == last1 && last1[1..] == [];
    assert Exec(s3, last1) == Exec(s4, []) == s4;
    assert Exec(s2, last2) == Exec(s3, last1);
    assert Exec(s1, last3) == Exec(s2, last2);
  }

  /** Publishes may interleave freely, with unpublishes and others in between, exactly when no volume
      is asked for on two hosts. */
  lemma FreeExactlyWhenHostsAgree(managed: set<Vol>, requests: set<(Vol, Host)>)
    ensures (forall events | Among(events, requests) :: OneHost(Exec(Unmapped(managed), events))) <==>
            HostsAgree(managed, requests)
  {
    if HostsAgree(managed, requests) {
      forall events | Among(events, requests)
        ensures OneHost(Exec(Unmapped(managed), events))
      {
        AgreeingNeverOverlap(Unmapped(managed), events, requests);
        WithoutOverlapOneHost(managed, events);
      }
    } else {
      var p, q :| p in requests && q in requests && p.0 == q.0 && p.0 in managed && p.1 != q.1;
      var begun := BothRead(managed, p.0, p.1, q.1);
      var s := Exec(Unmapped(managed), begun);
      var maps := OverlappingPublishesMapTwice(s, 1, 2);
      QuietConcat(Unmapped(managed), begun, maps);
      QuietBeginsNothing(s, maps);
      assert Among(begun + maps, requests) by {
        forall e: Event | e in begun + maps && e.Begin?
          ensures (e.vol, e.host) in requests
        {
          assert e in begun || e in maps;
          assert p == (p.0, p.1) && q == (p.0, q.1);
        }
      }
    }
  }
}
