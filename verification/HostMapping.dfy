/** Publishing volumes to hosts on SVC: reading the mappings, picking the least free LUN, mapping
    with bounded retries while other actors may take the LUN first, and unmapping. */
module HostMapping {
  import opened Faults
  import opened Options

  type Host = string
  type Vol = string
  type Lun = nat

  datatype Slot = Slot(host: Host, lun: Lun)

  /** Which volume each LUN of each host shows. */
  type Slots = map<Slot, Vol>

  const MAX_LUN: nat := 511
  const MAX_LUN_RETRIES: nat := 10

  datatype Error = MappedToMultipleHosts | LunAlreadyInUse | NoAvailableLun | MappingFailed | AlreadyUnmapped

  datatype Result = Mapped(lun: Lun) | Failed(error: Error)

  function SlotsOf(slots: Slots, vol: Vol): set<Slot> {
    set slot | slot in slots && slots[slot] == vol
  }

  function HostsOf(slots: Slots, vol: Vol): set<Host> {
    set slot | slot in SlotsOf(slots, vol) :: slot.host
  }

  function UsedLuns(slots: Slots, host: Host): set<Lun> {
    set slot | slot in slots && slot.host == host :: slot.lun
  }

  /** The part of the mappings that concerns the volumes this driver manages. */
  function Managed(slots: Slots, managed: set<Vol>): Slots {
    map slot | slot in slots && slots[slot] in managed :: slots[slot]
  }

  /** Each managed volume occupies at most one LUN, hence is mapped to at most one host. */
  ghost predicate Exclusive(slots: Slots, managed: set<Vol>) {
    forall s, t | s in slots && t in slots && slots[s] == slots[t] && slots[s] in managed :: s == t
  }

  // ---------- the least free LUN ----------

  function LeastFree(used: set<Lun>, from: Lun): (lun: Option<Lun>)
    ensures lun.Some? ==> from <= lun.value <= MAX_LUN && lun.value !in used
    ensures lun.Some? ==> forall c | from <= c < lun.value :: c in used
    ensures lun.None? ==> forall c | from <= c <= MAX_LUN :: c in used
    decreases MAX_LUN + 1 - from
  {
    if from > MAX_LUN then None
    else if from !in used then Some(from)
    else LeastFree(used, from + 1)
  }

  method FirstFreeLun(used: set<Lun>) returns (lun: Option<Lun>)
    ensures lun == LeastFree(used, 0)
    ensures lun.Some? ==> lun.value <= MAX_LUN && lun.value !in used && forall c | 0 <= c < lun.value :: c in used
    ensures lun.None? <==> forall c | 0 <= c <= MAX_LUN :: c in used
  {
    for candidate := 0 to MAX_LUN + 1
      invariant forall c | 0 <= c < candidate :: c in used
      invariant LeastFree(used, candidate) == LeastFree(used, 0)
    {
      if candidate !in used {
        return Some(candidate);
      }
    }
    return None;
  }

  function UpTo(n: nat): (luns: set<Lun>)
    ensures |luns| == n
    ensures forall c: Lun :: c in luns <==> c < n
  {
    if n == 0 then {} else UpTo(n - 1) + {n - 1}
  }

  lemma SubsetSize(a: set<Lun>, b: set<Lun>)
    requires a <= b
    ensures |a| <= |b|
  {
    assert b == a + (b - a);
  }

  /** With fewer than 512 LUNs in use, one of the 512 is free. */
  lemma FewUsedLeavesOneFree(used: set<Lun>)
    requires |used| <= MAX_LUN
    ensures exists c: Lun :: c in UpTo(MAX_LUN + 1) && c !in used
  {
    if UpTo(MAX_LUN + 1) <= used {
      SubsetSize(UpTo(MAX_LUN + 1), used);
      assert false;
    }
  }

  // ---------- publish and unpublish ----------

  /** The mappings when an attempt looks for a free LUN, and when it then asks for it. */
  datatype Attempt = Attempt(look: Slots, ask: Slots)

  /** The LUN is free at the look, and no smaller one is. */
  ghost predicate IsLeastFree(slots: Slots, host: Host, lun: Lun) {
    && lun <= MAX_LUN && Slot(host, lun) !in slots
    && forall c: Lun | c < lun :: Slot(host, c) in slots
  }

  ghost predicate AllInUse(slots: Slots, host: Host) {
    forall c: Lun | c <= MAX_LUN :: Slot(host, c) in slots
  }

  /** The LUN that was least free at the look was taken when the attempt asked for it. */
  ghost predicate Collides(attempt: Attempt, host: Host) {
    exists lun :: IsLeastFree(attempt.look, host, lun) && Slot(host, lun) in attempt.ask
  }

  /** What one attempt comes to: it adds the mapping at the LUN that was least free when it looked, or
      adds nothing and says why. */
  ghost predicate AttemptSpec(attempt: Attempt, vol: Vol, host: Host, result: Result, slots': Slots) {
    && (result.Failed? ==> slots' == attempt.ask && result.error in {LunAlreadyInUse, NoAvailableLun, MappingFailed})
    && (result == Failed(NoAvailableLun) <==> AllInUse(attempt.look, host))
    && (result == Failed(LunAlreadyInUse) <==> Collides(attempt, host))
    && (result.Mapped? ==>
          && IsLeastFree(attempt.look, host, result.lun) && Slot(host, result.lun) !in attempt.ask
          && slots' == attempt.ask[Slot(host, result.lun) := vol])
  }

  /** The mapping half of a publish, once no mapping has been read: up to ten attempts, of which all
      but the last meet a LUN that was taken since the look; the last one decides. Meanwhile others
      change mappings of their own only. */
  ghost predicate MapSpec(
    managed: set<Vol>, slots: Slots, vol: Vol, host: Host, result: Result, attempts: seq<Attempt>, slots': Slots)
  {
    && 1 <= |attempts| <= 10
    && (forall t | t in attempts ::
          Managed(t.look, managed) == Managed(slots, managed) && Managed(t.ask, managed) == Managed(slots, managed))
    && (forall k | 0 <= k < |attempts| - 1 :: Collides(attempts[k], host))
    && AttemptSpec(attempts[|attempts| - 1], vol, host, result, slots')
    && (result == Failed(LunAlreadyInUse) ==> |attempts| == 10)
  }

  /** Publishing to a host. Idempotent on the same host, refused when mapped elsewhere; otherwise
      it adds exactly one mapping of this volume, or none if it fails. */
  ghost predicate PublishSpec(
    managed: set<Vol>, slots: Slots, vol: Vol, host: Host, result: Result, attempts: seq<Attempt>, slots': Slots)
  {
    var hosts := HostsOf(slots, vol);
    if hosts == {host} then
      result.Mapped? && Slot(host, result.lun) in SlotsOf(slots, vol) && slots' == slots && attempts == []
    else if hosts != {} then
      result == Failed(MappedToMultipleHosts) && slots' == slots && attempts == []
    else MapSpec(managed, slots, vol, host, result, attempts, slots')
  }

  /** What an attempt leaves of our own mappings. */
  lemma AttemptOnManaged(managed: set<Vol>, attempt: Attempt, vol: Vol, host: Host, result: Result, slots': Slots)
    requires vol in managed && AttemptSpec(attempt, vol, host, result, slots')
    ensures Managed(slots', managed)
            == if result.Mapped? then Managed(attempt.ask, managed)[Slot(host, result.lun) := vol]
               else Managed(attempt.ask, managed)
    ensures result.Mapped? ==> Slot(host, result.lun) !in Managed(attempt.ask, managed)
  {
  }

  /** What a publish of an unmapped volume does to our own mappings: it adds one, at a LUN none of ours
      held, or none. */
  lemma MapOnManaged(
    managed: set<Vol>, slots: Slots, vol: Vol, host: Host, result: Result, attempts: seq<Attempt>, slots': Slots)
    requires vol in managed && MapSpec(managed, slots, vol, host, result, attempts, slots')
    ensures result.Mapped? ==>
              && result.lun <= MAX_LUN && Slot(host, result.lun) !in Managed(slots, managed)
              && Managed(slots', managed) == Managed(slots, managed)[Slot(host, result.lun) := vol]
    ensures result.Failed? ==> Managed(slots', managed) == Managed(slots, managed)
  {
    var last := attempts[|attempts| - 1];
    assert last in attempts;
    AttemptOnManaged(managed, last, vol, host, result, slots');
  }

  ghost predicate UnpublishSpec(slots: Slots, vol: Vol, host: Host, result: Option<Error>, slots': Slots) {
    if host in HostsOf(slots, vol) then
      && (result == None ==> slots' == slots - (set slot | slot in SlotsOf(slots, vol) && slot.host == host))
      && (result != None ==> result == Some(MappingFailed) && slots' == slots)
    else result == Some(AlreadyUnmapped) && slots' == slots
  }

  class HostMapper {
    const managed: set<Vol>
    var slots: Slots
    /** The number of mapping attempts so far. */
    var attempts: nat

    constructor (managed: set<Vol>, slots: Slots)
      ensures this.managed == managed && this.slots == slots && attempts == 0
    {
      this.managed := managed;
      this.slots := slots;
      attempts := 0;
    }

    /** Others map and unmap volumes of their own, on any LUN this driver's volumes do not hold. */
    method OthersAct()
      modifies this`slots
      ensures Managed(slots, managed) == Managed(old(slots), managed)
    {
      var others: Slots := *;
      var theirs := map slot | slot in others && others[slot] !in managed :: others[slot];
      var ours := Managed(slots, managed);
      slots := theirs + ours;
      assert forall slot | slot in ours :: slots[slot] == ours[slot];
    }

    /** The host name and LUN of every mapping of the volume, as a dictionary by host. */
    method GetVolumeMappings(vol: Vol) returns (mappings: map<Host, Lun>)
      ensures mappings.Keys == HostsOf(slots, vol)
      ensures forall host | host in mappings :: Slot(host, mappings[host]) in SlotsOf(slots, vol)
    {
      mappings := map[];
      var todo := SlotsOf(slots, vol);
      while todo != {}
        invariant todo <= SlotsOf(slots, vol)
        invariant mappings.Keys == set slot | slot in SlotsOf(slots, vol) - todo :: slot.host
        invariant forall host | host in mappings :: Slot(host, mappings[host]) in SlotsOf(slots, vol)
        decreases |todo|
      {
        var slot :| slot in todo;
        todo := todo - {slot};
        mappings := mappings[slot.host := slot.lun];
        assert SlotsOf(slots, vol) - todo == SlotsOf(slots, vol) - (todo + {slot}) + {slot};
      }
      assert SlotsOf(slots, vol) - todo == SlotsOf(slots, vol);
    }

    method GetFirstFreeLun(host: Host) returns (lun: Option<Lun>)
      ensures lun.Some? ==>
                && lun.value <= MAX_LUN && lun.value !in UsedLuns(slots, host)
                && forall c | 0 <= c < lun.value :: c in UsedLuns(slots, host)
      ensures lun.None? <==> forall c | 0 <= c <= MAX_LUN :: c in UsedLuns(slots, host)
      ensures |UsedLuns(slots, host)| <= MAX_LUN ==> lun.Some?
    {
      lun := FirstFreeLun(UsedLuns(slots, host));
      if |UsedLuns(slots, host)| <= MAX_LUN {
        FewUsedLeavesOneFree(UsedLuns(slots, host));
      }
    }

    /** Picks the least free LUN, and then asks for it; someone may have taken it in between. */
    method MapVolume(vol: Vol, host: Host, mayFail: bool) returns (result: Result, ghost attempt: Attempt)
      requires vol in managed
      modifies this
      ensures attempts == old(attempts) + 1
      ensures attempt.look == old(slots) && Managed(attempt.ask, managed) == Managed(old(slots), managed)
      ensures AttemptSpec(attempt, vol, host, result, slots)
      ensures result == Failed(MappingFailed) ==> mayFail
    {
      attempts := attempts + 1;
      attempt := Attempt(slots, slots);
      var free := GetFirstFreeLun(host);
      InUseAtLook(slots, host);
      if free.None? {
        return Failed(NoAvailableLun), attempt;
      }
      OthersAct();
      attempt := Attempt(attempt.look, slots);
      LeastIsOne(attempt.look, host, free.value);
      var slot := Slot(host, free.value);
      if slot in slots {
        return Failed(LunAlreadyInUse), attempt;
      }
      var fault := Fault(mayFail);
      if fault {
        return Failed(MappingFailed), attempt;
      }
      slots := slots[slot := vol];
      return Mapped(free.value), attempt;
    }

    method MapVolumeByInitiators(vol: Vol, host: Host, mayFail: bool)
      returns (result: Result, ghost tries: seq<Attempt>)
      requires vol in managed
      modifies this
      ensures attempts == old(attempts) + |tries|
      ensures PublishSpec(managed, old(slots), vol, host, result, tries, slots)
      ensures result == Failed(MappingFailed) ==> mayFail
    {
      tries := [];
      var mappings := GetVolumeMappings(vol);
      if |mappings| >= 1 {
        if |mappings| == 1 && host in mappings {
          OnlyKey(mappings, host);
          return Mapped(mappings[host]), [];
        }
        TwoKeys(mappings, host);
        return Failed(MappedToMultipleHosts), [];
      }
      ghost var last;
      OthersAct();
      result, last := MapVolume(vol, host, mayFail);
      tries := [last];
      if result == Failed(LunAlreadyInUse) {
        for i := 0 to MAX_LUN_RETRIES - 1
          invariant attempts == old(attempts) + |tries| && |tries| == 1 + i
          invariant result == Failed(LunAlreadyInUse) && Managed(slots, managed) == Managed(old(slots), managed)
          invariant forall t | t in tries ::
              && Managed(t.look, managed) == Managed(old(slots), managed)
              && Managed(t.ask, managed) == Managed(old(slots), managed) && Collides(t, host)
          invariant AttemptSpec(tries[i], vol, host, result, slots)
        {
          ghost var before := tries;
          OthersAct();
          result, last := MapVolume(vol, host, mayFail);
          tries := tries + [last];
          assert forall t | t in tries :: t in before || t == last;
          if result != Failed(LunAlreadyInUse) {
            return;
          }
        }
      }
    }

    method UnmapVolumeByInitiators(vol: Vol, host: Host, mayFail: bool) returns (error: Option<Error>)
      modifies this`slots
      ensures UnpublishSpec(old(slots), vol, host, error, slots)
      ensures !mayFail ==> (error == None <==> host in HostsOf(old(slots), vol))
    {
      if host !in HostsOf(slots, vol) {
        return Some(AlreadyUnmapped);
      }
      var fault := Fault(mayFail);
      if fault {
        return Some(MappingFailed);
      }
      slots := slots - (set slot | slot in SlotsOf(slots, vol) && slot.host == host);
      return None;
    }
  }

  /** The LUNs in use on a host are those of its slots. */
  lemma InUseAtLook(slots: Slots, host: Host)
    ensures forall c: Lun :: c in UsedLuns(slots, host) <==> Slot(host, c) in slots
  {
    forall c: Lun
      ensures c in UsedLuns(slots, host) <==> Slot(host, c) in slots
    {
      if c in UsedLuns(slots, host) {
        var slot :| slot in slots && slot.host == host && slot.lun == c;
        assert slot == Slot(host, c);
      }
    }
  }

  /** There is one least free LUN. */
  lemma LeastIsOne(slots: Slots, host: Host, lun: Lun)
    requires IsLeastFree(slots, host, lun)
    ensures forall other: Lun :: IsLeastFree(slots, host, other) <==> other == lun
    ensures !AllInUse(slots, host)
  {
    forall other: Lun
      ensures IsLeastFree(slots, host, other) <==> other == lun
    {
      if other < lun {
        assert Slot(host, other) in slots;
      }
    }
  }

  lemma OnlyKey(mappings: map<Host, Lun>, host: Host)
    requires |mappings| == 1 && host in mappings
    ensures mappings.Keys == {host}
  {
    assert |mappings.Keys - {host}| == 0;
  }

  lemma TwoKeys(mappings: map<Host, Lun>, host: Host)
    requires !(|mappings| == 1 && host in mappings)
    ensures mappings.Keys != {host}
  {
    assert |mappings| == |mappings.Keys|;
  }
}
