/** What serialized runs of publish and unpublish keep. */
module HostMappingLaws {
  import opened Options
  import opened HostMapping

  /** One completed call with its answer, or other actors changing mappings of their own. */
  datatype Event =
    | Publish(vol: Vol, host: Host, result: Result, attempts: seq<Attempt>, after: Slots)
    | Unpublish(vol: Vol, host: Host, error: Option<Error>, after: Slots)
    | Others(after: Slots)

  ghost predicate Happens(managed: set<Vol>, slots: Slots, event: Event) {
    match event
    case Publish(vol, host, result, attempts, after) =>
      vol in managed && PublishSpec(managed, slots, vol, host, result, attempts, after)
    case Unpublish(vol, host, error, after) =>
      vol in managed && UnpublishSpec(slots, vol, host, error, after)
    case Others(after) => Managed(after, managed) == Managed(slots, managed)
  }

  ghost predicate Run(managed: set<Vol>, slots: Slots, events: seq<Event>)
    decreases |events|
  {
    events == [] || (Happens(managed, slots, events[0]) && Run(managed, events[0].after, events[1..]))
  }

  function Final(slots: Slots, events: seq<Event>): Slots {
    if events == [] then slots else events[|events| - 1].after
  }

  // ---------- only the managed part matters ----------

  lemma SlotsOfManaged(slots: Slots, managed: set<Vol>, vol: Vol)
    requires vol in managed
    ensures SlotsOf(slots, vol) == SlotsOf(Managed(slots, managed), vol)
    ensures HostsOf(slots, vol) == HostsOf(Managed(slots, managed), vol)
  {
  }

  lemma NoHostNoSlot(slots: Slots, vol: Vol)
    requires HostsOf(slots, vol) == {}
    ensures SlotsOf(slots, vol) == {}
  {
    forall slot | slot in slots
      ensures slots[slot] != vol
    {
      assert slot in SlotsOf(slots, vol) ==> slot.host in HostsOf(slots, vol);
    }
  }

  lemma ExclusiveManaged(slots: Slots, managed: set<Vol>)
    ensures Exclusive(slots, managed) <==> Exclusive(Managed(slots, managed), managed)
  {
    var ours := Managed(slots, managed);
    assert forall s :: s in ours <==> s in slots && slots[s] in managed;
  }

  // ---------- exclusivity over every run ----------

  lemma StepKeepsExclusive(managed: set<Vol>, slots: Slots, event: Event)
    requires Exclusive(slots, managed) && Happens(managed, slots, event)
    ensures Exclusive(event.after, managed)
  {
    ExclusiveManaged(slots, managed);
    ExclusiveManaged(event.after, managed);
    if event.Publish? && HostsOf(slots, event.vol) == {} {
      MapOnManaged(managed, slots, event.vol, event.host, event.result, event.attempts, event.after);
    }
    if event.Publish? && HostsOf(slots, event.vol) == {} && event.result.Mapped? {
      NoHostNoSlot(slots, event.vol);
      SlotsOfManaged(slots, managed, event.vol);
      var ours := Managed(slots, managed);
      assert forall s | s in ours :: ours[s] != event.vol by {
        assert forall s | s in ours && ours[s] == event.vol :: s in SlotsOf(ours, event.vol);
      }
    }
  }

  /** From an unmapped start, however publishes, unpublishes and other actors follow each other,
      every managed volume sits on at most one LUN of at most one host. */
  lemma {:induction false} RunsKeepVolumesOnOneHost(managed: set<Vol>, slots: Slots, events: seq<Event>)
    requires Managed(slots, managed) == map[] || Exclusive(slots, managed)
    requires Run(managed, slots, events)
    ensures Exclusive(Final(slots, events), managed)
    ensures forall vol | vol in managed :: |HostsOf(Final(slots, events), vol)| <= 1
    decreases |events|
  {
    ExclusiveManaged(slots, managed);
    if events == [] {
      forall vol | vol in managed
        ensures |HostsOf(slots, vol)| <= 1
      {
        OneSlotOneHost(slots, managed, vol);
      }
    } else {
      StepKeepsExclusive(managed, slots, events[0]);
      RunsKeepVolumesOnOneHost(managed, events[0].after, events[1..]);
    }
  }

  lemma OneSlotOneHost(slots: Slots, managed: set<Vol>, vol: Vol)
    requires Exclusive(slots, managed) && vol in managed
    ensures |HostsOf(slots, vol)| <= 1
  {
    if HostsOf(slots, vol) != {} {
      var slot :| slot in SlotsOf(slots, vol);
      assert HostsOf(slots, vol) == {slot.host};
    }
  }

  // ---------- a published volume stays put ----------

  /** While nobody unpublishes the volume, its LUN survives any run. */
  lemma {:induction false} SlotSurvives(managed: set<Vol>, slots: Slots, events: seq<Event>, vol: Vol, slot: Slot)
    requires vol in managed && SlotsOf(slots, vol) == {slot}
    requires Run(managed, slots, events)
    requires forall e | e in events :: !(e.Unpublish? && e.vol == vol)
    ensures SlotsOf(Final(slots, events), vol) == {slot}
    decreases |events|
  {
    if events != [] {
      var after := events[0].after;
      assert events[0] in events;
      SlotsOfManaged(slots, managed, vol);
      SlotsOfManaged(after, managed, vol);
      assert slot in SlotsOf(slots, vol);
      SlotStays(managed, slots, events[0], vol, slot);
      SlotSurvives(managed, after, events[1..], vol, slot);
    }
  }

  lemma SlotStays(managed: set<Vol>, slots: Slots, event: Event, vol: Vol, slot: Slot)
    requires vol in managed && SlotsOf(slots, vol) == {slot}
    requires Happens(managed, slots, event) && !(event.Unpublish? && event.vol == vol)
    ensures SlotsOf(event.after, vol) == {slot}
  {
    SlotsOfManaged(slots, managed, vol);
    SlotsOfManaged(event.after, managed, vol);
    assert slot in SlotsOf(slots, vol) && slots[slot] == vol;
    assert slot.host in HostsOf(slots, vol);
    var ours, ours' := Managed(slots, managed), Managed(event.after, managed);
    assert forall s :: s in ours && ours[s] == vol <==> s in SlotsOf(slots, vol);
    assert forall s :: s in ours && ours[s] == vol <==> s == slot;
    if event.Unpublish? {
      var gone := set s | s in SlotsOf(slots, event.vol) && s.host == event.host;
      assert slot !in gone;
      assert event.after == slots || event.after == slots - gone;
      assert slot in event.after && slot in ours';
      assert forall s | s in ours' :: s in ours && ours'[s] == ours[s];
      assert forall s :: s in ours' && ours'[s] == vol <==> s == slot;
    } else if event.Publish? && event.vol == vol {
      assert event.after == slots;
    } else {
      if event.Publish? && HostsOf(slots, event.vol) == {} {
        MapOnManaged(managed, slots, event.vol, event.host, event.result, event.attempts, event.after);
      }
      assert forall s :: s in ours' && ours'[s] == vol <==> s == slot;
    }
  }

  /** Once published to a host, and as long as nobody unpublishes it, publishing again to that
      host answers the same LUN and changes nothing, and any other host is refused. */
  lemma RepublishAnswersTheSameLun(
    managed: set<Vol>, slots: Slots, first: Event, between: seq<Event>, again: Event)
    requires Exclusive(slots, managed)
    requires first.Publish? && first.result.Mapped? && Happens(managed, slots, first)
    requires Run(managed, first.after, between)
    requires forall e | e in between :: !(e.Unpublish? && e.vol == first.vol)
    requires again.Publish? && again.vol == first.vol
    requires Happens(managed, Final(first.after, between), again)
    ensures again.after == Final(first.after, between) && again.attempts == []
    ensures again.result == if again.host == first.host then first.result else Failed(MappedToMultipleHosts)
  {
    var slot := Slot(first.host, first.result.lun);
    StepKeepsExclusive(managed, slots, first);
    PublishedSlot(managed, slots, first);
    SlotSurvives(managed, first.after, between, first.vol, slot);
    OnlyHost(Final(first.after, between), first.vol, slot);
  }

  lemma OnlyHost(slots: Slots, vol: Vol, slot: Slot)
    requires SlotsOf(slots, vol) == {slot}
    ensures HostsOf(slots, vol) == {slot.host}
  {
    assert slot in SlotsOf(slots, vol);
  }

  lemma PublishedSlot(managed: set<Vol>, slots: Slots, event: Event)
    requires Exclusive(slots, managed)
    requires event.Publish? && event.result.Mapped? && Happens(managed, slots, event)
    ensures SlotsOf(event.after, event.vol) == {Slot(event.host, event.result.lun)}
  {
    var slot := Slot(event.host, event.result.lun);
    StepKeepsExclusive(managed, slots, event);
    SlotsOfManaged(event.after, managed, event.vol);
    if HostsOf(slots, event.vol) == {} {
      MapOnManaged(managed, slots, event.vol, event.host, event.result, event.attempts, event.after);
      assert slot in Managed(event.after, managed) && Managed(event.after, managed)[slot] == event.vol;
    }
    assert slot in SlotsOf(event.after, event.vol);
  }

  /** Publishing an unmapped volume and unpublishing it gives back our mappings as they were,
      whatever the others did in between. */
  lemma UnpublishUndoesPublish(managed: set<Vol>, slots: Slots, publish: Event, others: Event, unpublish: Event)
    requires Exclusive(slots, managed)
    requires publish.Publish? && publish.result.Mapped? && publish.attempts != []
    requires Happens(managed, slots, publish)
    requires others.Others? && Happens(managed, publish.after, others)
    requires unpublish.Unpublish? && unpublish.vol == publish.vol && unpublish.host == publish.host
    requires unpublish.error == None && Happens(managed, others.after, unpublish)
    ensures Managed(unpublish.after, managed) == Managed(slots, managed)
  {
    var slot := Slot(publish.host, publish.result.lun);
    MapOnManaged(
      managed, slots, publish.vol, publish.host, publish.result, publish.attempts, publish.after);
    PublishedSlot(managed, slots, publish);
    SlotStays(managed, publish.after, others, publish.vol, slot);
    OnlyHost(others.after, publish.vol, slot);
    assert slot in SlotsOf(others.after, publish.vol);
    assert (set s | s in SlotsOf(others.after, publish.vol) && s.host == publish.host) == {slot};
    assert Managed(unpublish.after, managed) == Managed(others.after, managed) - {slot};
  }

  // ---------- when a publish fails ----------

  /** A publish of an unmapped volume finds no LUN exactly when all 512 were in use at its last look,
      gives up on taken LUNs exactly after ten attempts that all collided, and with every command
      working and a LUN free at its last look that is still free it succeeds, with the least one. */
  lemma PublishAnswersExactly(managed: set<Vol>, slots: Slots, publish: Event)
    requires publish.Publish? && Happens(managed, slots, publish) && HostsOf(slots, publish.vol) == {}
    ensures
      var host, last := publish.host, publish.attempts[|publish.attempts| - 1];
      && (publish.result == Failed(NoAvailableLun) <==> forall c: Lun | c <= 511 :: Slot(host, c) in last.look)
      && (publish.result == Failed(LunAlreadyInUse) <==>
            |publish.attempts| == 10 && forall t | t in publish.attempts :: Collides(t, host))
      && (publish.result.Mapped? ==>
            && Slot(host, publish.result.lun) !in last.look && Slot(host, publish.result.lun) !in last.ask
            && forall c: Lun | c < publish.result.lun :: Slot(host, c) in last.look)
      && (publish.result != Failed(MappingFailed) && !AllInUse(last.look, host) && !Collides(last, host) ==>
            publish.result.Mapped?)
      && (forall k | 0 <= k < |publish.attempts| - 1 :: Collides(publish.attempts[k], host))
  {
    var last := publish.attempts[|publish.attempts| - 1];
    assert last in publish.attempts;
  }

  /** An unpublish that succeeds leaves exactly the mappings that are not of this volume on this host; one
      that fails changes nothing, and says that there was none exactly if there was none. */
  lemma UnpublishAnswersExactly(managed: set<Vol>, slots: Slots, unpublish: Event)
    requires unpublish.Unpublish? && Happens(managed, slots, unpublish)
    ensures
      var (vol, host, after) := (unpublish.vol, unpublish.host, unpublish.after);
      && (unpublish.error == Some(AlreadyUnmapped) <==>
            forall slot | slot in slots :: slot.host != host || slots[slot] != vol)
      && (unpublish.error != None ==> after == slots)
      && (unpublish.error == None ==>
            && (forall slot | slot in after :: slot in slots && after[slot] == slots[slot])
            && forall slot | slot in slots :: slot in after <==> slot.host != host || slots[slot] != vol)
  {
    if slot :| slot in slots && slot.host == unpublish.host && slots[slot] == unpublish.vol {
      assert slot in SlotsOf(slots, unpublish.vol);
      assert unpublish.host in HostsOf(slots, unpublish.vol);
    } else {
      assert unpublish.host !in HostsOf(slots, unpublish.vol);
    }
  }
}
