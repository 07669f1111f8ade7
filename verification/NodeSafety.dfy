/** Safety of the node handlers over every interleaving: mutual exclusion by the volume lock,
    and no handler ever formatting a disk that already carries a filesystem. */
module NodeSafety {
  import opened NodeMachine
  import opened Options
  import opened PublishContext

  // ---------- the lock protocol ----------

  predicate Holds(s: State, id: nat) {
    id in s.threads && InSection(s.threads[id].pc)
  }

  ghost predicate LockInv(s: State) {
    && (forall id | Holds(s, id) :: s.threads[id].req.volume in s.locks)
    && (forall v | v in s.locks :: exists id :: Holds(s, id) && s.threads[id].req.volume == v)
    && (forall a, b | Holds(s, a) && Holds(s, b) && a != b ::
          s.threads[a].req.volume != s.threads[b].req.volume)
  }

  /** Nothing but Locking and Unlocking changes who holds what. */
  lemma MovingKeepsLockInv(s: State, id: nat, os: Os, th: Thread)
    requires LockInv(s)
    requires id in s.threads ==> th.req == s.threads[id].req && InSection(th.pc) == InSection(s.threads[id].pc)
    requires id !in s.threads ==> !InSection(th.pc)
    ensures LockInv(State(os, s.locks, s.threads[id := th]))
  {
    var s' := State(os, s.locks, s.threads[id := th]);
    forall v | v in s'.locks
      ensures exists i :: Holds(s', i) && s'.threads[i].req.volume == v
    {
      var i :| Holds(s, i) && s.threads[i].req.volume == v;
      assert Holds(s', i);
    }
  }

  lemma TakingKeepsLockInv(s: State, id: nat, th: Thread)
    requires LockInv(s) && id in s.threads && !Holds(s, id)
    requires th.req == s.threads[id].req && InSection(th.pc) && th.req.volume !in s.locks
    ensures LockInv(State(s.os, s.locks + {th.req.volume}, s.threads[id := th]))
  {
    var s' := State(s.os, s.locks + {th.req.volume}, s.threads[id := th]);
    assert Holds(s', id);
    forall v | v in s.locks
      ensures exists i :: Holds(s', i) && s'.threads[i].req.volume == v
    {
      var i :| Holds(s, i) && s.threads[i].req.volume == v;
      assert Holds(s', i);
    }
  }

  lemma ReleasingKeepsLockInv(s: State, id: nat, th: Thread)
    requires LockInv(s) && Holds(s, id)
    requires th.req == s.threads[id].req && !InSection(th.pc)
    ensures LockInv(State(s.os, s.locks - {th.req.volume}, s.threads[id := th]))
  {
    var s' := State(s.os, s.locks - {th.req.volume}, s.threads[id := th]);
    forall v | v in s'.locks
      ensures exists i :: Holds(s', i) && s'.threads[i].req.volume == v
    {
      var i :| Holds(s, i) && s.threads[i].req.volume == v;
      assert Holds(s', i);
    }
  }

  lemma WorkStaysInSection(os: Os, th: Thread, ok: bool)
    requires InSection(th.pc) && th.pc != Unlocking
    ensures var th' := Work(os, th, ok).1;
      th'.req == th.req && th'.device == th.device && InSection(th'.pc) && (th.code != Aborted ==> th'.code != Aborted)
  {
  }

  lemma ApplyKeepsLockInv(s: State, e: Event)
    requires LockInv(s)
    ensures LockInv(Apply(s, e))
  {
    if e.Spawn? {
      if e.id !in s.threads {
        MovingKeepsLockInv(s, e.id, s.os, Start(e.req));
      }
    } else if e.id in s.threads {
      var th := s.threads[e.id];
      var turn := Step(s.os, s.locks, th, e.ok);
      if th.pc == Locking && th.req.volume !in s.locks {
        TakingKeepsLockInv(s, e.id, turn.thread);
      } else if th.pc == Unlocking {
        assert Holds(s, e.id);
        ReleasingKeepsLockInv(s, e.id, turn.thread);
      } else {
        if InSection(th.pc) {
          WorkStaysInSection(s.os, th, e.ok);
        }
        MovingKeepsLockInv(s, e.id, turn.os, turn.thread);
      }
    }
  }

  lemma {:induction false} ExecKeepsLockInv(s: State, events: seq<Event>)
    requires LockInv(s)
    ensures LockInv(Exec(s, events))
    decreases |events|
  {
    if events != [] {
      ApplyKeepsLockInv(s, events[0]);
      ExecKeepsLockInv(Apply(s, events[0]), events[1..]);
    }
  }

  /** In every reachable state the lock map's keys are exactly the volumes with a handler inside
      its section, and each of them has exactly one such handler. */
  lemma LockMapIsExact(os: Os, events: seq<Event>)
    ensures
      var s := Exec(Boot(os), events);
      && (forall v :: v in s.locks <==> exists id :: Holds(s, id) && s.threads[id].req.volume == v)
      && (forall a, b | Holds(s, a) && Holds(s, b) && s.threads[a].req.volume == s.threads[b].req.volume :: a == b)
  {
    ExecKeepsLockInv(Boot(os), events);
  }

  /** A lock disappears only in the releasing step of the one handler that holds it; in
      particular a handler that was refused the lock never takes it from its owner. */
  lemma OnlyTheHolderReleases(os: Os, events: seq<Event>, e: Event, v: VolumeId)
    requires v in Exec(Boot(os), events).locks
    requires v !in Apply(Exec(Boot(os), events), e).locks
    ensures
      var s := Exec(Boot(os), events);
      && e.Act? && Holds(s, e.id) && s.threads[e.id].pc == Unlocking && s.threads[e.id].req.volume == v
      && s.threads[e.id].code != Aborted
  {
    ExecKeepsLockInv(Boot(os), events);
    ExecKeepsCodes(Boot(os), events);
  }

  /** Inside its section a handler has not been aborted. */
  ghost predicate CodesInv(s: State) {
    forall id | id in s.threads && s.threads[id].pc != Done :: s.threads[id].code != Aborted
  }

  lemma ApplyKeepsCodes(s: State, e: Event)
    requires CodesInv(s)
    ensures CodesInv(Apply(s, e))
  {
    if e.Act? && e.id in s.threads {
      var th' := Step(s.os, s.locks, s.threads[e.id], e.ok).thread;
      assert th'.pc != Done ==> th'.code != Aborted;
    }
  }

  lemma {:induction false} ExecKeepsCodes(s: State, events: seq<Event>)
    requires CodesInv(s)
    ensures CodesInv(Exec(s, events))
    decreases |events|
  {
    if events != [] {
      var e := events[0];
      ApplyKeepsCodes(s, e);
      ExecKeepsCodes(Apply(s, e), events[1..]);
    }
  }

  // ---------- formats never change once present ----------

  /** Distinct volume ids resolve to distinct devices; the empty id is refused by validation. */
  ghost predicate DistinctDevices(volumes: set<VolumeId>) {
    forall a, b | a in volumes && b in volumes && a != "" && b != "" && DeviceOf(a) == DeviceOf(b) :: a == b
  }

  /** What a handler knows about its disk at each program point between reading the format and
      mounting: the format it read is still the format on the disk, and the type it will mount
      is the type the disk carries or will carry. */
  ghost predicate Fresh(os: Os, th: Thread) {
    var d := th.device;
    var format := Format(os, d);
    match th.pc
    case CheckingStaging => th.fsType != "" && th.existing == format && (format != "" ==> format == th.fsType)
    case Formatting => th.fsType != "" && th.existing == format && (format != "" ==> format == th.fsType)
    case Probing => th.fsType != "" && (format != "" ==> format == th.fsType)
    case MkfsInMount => th.fsType != "" && format == ""
    case Mounting => th.fsType != "" && format == th.fsType
    case _ => true
  }

  /** The multipath device stays present from its discovery until the handler is done with it. */
  ghost predicate Present(os: Os, th: Thread) {
    th.pc in {ReadingFormat, CheckingStaging, Formatting, Probing, MkfsInMount, Mounting, Resizing, Growing,
              BlockMounting, ReadingSlaves, Flushing}
    ==> th.device in os.attached
  }

  ghost predicate FormatInv(s: State, volumes: set<VolumeId>) {
    && LockInv(s)
    && (forall id | id in s.threads ::
          s.threads[id].req.volume in volumes && s.threads[id].device == DeviceOf(s.threads[id].req.volume))
    && (forall id | id in s.threads && s.threads[id].pc != Validating && s.threads[id].pc != Done ::
          s.threads[id].req.volume != "")
    && (forall id | id in s.threads :: Fresh(s.os, s.threads[id]) && Present(s.os, s.threads[id]))
  }

  /** A step touches disks only inside the section, and only the handler's own. */
  lemma WorkIsLocal(os: Os, th: Thread, ok: bool, d: Device)
    requires InSection(th.pc) && th.pc != Unlocking
    requires d != th.device
    ensures Format(Work(os, th, ok).0, d) == Format(os, d)
    ensures d in Work(os, th, ok).0.attached <==> d in os.attached
  {
  }

  lemma WorkKeepsOwn(os: Os, th: Thread, ok: bool)
    requires InSection(th.pc) && th.pc != Unlocking
    requires Fresh(os, th) && Present(os, th)
    ensures var (os', th') := Work(os, th, ok); Fresh(os', th') && Present(os', th')
  {
  }

  /** The key step: a command that writes a filesystem meets a blank disk. */
  lemma WorkNeverReformats(os: Os, th: Thread, ok: bool, d: Device)
    requires InSection(th.pc) && th.pc != Unlocking
    requires Fresh(os, th)
    requires Format(os, d) != ""
    ensures Format(Work(os, th, ok).0, d) == Format(os, d)
  {
  }

  /** What a working step may do: only its own disk changes, never from one type to another,
      and the handler's knowledge stays right. */
  ghost predicate WorkEffect(os: Os, th: Thread, os': Os, th': Thread) {
    && th'.req == th.req && th'.device == th.device && InSection(th'.pc)
    && Fresh(os', th') && Present(os', th')
    && (forall d | d != th.device ::
          Format(os', d) == Format(os, d) && (d in os'.attached <==> d in os.attached))
    && (forall d :: Format(os, d) != "" ==> Format(os', d) == Format(os, d))
  }

  lemma WorkHasEffect(os: Os, th: Thread, ok: bool)
    requires InSection(th.pc) && th.pc != Unlocking
    requires Fresh(os, th) && Present(os, th)
    ensures WorkEffect(os, th, Work(os, th, ok).0, Work(os, th, ok).1)
  {
    WorkStaysInSection(os, th, ok);
    WorkKeepsOwn(os, th, ok);
    forall d ensures Format(os, d) != "" ==> Format(Work(os, th, ok).0, d) == Format(os, d) {
      if Format(os, d) != "" {
        WorkNeverReformats(os, th, ok, d);
      }
    }
    forall d | d != th.device
      ensures Format(Work(os, th, ok).0, d) == Format(os, d)
      ensures d in Work(os, th, ok).0.attached <==> d in os.attached
    {
      WorkIsLocal(os, th, ok, d);
    }
  }

  /** Two handlers inside their sections hold different devices. */
  lemma HoldersDiffer(s: State, a: nat, b: nat, volumes: set<VolumeId>)
    requires DistinctDevices(volumes) && FormatInv(s, volumes)
    requires Holds(s, a) && Holds(s, b) && a != b
    ensures s.threads[a].device != s.threads[b].device
  {
    assert s.threads[a].req.volume != "" && s.threads[b].req.volume != "";
  }

  /** What a handler knows stays right as long as nobody touches its disk. */
  lemma UntouchedStaysFresh(os: Os, os': Os, th: Thread)
    requires Fresh(os, th) && Present(os, th)
    requires InSection(th.pc) ==>
      Format(os', th.device) == Format(os, th.device) && (th.device in os'.attached <==> th.device in os.attached)
    ensures Fresh(os', th) && Present(os', th)
  {
  }

  /** A working step keeps everyone's knowledge right: the others hold other devices. */
  lemma EffectKeepsFormatInv(s: State, id: nat, os: Os, th: Thread, volumes: set<VolumeId>)
    requires DistinctDevices(volumes) && FormatInv(s, volumes)
    requires Holds(s, id) && WorkEffect(s.os, s.threads[id], os, th)
    ensures FormatInv(State(os, s.locks, s.threads[id := th]), volumes)
  {
    MovingKeepsLockInv(s, id, os, th);
    forall i | i in s.threads && i != id
      ensures Fresh(os, s.threads[i]) && Present(os, s.threads[i])
    {
      if InSection(s.threads[i].pc) {
        HoldersDiffer(s, i, id, volumes);
      }
      UntouchedStaysFresh(s.os, os, s.threads[i]);
    }
  }

  /** A step that leaves the tables alone and puts the handler at a point where it knows nothing yet. */
  lemma QuietKeepsFormatInv(s: State, id: nat, locks: set<VolumeId>, th: Thread, volumes: set<VolumeId>)
    requires FormatInv(s, volumes)
    requires LockInv(State(s.os, locks, s.threads[id := th]))
    requires th.req.volume in volumes && th.device == DeviceOf(th.req.volume)
    requires th.pc == Validating || th.pc == Done || th.req.volume != ""
    requires Fresh(s.os, th) && Present(s.os, th)
    ensures FormatInv(State(s.os, locks, s.threads[id := th]), volumes)
  {
  }

  lemma StepOutsideWork(os: Os, locks: set<VolumeId>, th: Thread, ok: bool)
    requires !InSection(th.pc) || th.pc == Unlocking
    ensures
      var turn := Step(os, locks, th, ok);
      && turn.os == os && turn.thread.req == th.req && turn.thread.device == th.device
      && (turn.thread.pc == Done || th.req.volume != "" || th.pc == Locking)
      && Fresh(os, turn.thread) && (turn.thread.pc != th.pc ==> Present(os, turn.thread))
  {
  }

  lemma ApplyKeepsFormatInv(s: State, e: Event, volumes: set<VolumeId>)
    requires DistinctDevices(volumes)
    requires FormatInv(s, volumes)
    requires e.Spawn? ==> e.req.volume in volumes
    ensures FormatInv(Apply(s, e), volumes)
    ensures forall d :: Format(s.os, d) != "" ==> Format(Apply(s, e).os, d) == Format(s.os, d)
  {
    ApplyKeepsLockInv(s, e);
    if e.Spawn? {
      if e.id !in s.threads {
        QuietKeepsFormatInv(s, e.id, s.locks, Start(e.req), volumes);
      }
    } else if e.id in s.threads {
      var th := s.threads[e.id];
      if InSection(th.pc) && th.pc != Unlocking {
        var work := Work(s.os, th, e.ok);
        assert Apply(s, e) == State(work.0, s.locks, s.threads[e.id := work.1]);
        WorkHasEffect(s.os, th, e.ok);
        EffectKeepsFormatInv(s, e.id, work.0, work.1, volumes);
      } else {
        var turn := Step(s.os, s.locks, th, e.ok);
        assert Apply(s, e) == State(s.os, turn.locks, s.threads[e.id := turn.thread]);
        StepOutsideWork(s.os, s.locks, th, e.ok);
        QuietKeepsFormatInv(s, e.id, turn.locks, turn.thread, volumes);
      }
    }
  }

  lemma {:induction false} ExecKeepsFormatInv(s: State, events: seq<Event>, volumes: set<VolumeId>)
    requires DistinctDevices(volumes)
    requires FormatInv(s, volumes)
    requires Over(events, volumes)
    ensures FormatInv(Exec(s, events), volumes)
    ensures forall d :: Format(s.os, d) != "" ==> Format(Exec(s, events).os, d) == Format(s.os, d)
    decreases |events|
  {
    if events != [] {
      assert events[0] in events;
      assert forall e | e in events[1..] :: e in events;
      ApplyKeepsFormatInv(s, events[0], volumes);
      ExecKeepsFormatInv(Apply(s, events[0]), events[1..], volumes);
    }
  }

  /** The event is a mkfs, of the driver or of the mounter, on a disk that carries a filesystem. */
  predicate Overwrites(s: State, e: Event) {
    && e.Act? && e.ok && e.id in s.threads
    && var th := s.threads[e.id];
       && ((th.pc == Formatting && th.existing == "" && FormatSupported(th.fsType)) || th.pc == MkfsInMount)
       && Format(s.os, th.device) != ""
  }

  ghost predicate NeverOverwrites(volumes: set<VolumeId>) {
    forall os, events, e | Over(events, volumes) :: !Overwrites(Exec(Boot(os), events), e)
  }

  /** Once a disk carries a filesystem, no continuation of the run changes its type. */
  ghost predicate NeverReformats(volumes: set<VolumeId>) {
    forall os, before, after, d | Over(before, volumes) && Over(after, volumes) ::
      Format(Exec(Boot(os), before).os, d) != ""
      ==> Format(Exec(Boot(os), before + after).os, d) == Format(Exec(Boot(os), before).os, d)
  }

  lemma DistinctDevicesAreSafe(volumes: set<VolumeId>)
    requires DistinctDevices(volumes)
    ensures NeverReformats(volumes) && NeverOverwrites(volumes)
  {
    forall os, events, e | Over(events, volumes)
      ensures !Overwrites(Exec(Boot(os), events), e)
    {
      ExecKeepsFormatInv(Boot(os), events, volumes);
    }
    forall os, before, after, d | Over(before, volumes) && Over(after, volumes)
      ensures Format(Exec(Boot(os), before).os, d) != ""
              ==> Format(Exec(Boot(os), before + after).os, d) == Format(Exec(Boot(os), before).os, d)
    {
      ExecConcat(Boot(os), before, after);
      ExecKeepsFormatInv(Boot(os), before, volumes);
      ExecKeepsFormatInv(Exec(Boot(os), before), after, volumes);
    }
  }

  /** Whenever a handler is about to run mkfs, in the driver or inside the mounter, its disk is
      attached and still blank; whenever it is about to mount, the disk carries the type it mounts. */
  lemma FormatReadNeverStale(os: Os, events: seq<Event>, volumes: set<VolumeId>, id: nat)
    requires DistinctDevices(volumes) && Over(events, volumes)
    requires id in Exec(Boot(os), events).threads
    ensures
      var s := Exec(Boot(os), events);
      var th := s.threads[id];
      var d := DeviceOf(th.req.volume);
      && (th.pc == Formatting && th.existing == "" ==> Format(s.os, d) == "" && d in s.os.attached)
      && (th.pc == MkfsInMount ==> Format(s.os, d) == "" && d in s.os.attached)
      && (th.pc == Mounting ==> Format(s.os, d) == th.fsType && d in s.os.attached)
  {
    ExecKeepsFormatInv(Boot(os), events, volumes);
  }

  // ---------- the condition on devices is necessary ----------

  /** n successful steps of one handler. */
  function Acts(id: nat, n: nat): (events: seq<Event>)
    ensures |events| == n
    ensures forall e | e in events :: e == Act(id, true)
  {
    if n == 0 then [] else [Act(id, true)] + Acts(id, n - 1)
  }

  function StageOn(volume: VolumeId, fsType: string, staging: Path): Request {
    Request(Stage, volume, false, fsType, staging, "", Some(Info(FC, 0, map["wwn" := None])))
  }

  /** A stage handler with the lock free and a blank disk, stopped just before it formats. */
  function AboutToFormat(s: State, id: nat, req: Request): State {
    State(s.os.(attached := s.os.attached + {DeviceOf(req.volume)}), s.locks + {req.volume},
          s.threads[id := Thread(req, DeviceOf(req.volume), Formatting, "", req.fsType, Success)])
  }

  /** A stage thread at a program point, before the type to mount is decided and after. */
  function Staging(req: Request, pc: Pc, fsType: string): Thread {
    Thread(req, DeviceOf(req.volume), pc, "", fsType, Success)
  }

  lemma EnteringSteps(os: Os, locks: set<VolumeId>, req: Request)
    requires req == StageOn(req.volume, req.fsType, req.staging)
    requires req.volume != "" && req.volume !in locks && req.staging != "" && req.staging in os.paths
    ensures
      var attached := os.(attached := os.attached + {DeviceOf(req.volume)});
      var held := locks + {req.volume};
      && Step(os, locks, Start(req), true) == Turn(os, locks, Staging(req, Locking, ""))
      && Step(os, locks, Staging(req, Locking, ""), true) == Turn(os, held, Staging(req, Rescanning, ""))
      && Step(os, held, Staging(req, Rescanning, ""), true) == Turn(attached, held, Staging(req, FindingDevice, ""))
  {
    assert "wwn" in req.context.value.ips;
  }

  lemma DecidingSteps(os: Os, locks: set<VolumeId>, req: Request)
    requires req == StageOn(req.volume, req.fsType, req.staging)
    requires req.fsType != "" && req.staging in os.paths && req.staging !in os.mounts
    requires DeviceOf(req.volume) in os.attached && Format(os, DeviceOf(req.volume)) == ""
    ensures
      && Step(os, locks, Staging(req, FindingDevice, ""), true) == Turn(os, locks, Staging(req, ReadingFormat, ""))
      && Step(os, locks, Staging(req, ReadingFormat, ""), true)
         == Turn(os, locks, Staging(req, CheckingStaging, req.fsType))
      && Step(os, locks, Staging(req, CheckingStaging, req.fsType), true)
         == Turn(os, locks, Staging(req, Formatting, req.fsType))
  {
  }

  /** One successful step of a handler, in the state that the steps before it have led to. */
  lemma Acted(s: State, id: nat, n: nat, before: Turn, after: Turn)
    requires id in s.threads
    requires Exec(s, Acts(id, n)) == State(before.os, before.locks, s.threads[id := before.thread])
    requires Step(before.os, before.locks, before.thread, true) == after
    ensures Exec(s, Acts(id, n + 1)) == State(after.os, after.locks, s.threads[id := after.thread])
  {
    ActsSnoc(id, n);
    ExecConcat(s, Acts(id, n), [Act(id, true)]);
    var reached := Exec(s, Acts(id, n));
    assert Exec(reached, [Act(id, true)]) == Apply(reached, Act(id, true));
    assert s.threads[id := before.thread][id := after.thread] == s.threads[id := after.thread];
  }

  lemma {:induction false} ActsSnoc(id: nat, n: nat)
    ensures Acts(id, n + 1) == Acts(id, n) + [Act(id, true)]
  {
    if n > 0 {
      ActsSnoc(id, n - 1);
    }
  }

  lemma SixStepsToFormatting(s: State, id: nat, req: Request)
    requires id in s.threads && s.threads[id] == Start(req)
    requires req == StageOn(req.volume, req.fsType, req.staging)
    requires req.volume != "" && req.volume !in s.locks && req.fsType != "" && req.staging != ""
    requires req.staging in s.os.paths && req.staging !in s.os.mounts
    requires Format(s.os, DeviceOf(req.volume)) == ""
    ensures Exec(s, Acts(id, 6)) == AboutToFormat(s, id, req)
  {
    var attached := s.os.(attached := s.os.attached + {DeviceOf(req.volume)});
    var held := s.locks + {req.volume};
    EnteringSteps(s.os, s.locks, req);
    DecidingSteps(attached, held, req);
    var finding := Turn(attached, held, Staging(req, FindingDevice, ""));
    var checking := Turn(attached, held, Staging(req, CheckingStaging, req.fsType));
    assert s.threads[id := Start(req)] == s.threads;
    Acted(s, id, 0, Turn(s.os, s.locks, Start(req)), Turn(s.os, s.locks, Staging(req, Locking, "")));
    Acted(s, id, 1, Turn(s.os, s.locks, Staging(req, Locking, "")), Turn(s.os, held, Staging(req, Rescanning, "")));
    Acted(s, id, 2, Turn(s.os, held, Staging(req, Rescanning, "")), finding);
    Acted(s, id, 3, finding, Turn(attached, held, Staging(req, ReadingFormat, "")));
    Acted(s, id, 4, Turn(attached, held, Staging(req, ReadingFormat, "")), checking);
    Acted(s, id, 5, checking, Turn(attached, held, Staging(req, Formatting, req.fsType)));
  }

  lemma FormattingStep(s: State, id: nat, req: Request)
    requires id in s.threads && s.threads[id] == Thread(req, DeviceOf(req.volume), Formatting, "", req.fsType, Success)
    requires FormatSupported(req.fsType)
    ensures
      var s' := Apply(s, Act(id, true));
      && s'.os == s.os.(formats := s.os.formats[DeviceOf(req.volume) := req.fsType])
      && forall i | i != id && i in s.threads :: i in s'.threads && s'.threads[i] == s.threads[i]
  {
  }

  lemma {:induction false} OverConcat(first: seq<Event>, second: seq<Event>, volumes: set<VolumeId>)
    requires Over(first, volumes) && Over(second, volumes)
    ensures Over(first + second, volumes)
  {
    assert forall e | e in first + second :: e in first || e in second;
  }

  /** Two ids with one device: both handlers read a blank disk under their own locks, and the
      second makes an ext4 over the xfs that the first has just made. */
  lemma SharedDeviceIsReformatted(volumes: set<VolumeId>, a: VolumeId, b: VolumeId)
    requires a in volumes && b in volumes && a != "" && b != "" && a != b
    requires DeviceOf(a) == DeviceOf(b)
    ensures !NeverReformats(volumes) && !NeverOverwrites(volumes)
  {
    var os := Os(map[], {}, map[], map["staging" := Directory]);
    var first, second := StageOn(a, "xfs", "staging"), StageOn(b, "ext4", "staging");
    var ready := [Spawn(1, first), Spawn(2, second)] + Acts(1, 6) + Acts(2, 6);
    var before, after := ready + [Act(1, true)], [Act(2, true)];
    WitnessIsOver(volumes, first, second);
    FormattedTwice(os, first, second);
    assert Format(Exec(Boot(os), before).os, DeviceOf(a)) == "xfs";
    assert Format(Exec(Boot(os), before + after).os, DeviceOf(a)) == "ext4";
    assert Overwrites(Exec(Boot(os), before), Act(2, true));
  }

  lemma WitnessIsOver(volumes: set<VolumeId>, first: Request, second: Request)
    requires first.volume in volumes && second.volume in volumes
    ensures Over([Spawn(1, first), Spawn(2, second)] + Acts(1, 6) + Acts(2, 6) + [Act(1, true)], volumes)
  {
    var spawns := [Spawn(1, first), Spawn(2, second)];
    OverConcat(spawns, Acts(1, 6), volumes);
    OverConcat(spawns + Acts(1, 6), Acts(2, 6), volumes);
    OverConcat(spawns + Acts(1, 6) + Acts(2, 6), [Act(1, true)], volumes);
  }

  lemma FormattedTwice(os: Os, first: Request, second: Request)
    requires os == Os(map[], {}, map[], map["staging" := Directory])
    requires first == StageOn(first.volume, "xfs", "staging")
    requires second == StageOn(second.volume, "ext4", "staging")
    requires first.volume != "" && second.volume != "" && first.volume != second.volume
    requires DeviceOf(first.volume) == DeviceOf(second.volume)
    ensures
      var before := [Spawn(1, first), Spawn(2, second)] + Acts(1, 6) + Acts(2, 6) + [Act(1, true)];
      var s := Exec(Boot(os), before);
      && Format(s.os, DeviceOf(first.volume)) == "xfs"
      && 2 in s.threads && s.threads[2] == Staging(second, Formatting, "ext4")
      && Format(Exec(Boot(os), before + [Act(2, true)]).os, DeviceOf(first.volume)) == "ext4"
  {
    var ready := [Spawn(1, first), Spawn(2, second)] + Acts(1, 6) + Acts(2, 6);
    var s := BothAboutToFormat(os, first, second);
    FormattingStep(s, 1, first);
    FormattingStep(Apply(s, Act(1, true)), 2, second);
    ExecConcat(Boot(os), ready, [Act(1, true)]);
    ExecConcat(Boot(os), ready + [Act(1, true)], [Act(2, true)]);
  }

  lemma BothSpawned(os: Os, first: Request, second: Request)
    ensures Exec(Boot(os), [Spawn(1, first), Spawn(2, second)])
            == State(os, {}, map[1 := Start(first), 2 := Start(second)])
  {
    var spawns := [Spawn(1, first), Spawn(2, second)];
    assert spawns == [spawns[0]] + [spawns[1]];
    ExecConcat(Boot(os), [spawns[0]], [spawns[1]]);
  }

  lemma ThreeLegs(s: State, leg0: seq<Event>, s0: State, leg1: seq<Event>, s1: State, leg2: seq<Event>, s2: State)
    requires Exec(s, leg0) == s0 && Exec(s0, leg1) == s1 && Exec(s1, leg2) == s2
    ensures Exec(s, leg0 + leg1 + leg2) == s2
  {
    ExecConcat(s, leg0, leg1);
    ExecConcat(s, leg0 + leg1, leg2);
  }

  lemma BothAboutToFormat(os: Os, first: Request, second: Request) returns (s: State)
    requires os == Os(map[], {}, map[], map["staging" := Directory])
    requires first == StageOn(first.volume, "xfs", "staging")
    requires second == StageOn(second.volume, "ext4", "staging")
    requires first.volume != "" && second.volume != "" && first.volume != second.volume
    ensures s == Exec(Boot(os), [Spawn(1, first), Spawn(2, second)] + Acts(1, 6) + Acts(2, 6))
    ensures 1 in s.threads && s.threads[1] == Thread(first, DeviceOf(first.volume), Formatting, "", "xfs", Success)
    ensures 2 in s.threads && s.threads[2] == Thread(second, DeviceOf(second.volume), Formatting, "", "ext4", Success)
  {
    var spawns := [Spawn(1, first), Spawn(2, second)];
    var s0 := State(os, {}, map[1 := Start(first), 2 := Start(second)]);
    BothSpawned(os, first, second);
    var s1 := AboutToFormat(s0, 1, first);
    s := AboutToFormat(s1, 2, second);
    SixStepsToFormatting(s0, 1, first);
    SixStepsToFormatting(s1, 2, second);
    ThreeLegs(Boot(os), spawns, s0, Acts(1, 6), s1, Acts(2, 6), s);
  }

  /** No mkfs ever meets a filesystem, and no filesystem ever changes its type, exactly when distinct
      ids resolve to distinct devices. */
  lemma SafeExactlyWhenDevicesDistinct(volumes: set<VolumeId>)
    ensures NeverReformats(volumes) <==> DistinctDevices(volumes)
    ensures NeverOverwrites(volumes) <==> DistinctDevices(volumes)
  {
    if DistinctDevices(volumes) {
      DistinctDevicesAreSafe(volumes);
    } else {
      var a, b :| a in volumes && b in volumes && a != "" && b != "" && DeviceOf(a) == DeviceOf(b) && a != b;
      SharedDeviceIsReformatted(volumes, a, b);
    }
  }
}
