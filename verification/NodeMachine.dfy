/** The node plugin's handlers as a machine of atomic steps. Each handler is a thread with a
    program counter; the tables of the operating system and the lock map are shared. A step is
    one lock operation, one read, or one command, and carries the command's outcome. */
module NodeMachine {
  import opened Options
  import opened PublishContext
  import opened Text

  type VolumeId = string
  type Device = string
  type Path = string

  datatype Kind = Directory | File

  /** What a mount point shows: a disk, or a plain directory bound there. */
  datatype Source = Disk(device: Device) | Plain(directory: Path)

  /** formats gives the filesystem on each disk (absent or "" when blank) and outlives the
      multipath device; attached is the set of multipath devices present on the host. */
  datatype Os = Os(
    formats: map<Device, string>,
    attached: set<Device>,
    mounts: map<Path, Source>,
    paths: map<Path, Kind>)

  function Format(os: Os, d: Device): string {
    if d in os.formats then os.formats[d] else ""
  }

  /** What a bind mount of a path shows: whatever is mounted there, or else the directory itself. */
  function Shown(os: Os, path: Path): Source {
    if path in os.mounts then os.mounts[path] else Plain(path)
  }

  datatype Op = Stage | Unstage | Publish | Unpublish | Expand

  /** context is what reading the publish context gives; only stage requests carry one. */
  datatype Request = Request(
    op: Op, volume: VolumeId, block: bool, fsType: string, staging: Path, target: Path, context: Option<Info>)

  datatype Code = Success | InvalidArgument | NotFound | Aborted | Internal | AlreadyExists

  datatype Pc =
    | Validating | Locking
    | Rescanning | FindingDevice | ReadingFormat | CheckingStaging
    | Formatting | Probing | MkfsInMount | Mounting
    | CheckingTarget | MakingTarget | BindMounting | FindingForBlock | BlockMounting
    | CheckingExists | CheckingMounted | Unmounting | RemovingTarget
    | FindingForRemoval | ReadingSlaves | Flushing | RemovingScsi | ClearingInfo
    | Resizing | Growing
    | Unlocking | Done

  /** device is the key the volume id resolves to, existing the format a handler read, fsType
      the type it decided to mount. */
  datatype Thread = Thread(req: Request, device: Device, pc: Pc, existing: string, fsType: string, code: Code)

  function Lower(s: string): (r: string)
    ensures |r| == |s|
  {
    seq(|s|, i requires 0 <= i < |s| => if 'A' <= s[i] <= 'Z' then s[i] - 'A' + 'a' else s[i])
  }

  /** The device key of a volume: the last colon-separated part of its id, lower-cased. */
  function DeviceOf(volume: VolumeId): Device {
    var parts := Split(volume, ':');
    Lower(parts[|parts| - 1])
  }

  const DEFAULT_FS_TYPE := "ext4"

  datatype Resolution = Resolved(fsType: string) | Mismatch

  /** An absent requested type takes the existing one, or ext4 on a blank disk; a present one
      must agree with what is on the disk. */
  function ResolveFsType(requested: string, existing: string): (r: Resolution)
    ensures r.Mismatch? <==> requested != "" && existing != "" && requested != existing
    ensures r.Resolved? ==> r.fsType != "" && (existing != "" ==> r.fsType == existing)
  {
    if requested == "" then
      Resolved(if existing == "" then DEFAULT_FS_TYPE else existing)
    else if existing != "" && requested != existing then Mismatch
    else Resolved(requested)
  }

  /** The types for which the driver itself runs mkfs before handing over to the mounter. */
  predicate FormatSupported(fsType: string) {
    fsType == "ext4" || fsType == "xfs"
  }

  datatype MountCheck = CheckFailed(code: Code) | NotMounted | AlreadyMounted

  function IsTargetMounted(os: Os, path: Path, isFs: bool, ok: bool): MountCheck {
    if !ok || path !in os.paths then CheckFailed(Internal)
    else if path !in os.mounts then NotMounted
    else if isFs != os.paths[path].Directory? then CheckFailed(AlreadyExists)
    else AlreadyMounted
  }

  /** A publish context that can be read and names a known connectivity, a LUN and an initiator. */
  predicate ValidContext(context: Option<Info>) {
    && context.Some? && (context.value.connectivity == ISCSI || context.value.connectivity == FC)
    && context.value.lun >= 0 && context.value.ips != map[]
  }

  /** What request validation refuses before any lock is taken. A stage handler reads the same
      context once more under the lock, where it can no longer be found wrong. */
  function Validate(os: Os, req: Request): Code {
    match req.op
    case Stage =>
      if req.volume == "" || req.staging == "" || req.staging !in os.paths then InvalidArgument
      else if !ValidContext(req.context) then InvalidArgument
      else Success
    case Unstage => if req.volume == "" then InvalidArgument else Success
    case Publish =>
      if req.volume == "" || req.staging == "" || req.target == "" then InvalidArgument else Success
    case Unpublish => if req.volume == "" then InvalidArgument else Success
    case Expand =>
      if req.volume == "" then InvalidArgument
      else if ':' !in req.volume then NotFound
      else if req.target == "" then InvalidArgument
      else Success
  }

  datatype Turn = Turn(os: Os, locks: set<VolumeId>, thread: Thread)

  function Leave(th: Thread, code: Code): Thread {
    th.(pc := Unlocking, code := code)
  }

  /** The first thing a handler does once it holds the lock. */
  function AfterLocking(th: Thread): Thread {
    match th.req.op
    case Stage => th.(pc := Rescanning)
    case Unstage => if th.req.staging == "" then Leave(th, InvalidArgument) else th.(pc := CheckingMounted)
    case Publish => th.(pc := CheckingTarget)
    case Unpublish => if th.req.target == "" then Leave(th, InvalidArgument) else th.(pc := CheckingExists)
    case Expand => th.(pc := FindingDevice)
  }

  function MountPoint(req: Request): Path {
    if req.op == Unstage then req.staging else req.target
  }

  function AfterUnmount(th: Thread): Thread {
    th.(pc := if th.req.op == Unstage then FindingForRemoval else RemovingTarget)
  }

  function AfterTargetReady(th: Thread): Thread {
    th.(pc := if th.req.block then FindingForBlock else BindMounting)
  }

  /** One atomic step of one handler; ok says whether the command of this step succeeds. */
  function Step(os: Os, locks: set<VolumeId>, th: Thread, ok: bool): Turn {
    if th.pc == Validating then
      var code := Validate(os, th.req);
      Turn(os, locks, if code == Success then th.(pc := Locking) else th.(pc := Done, code := code))
    else if th.pc == Locking then
      if th.req.volume in locks then Turn(os, locks, th.(pc := Done, code := Aborted))
      else Turn(os, locks + {th.req.volume}, AfterLocking(th))
    else if th.pc == Unlocking then Turn(os, locks - {th.req.volume}, th.(pc := Done))
    else if th.pc == Done then Turn(os, locks, th)
    else
      var work := Work(os, th, ok);
      Turn(work.0, locks, work.1)
  }

  /** The steps between taking and releasing the lock. */
  function Work(os: Os, th: Thread, ok: bool): (Os, Thread)
    requires InSection(th.pc) && th.pc != Unlocking
  {
    var req := th.req;
    var d := th.device;
    match th.pc
    case Rescanning =>
      if ok then (os.(attached := os.attached + {d}), th.(pc := FindingDevice)) else (os, Leave(th, Internal))
    case FindingDevice =>
      (os, if !ok || d !in os.attached then Leave(th, Internal)
           else if req.op == Expand then th.(pc := Resizing)
           else if req.block then Leave(th, Success)
           else th.(pc := ReadingFormat))
    case ReadingFormat =>
      if !ok then (os, Leave(th, Internal))
      else if req.op == Expand then (os, th.(pc := Growing, existing := Format(os, d)))
      else (os, match ResolveFsType(req.fsType, Format(os, d))
                case Mismatch => Leave(th, AlreadyExists)
                case Resolved(fsType) =>
                  th.(pc := CheckingStaging, existing := Format(os, d), fsType := fsType))
    case CheckingStaging =>
      (os, match IsTargetMounted(os, req.staging, true, ok)
           case CheckFailed(code) => Leave(th, code)
           case AlreadyMounted => Leave(th, Success)
           case NotMounted => th.(pc := Formatting))
    case Resizing => (os, if ok then th.(pc := ReadingFormat) else Leave(th, Internal))
    case Growing => (os, Leave(th, if ok then Success else Internal))
    case Formatting =>
      (if th.existing == "" && FormatSupported(th.fsType) && ok
       then os.(formats := os.formats[d := th.fsType]) else os, th.(pc := Probing))
    case Probing =>
      (os, if !ok then Leave(th, Internal)
           else th.(pc := if Format(os, d) == "" then MkfsInMount else Mounting))
    case MkfsInMount =>
      if ok then (os.(formats := os.formats[d := th.fsType]), th.(pc := Mounting)) else (os, Leave(th, Internal))
    case Mounting =>
      if ok && req.staging in os.paths && os.paths[req.staging] == Directory
      then (os.(mounts := os.mounts[req.staging := Disk(d)]), Leave(th, Success))
      else (os, Leave(th, Internal))
    case CheckingTarget =>
      (os, if req.target !in os.paths then th.(pc := MakingTarget)
           else match IsTargetMounted(os, req.target, !req.block, ok)
             case CheckFailed(code) => Leave(th, code)
             case AlreadyMounted => Leave(th, Success)
             case NotMounted => AfterTargetReady(th))
    case MakingTarget =>
      if ok
      then (os.(paths := os.paths[req.target := if req.block then File else Directory]), AfterTargetReady(th))
      else (os, Leave(th, Internal))
    case BindMounting =>
      if ok && req.staging in os.paths && os.paths[req.staging] == Directory
         && req.target in os.paths && os.paths[req.target] == Directory
      then (os.(mounts := os.mounts[req.target := Shown(os, req.staging)]), Leave(th, Success))
      else (os, Leave(th, Internal))
    case FindingForBlock =>
      (os, if !ok || d !in os.attached then Leave(th, Internal) else th.(pc := BlockMounting))
    case BlockMounting =>
      // The error of this mount lands in a shadowed variable: the handler reports success anyway.
      (if ok && req.target in os.paths && os.paths[req.target] == File
       then os.(mounts := os.mounts[req.target := Disk(d)]) else os, Leave(th, Success))
    case CheckingExists =>
      (os, if req.target !in os.paths then Leave(th, Success) else th.(pc := CheckingMounted))
    case CheckingMounted =>
      (os, if !ok || MountPoint(req) !in os.paths then Leave(th, Internal)
           else if MountPoint(req) in os.mounts then th.(pc := Unmounting)
           else AfterUnmount(th))
    case Unmounting =>
      if ok then (os.(mounts := os.mounts - {MountPoint(req)}), AfterUnmount(th)) else (os, Leave(th, Internal))
    case RemovingTarget =>
      if ok then (os.(paths := os.paths - {req.target}), Leave(th, Success)) else (os, Leave(th, Internal))
    case FindingForRemoval =>
      (os, if !ok then Leave(th, Internal)
           else if d !in os.attached then Leave(th, Success)
           else th.(pc := ReadingSlaves))
    case ReadingSlaves => (os, if ok then th.(pc := Flushing) else Leave(th, Internal))
    case Flushing =>
      if ok then (os.(attached := os.attached - {d}), th.(pc := RemovingScsi)) else (os, Leave(th, Internal))
    case RemovingScsi => (os, if ok then th.(pc := ClearingInfo) else Leave(th, Internal))
    case ClearingInfo => (os, Leave(th, if ok then Success else Internal))
  }

  /** Between a successful AddVolumeLock and the deferred RemoveVolumeLock. */
  predicate InSection(pc: Pc) {
    pc != Validating && pc != Locking && pc != Done
  }

  // ---------- any number of handlers, in any interleaving ----------

  datatype State = State(os: Os, locks: set<VolumeId>, threads: map<nat, Thread>)

  datatype Event = Spawn(id: nat, req: Request) | Act(id: nat, ok: bool)

  function Start(req: Request): Thread {
    Thread(req, DeviceOf(req.volume), Validating, "", "", Success)
  }

  function Apply(s: State, e: Event): State {
    match e
    case Spawn(id, req) => if id in s.threads then s else s.(threads := s.threads[id := Start(req)])
    case Act(id, ok) =>
      if id !in s.threads then s
      else
        var turn := Step(s.os, s.locks, s.threads[id], ok);
        State(turn.os, turn.locks, s.threads[id := turn.thread])
  }

  function Exec(s: State, events: seq<Event>): State
    decreases |events|
  {
    if events == [] then s else Exec(Apply(s, events[0]), events[1..])
  }

  function Boot(os: Os): State {
    State(os, {}, map[])
  }

  /** Every request of the run names a volume of the set. */
  ghost predicate Over(events: seq<Event>, volumes: set<VolumeId>) {
    forall e | e in events && e.Spawn? :: e.req.volume in volumes
  }

  lemma {:induction false} ExecConcat(s: State, first: seq<Event>, second: seq<Event>)
    ensures Exec(s, first + second) == Exec(Exec(s, first), second)
    decreases |first|
  {
    if first == [] {
      assert first + second == second;
    } else {
      ExecConcat(Apply(s, first[0]), first[1..], second);
      assert (first + second)[1..] == first[1..] + second;
    }
  }
}
