/** The state of an SVC array as far as volumes and FlashCopy mappings go, and what each mediator
    operation may do to it. */
module SvcArray {
  import opened Options

  type Name = string
  type Uid = nat
  type MapId = nat

  datatype Volume = Volume(uid: Uid, capacity: nat)

  /** idle_or_copied covers both a mapping not started yet and one whose background copy is done. */
  datatype Status = IdleOrCopied | Copying | Stopped

  /** noCopy stands for copy rate "0", the mark of a snapshot. */
  datatype FcMap = FcMap(source: Name, target: Name, noCopy: bool, status: Status)

  datatype Array = Array(volumes: map<Name, Volume>, fcmaps: map<MapId, FcMap>, nextUid: Uid, nextMap: MapId)

  function AsSource(a: Array, name: Name): set<MapId> {
    set id | id in a.fcmaps && a.fcmaps[id].source == name
  }

  function AsTarget(a: Array, name: Name): set<MapId> {
    set id | id in a.fcmaps && a.fcmaps[id].target == name
  }

  function Touching(a: Array, name: Name): set<MapId> {
    AsSource(a, name) + AsTarget(a, name)
  }

  /** A mapping the driver counts as unfinished: a snapshot, or a copy that is not done. */
  predicate Unfinished(m: FcMap) {
    m.status != IdleOrCopied || m.noCopy
  }

  ghost predicate HasUid(a: Array, name: Name, uid: Uid) {
    name in a.volumes && a.volumes[name].uid == uid
  }

  ghost predicate Exists(a: Array, uid: Uid) {
    exists name :: HasUid(a, name, uid)
  }

  ghost function NameOf(a: Array, uid: Uid): Option<Name> {
    if name :| HasUid(a, name, uid) then Some(name) else None
  }

  // ---------- integrity of the FlashCopy graph ----------

  /** Both ends of every mapping exist and differ. */
  ghost predicate EndsExist(a: Array) {
    forall id | id in a.fcmaps ::
      a.fcmaps[id].source in a.volumes && a.fcmaps[id].target in a.volumes
      && a.fcmaps[id].source != a.fcmaps[id].target
  }

  /** Each volume is the target of at most one mapping. */
  ghost predicate OneTarget(a: Array) {
    forall i, j | i in a.fcmaps && j in a.fcmaps && a.fcmaps[i].target == a.fcmaps[j].target :: i == j
  }

  ghost predicate Numbered(a: Array) {
    && (forall name | name in a.volumes :: a.volumes[name].uid < a.nextUid)
    && (forall m, n | m in a.volumes && n in a.volumes && a.volumes[m].uid == a.volumes[n].uid :: m == n)
    && (forall id | id in a.fcmaps :: id < a.nextMap)
  }

  ghost predicate Integrity(a: Array) {
    EndsExist(a) && OneTarget(a) && Numbered(a)
  }

  /** Equal up to the counters that number new objects. */
  ghost predicate SameObjects(a: Array, b: Array) {
    a.volumes == b.volumes && a.fcmaps == b.fcmaps
  }

  ghost predicate CountersGrow(a: Array, b: Array) {
    a.nextUid <= b.nextUid && a.nextMap <= b.nextMap
  }

  // ---------- what the operations do ----------

  /** Unread stands for the exceptions of a read that went wrong. */
  datatype Error =
    | ObjectNotFound | ObjectInUse | CliFailure | VolumeExists | CreationRefused | ExpectedSnapshot | Unread

  datatype Outcome = Done | Failed(error: Error)

  const BLOCK_SIZE := 512

  /** Rounds up to whole blocks. */
  function ConvertSize(bytes: nat): (size: nat)
    ensures size % BLOCK_SIZE == 0 && bytes <= size < bytes + BLOCK_SIZE
  {
    var rest := bytes % BLOCK_SIZE;
    if rest > 0 then bytes - rest + BLOCK_SIZE else bytes
  }

  /** A volume and every mapping that touches it are gone; nothing else changed. */
  function Removed(a: Array, name: Name): Array {
    a.(volumes := a.volumes - {name}, fcmaps := a.fcmaps - Touching(a, name))
  }

  /** A volume's mappings are gone and it has a new capacity; nothing else changed. */
  function Grown(a: Array, name: Name, capacity: nat): Array
    requires name in a.volumes
  {
    a.(volumes := a.volumes[name := a.volumes[name].(capacity := capacity)], fcmaps := a.fcmaps - Touching(a, name))
  }

  function WithVolume(a: Array, name: Name, capacity: nat): Array {
    a.(volumes := a.volumes[name := Volume(a.nextUid, capacity)], nextUid := a.nextUid + 1)
  }

  function WithMap(a: Array, source: Name, target: Name, noCopy: bool, status: Status): Array {
    a.(fcmaps := a.fcmaps[a.nextMap := FcMap(source, target, noCopy, status)], nextMap := a.nextMap + 1)
  }

  function WithoutVolume(a: Array, name: Name): Array {
    a.(volumes := a.volumes - {name})
  }

  function WithoutMaps(a: Array, ids: set<MapId>): Array {
    a.(fcmaps := a.fcmaps - ids)
  }

  /** Some mapping from the volume is unfinished: the driver refuses to delete it. */
  predicate SourceBusy(a: Array, name: Name) {
    exists id | id in AsSource(a, name) :: Unfinished(a.fcmaps[id])
  }

  /** Some mapping touching the volume is unfinished: the driver refuses to expand it. */
  predicate Busy(a: Array, name: Name) {
    exists id | id in Touching(a, name) :: Unfinished(a.fcmaps[id])
  }

  // ---------- deleting ----------

  /** What fails while one volume is being deleted: reading it, removing some mappings (which is
      only logged), stopping the mapping onto it, or removing the volume; and whether the array lets
      a volume go that mappings still touch. */
  datatype Removals = Removals(unseen: bool, failing: set<MapId>, stops: bool, volumeFails: bool, letsGo: bool)

  /** Nothing fails that could leave the volume or a mapping touching it. */
  predicate Works(a: Array, name: Name, r: Removals) {
    !r.unseen && Touching(a, name) !! r.failing && !r.volumeFails
  }

  /** The mappings touching the volume are gone, but for those whose removal failed. */
  function Cleared(a: Array, name: Name, r: Removals): Array {
    a.(fcmaps := map id | id in a.fcmaps && (id in r.failing || id !in Touching(a, name)) ::
                   if id in AsTarget(a, name) && r.stops then a.fcmaps[id].(status := Stopped) else a.fcmaps[id])
  }

  predicate VolumeGoes(a: Array, name: Name, r: Removals) {
    !r.volumeFails && (Touching(a, name) == {} || r.letsGo)
  }

  /** Deleting a volume that exists: refused, or its mappings and then the volume removed. */
  function DeleteResult(a: Array, name: Name, isSnapshot: bool, r: Removals): (Array, Outcome) {
    if r.unseen then (a, Failed(CliFailure))
    else if isSnapshot && |AsTarget(a, name)| != 1 then (a, Failed(ObjectNotFound))
    else if SourceBusy(a, name) then (a, Failed(ObjectInUse))
    else
      var cleared := Cleared(a, name, r);
      if VolumeGoes(cleared, name, r) then (WithoutVolume(cleared, name), Done) else (cleared, Failed(CliFailure))
  }

  /** Only mappings of the set were removed or stopped. */
  ghost predicate Shrunk(a: Array, a': Array, ids: set<MapId>) {
    && a'.fcmaps.Keys <= a.fcmaps.Keys
    && (forall id | id in a.fcmaps && id !in ids :: id in a'.fcmaps && a'.fcmaps[id] == a.fcmaps[id])
    && (forall id | id in a'.fcmaps ::
          a'.fcmaps[id].source == a.fcmaps[id].source && a'.fcmaps[id].target == a.fcmaps[id].target
          && a'.fcmaps[id].noCopy == a.fcmaps[id].noCopy
          && (a'.fcmaps[id].status == a.fcmaps[id].status || a'.fcmaps[id].status == Stopped))
  }

  ghost function DeleteByUid(a: Array, uid: Uid, isSnapshot: bool, r: Removals): (Array, Outcome) {
    if r.unseen then (a, Failed(CliFailure))
    else if NameOf(a, uid) == None then (a, Failed(ObjectNotFound))
    else DeleteResult(a, NameOf(a, uid).value, isSnapshot, r)
  }

  // ---------- expanding ----------

  /** Deletes the volume's mappings without force, and then asks for the difference. */
  function ExpandResult(
    a: Array, name: Name, bytes: nat, unseen: bool, failing: set<MapId>, extendFails: bool): (Array, Outcome)
    requires name in a.volumes
  {
    if unseen then (a, Failed(CliFailure))
    else if Busy(a, name) then (a, Failed(ObjectInUse))
    else
      var cleared := WithoutMaps(a, Touching(a, name) - failing);
      if ConvertSize(bytes) <= a.volumes[name].capacity || extendFails then (cleared, Failed(CliFailure))
      else
        (cleared.(volumes := a.volumes[name := a.volumes[name].(capacity := ConvertSize(bytes))]), Done)
  }

  // ---------- copying ----------

  /** Where making and starting a mapping fails: the reread is that of the target, after the mapping
      was made and before it is started. */
  datatype CopyFault = NoFault | MkFcMapFails | RereadFails | StartFails

  datatype CopyEnd = Started | CommandFailed | ReadFailed

  /** How an attempt at mapping one volume onto another that nothing touches ends. */
  function EndOfCopy(source: Name, target: Name, fault: CopyFault): CopyEnd {
    if source == target then CommandFailed
    else
      match fault
      case NoFault => Started
      case RereadFails => ReadFailed
      case MkFcMapFails => CommandFailed
      case StartFails => CommandFailed
  }

  function CopyAttempt(a: Array, source: Name, target: Name, noCopy: bool, fault: CopyFault): Array {
    if fault == MkFcMapFails || source == target then a
    else WithMap(a, source, target, noCopy, if fault == NoFault then Copying else IdleOrCopied)
  }

  /** Copying onto an existing volume: after a failed command, but not after a failed read, the
      mediator removes the mapping that it may have left unstarted. */
  function CopyResult(a: Array, source: Name, target: Name, fault: CopyFault, undo: Removals): (Array, CopyEnd) {
    var copied := CopyAttempt(a, source, target, false, fault);
    var end := EndOfCopy(source, target, fault);
    (if end == CommandFailed && !undo.unseen then WithoutUnstarted(copied, target, undo.failing) else copied, end)
  }

  // ---------- snapshots ----------

  datatype SnapshotFault = MkVolumeFails(rejected: bool) | ReadBackFails | AtCopy(fault: CopyFault)

  const ROLLBACK_TRIES: nat := 5

  /** One try at undoing a snapshot: the one unstarted mapping and the target. A target that cannot
      be read counts as gone. */
  function UndoTry(a: Array, target: Name, r: Removals): (Array, bool) {
    if r.unseen || target !in a.volumes then (a, true)
    else
      var cleared := WithoutUnstarted(a, target, r.failing);
      if VolumeGoes(cleared, target, r) then (WithoutVolume(cleared, target), true) else (cleared, false)
  }

  function WithoutUnstarted(a: Array, target: Name, failing: set<MapId>): Array {
    var ids := Touching(a, target);
    if |ids| == 1 && ids !! failing && forall id | id in ids :: a.fcmaps[id].status != Copying
    then WithoutMaps(a, ids) else a
  }

  function Undo(a: Array, target: Name, tries: seq<Removals>): Array
    decreases |tries|
  {
    if tries == [] then a
    else
      var (b, done) := UndoTry(a, target, tries[0]);
      if done then b else Undo(b, target, tries[1..])
  }

  /** Creating a snapshot. Only the failures of commands are undone, and of making the volume only
      those that no rejection explains: a rejection and a failed read pass by the clean-up. The
      clean-up takes any volume of the target's name for the new one. */
  function SnapshotResult(a: Array, source: Name, target: Name, fault: SnapshotFault, tries: seq<Removals>)
    : (Array, Outcome)
    requires source in a.volumes
  {
    if fault == MkVolumeFails(true) then (a, Failed(CreationRefused))
    else if target in a.volumes then
      if fault.MkVolumeFails? then (Undo(a, target, tries), Failed(CliFailure)) else (a, Failed(VolumeExists))
    else if fault.MkVolumeFails? then (a, Failed(CliFailure))
    else
      var made := WithVolume(a, target, ConvertSize(a.volumes[source].capacity));
      if fault == ReadBackFails then (made, Failed(Unread))
      else
        var copied := CopyAttempt(made, source, target, true, fault.fault);
        match fault.fault
        case NoFault => (copied, Done)
        case RereadFails => (copied, Failed(Unread))
        case MkFcMapFails => (Undo(copied, target, tries), Failed(CliFailure))
        case StartFails => (Undo(copied, target, tries), Failed(CliFailure))
  }

  /** Everything that was there is as it was; at most the named volume and one mapping onto it are
      new. */
  ghost predicate OnlyNew(a: Array, a': Array, name: Name) {
    && CountersGrow(a, a')
    && (forall n | n in a.volumes :: n in a'.volumes && a'.volumes[n] == a.volumes[n])
    && (forall n | n in a'.volumes :: n in a.volumes || (n == name && a'.volumes[n].uid == a.nextUid))
    && (forall id | id in a.fcmaps :: id in a'.fcmaps && a'.fcmaps[id] == a.fcmaps[id])
    && (forall id | id in a'.fcmaps && id !in a.fcmaps :: a'.fcmaps[id].target == name && id == a.nextMap)
  }
}
