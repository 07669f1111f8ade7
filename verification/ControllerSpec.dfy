/** What the controller's volume calls do, as functions of the array before a call, of the request,
    and of what fails. */
module ControllerSpec {
  import opened Options
  import opened SvcArray

  const MIN_SIZE := 512
  const MAX_SIZE := 256 * 1024 * 1024 * 1024 * 1024

  datatype Source = Source(uid: Uid, isSnapshot: bool)

  datatype CreateRequest = CreateRequest(name: Name, bytes: nat, source: Option<Source>)

  datatype Code = OutOfRange | AlreadyExists | NotFound | FailedPrecondition | Internal

  /** Created carries what the response tells: the volume id, its capacity, its content source. */
  datatype CreateResponse = Created(uid: Uid, capacity: nat, copySource: Option<Uid>) | Refused(code: Code)

  datatype SnapshotResponse = Snapped(uid: Uid, capacity: nat) | NotSnapped(code: Code)

  datatype ExpandResponse = Expanded(capacity: nat, nodeExpansion: bool) | NotExpanded(code: Code)

  function SourceUid(source: Option<Source>): Option<Uid> {
    if source.Some? then Some(source.value.uid) else None
  }

  /** The volume's content source as the array shows it: the source of the one mapping onto it. */
  ghost function CopySource(a: Array, name: Name): Option<Uid> {
    if id :| AsTarget(a, name) == {id} then
      assert id in AsTarget(a, name);
      if a.fcmaps[id].source in a.volumes then Some(a.volumes[a.fcmaps[id].source].uid) else None
    else None
  }

  function DefaultedSize(bytes: nat): nat {
    if bytes == 0 then MIN_SIZE else bytes
  }

  // ---------- CreateVolume ----------

  /** The first thing that fails in a call: looking the name up, or in silence the name of the volume
      that the one found is a copy of; making the volume, reading it back, reading its mappings for
      the answer, reading the source, or the copy. */
  datatype CreateFault =
    | LookupFails | SourceNameLost | VolumeFails(rejected: bool) | ReadBackLost(notFound: bool) | ResponseUnread
    | SourceUnread | InCopy(fault: CopyFault)

  /** What fails while the call cleans up: the mediator's removal of an unstarted mapping, the
      deletions of the new volume, and those of the second round that a missing source causes. */
  datatype Cleanup = Cleanup(undo: Removals, first: seq<Removals>, second: seq<Removals>)

  function FaultOfCopy(fault: CreateFault): CopyFault {
    if fault.InCopy? then fault.fault else NoFault
  }

  predicate FiveTries(cleanup: Cleanup) {
    |cleanup.first| == ROLLBACK_TRIES && |cleanup.second| == ROLLBACK_TRIES
  }

  /** The content source as it is read: a copy whose source's name is lost looks like no copy. */
  ghost function SourceRead(a: Array, name: Name, lost: bool): Option<Uid> {
    if lost then None else CopySource(a, name)
  }

  /** The answer for a name that exists: the volume, if its size (without a source) and its content
      source as read are the requested ones. */
  ghost function ExistingAnswer(a: Array, req: CreateRequest, lost: bool): CreateResponse
    requires req.name in a.volumes
  {
    var volume := a.volumes[req.name];
    if req.source.None? && volume.capacity != req.bytes then Refused(AlreadyExists)
    else if SourceRead(a, req.name, lost) == SourceUid(req.source) then
      Created(volume.uid, volume.capacity, SourceRead(a, req.name, lost))
    else Refused(AlreadyExists)
  }

  /** Deletes the volume, trying again while that fails. */
  ghost function RollbackResult(a: Array, uid: Uid, tries: seq<Removals>): (Array, Outcome)
    decreases |tries|
  {
    if tries == [] then (a, Done)
    else
      var (b, outcome) := DeleteByUid(a, uid, false, tries[0]);
      if outcome == Done || |tries| == 1 then (b, outcome) else RollbackResult(b, uid, tries[1..])
  }

  /** The error of the clean-up takes the place of the error that caused it. */
  function Reported(cause: Error, cleanup: Outcome): Outcome {
    if cleanup.Failed? then cleanup else Failed(cause)
  }

  /** The source can be copied: a volume, or a snapshot that is one. */
  predicate IsUsable(a: Array, name: Name, isSnapshot: bool) {
    isSnapshot ==> |AsTarget(a, name)| == 1 && forall id | id in AsTarget(a, name) :: a.fcmaps[id].noCopy
  }

  /** The copy onto the volume just made; every failure rolls back by deleting that volume, a missing
      source even twice. */
  ghost function CopyFromResult(
    a: Array, uid: Uid, name: Name, source: Source, fault: CreateFault, cleanup: Cleanup): (Array, Outcome)
  {
    if fault == SourceUnread then
      var (b, undone) := RollbackResult(a, uid, cleanup.first);
      (b, Reported(CliFailure, undone))
    else if NameOf(a, source.uid) == None then
      var (b, first) := RollbackResult(a, uid, cleanup.first);
      var (c, second) := RollbackResult(b, uid, cleanup.second);
      (c, Reported(if first.Failed? then first.error else ObjectNotFound, second))
    else if !IsUsable(a, NameOf(a, source.uid).value, source.isSnapshot) then
      var (b, undone) := RollbackResult(a, uid, cleanup.first);
      (b, Reported(ExpectedSnapshot, undone))
    else
      var (b, end) := CopyResult(a, NameOf(a, source.uid).value, name, FaultOfCopy(fault), cleanup.undo);
      if end == Started then (b, Done)
      else
        var (c, undone) := RollbackResult(b, uid, cleanup.first);
        (c, Reported(if end == ReadFailed then Unread else CliFailure, undone))
  }

  function CodeOf(error: Error): Code {
    if error == ObjectNotFound then NotFound else Internal
  }

  /** A whole call. A failed read of the new volume ends it with no clean-up at all. */
  ghost function CreateResult(a: Array, req: CreateRequest, fault: CreateFault, cleanup: Cleanup)
    : (Array, CreateResponse)
  {
    if req.bytes > MAX_SIZE then (a, Refused(OutOfRange))
    else if fault == LookupFails then (a, Refused(Internal))
    else if req.name in a.volumes then (a, ExistingAnswer(a, req, fault == SourceNameLost))
    else if fault.VolumeFails? then (a, Refused(Internal))
    else
      var made := WithVolume(a, req.name, ConvertSize(DefaultedSize(req.bytes)));
      if fault.ReadBackLost? then (made, Refused(if fault.notFound then NotFound else Internal))
      else if fault == ResponseUnread then (made, Refused(Internal))
      else
        var answer := Created(a.nextUid, ConvertSize(DefaultedSize(req.bytes)), SourceUid(req.source));
        if req.source == None then (made, answer)
        else
          var (b, outcome) := CopyFromResult(made, a.nextUid, req.name, req.source.value, fault, cleanup);
          (b, if outcome == Done then answer else Refused(CodeOf(outcome.error)))
  }

  // ---------- the other calls ----------

  /** What fails in an expansion: the first read, the removal of some mappings, the command itself,
      or the read of the new capacity. */
  datatype ExpandFaults = ExpandFaults(unseen: bool, failing: set<MapId>, extendFails: bool, rereadFails: bool)

  ghost function ExpandRpcResult(a: Array, uid: Uid, bytes: nat, faults: ExpandFaults): (Array, ExpandResponse) {
    if faults.unseen then (a, NotExpanded(Internal))
    else if NameOf(a, uid) == None || NameOf(a, uid).value !in a.volumes then (a, NotExpanded(NotFound))
    else
      var name := NameOf(a, uid).value;
      var capacity := a.volumes[name].capacity;
      if capacity >= bytes then (a, Expanded(capacity, false))
      else if bytes > MAX_SIZE then (a, NotExpanded(OutOfRange))
      else
        var (b, outcome) := ExpandResult(a, name, bytes, false, faults.failing, faults.extendFails);
        (b, match outcome
            case Done => if faults.rereadFails then NotExpanded(Internal) else Expanded(ConvertSize(bytes), true)
            case Failed(ObjectInUse) => NotExpanded(FailedPrecondition)
            case Failed(_) => NotExpanded(Internal))
  }

  /** A volume that is the target of exactly one mapping, of copy rate 0. */
  ghost predicate IsSnapshotOf(a: Array, name: Name, source: Name) {
    exists id :: AsTarget(a, name) == {id} && a.fcmaps[id].noCopy && a.fcmaps[id].source == source
  }

  ghost predicate IsSnapshot(a: Array, name: Name) {
    exists source :: IsSnapshotOf(a, name, source)
  }

  /** How looking a snapshot's name up goes: it is read; a failed command hides, in silence, the
      object or the name of the volume that it is a snapshot of; or the lookup raises. */
  datatype Lookup = Clear | ObjectLost | OriginLost | Raises

  predicate Finds(a: Array, name: Name, lookup: Lookup) {
    name in a.volumes && lookup != ObjectLost
  }

  /** What the snapshot that is there is answered with. */
  ghost predicate ExistingSnapshotAnswer(
    a: Array, name: Name, sourceUid: Uid, lost: bool, response: SnapshotResponse)
    requires name in a.volumes
  {
    && (response.Snapped? ==> response == Snapped(a.volumes[name].uid, a.volumes[name].capacity))
    && (response.Snapped? <==> !lost && exists source :: HasUid(a, source, sourceUid) && IsSnapshotOf(a, name, source))
    && (response.NotSnapped? ==> response == NotSnapped(if IsSnapshot(a, name) then AlreadyExists else Internal))
  }

  /** Creating a snapshot: the one that is there, if it is one and of this volume, or a new one. */
  ghost predicate CreateSnapshotSpec(
    a: Array, name: Name, sourceUid: Uid, lookup: Lookup, fault: SnapshotFault, tries: seq<Removals>,
    response: SnapshotResponse, a': Array)
  {
    if lookup == Raises then a' == a && response == NotSnapped(Internal)
    else if Finds(a, name, lookup) then
      a' == a && ExistingSnapshotAnswer(a, name, sourceUid, lookup == OriginLost, response)
    else
      && (NameOf(a, sourceUid) == None ==> response == NotSnapped(NotFound) && a' == a)
      && forall source | HasUid(a, source, sourceUid) ::
           && a' == SnapshotResult(a, source, name, fault, tries).0
           && response ==
              if fault == AtCopy(NoFault) && name !in a.volumes then
                Snapped(a.nextUid, ConvertSize(a.volumes[source].capacity))
              else
                NotSnapped(Internal)
  }
}
