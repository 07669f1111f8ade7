# Verified model of the IBM block storage CSI driver

This project models the parts of the IBM block storage CSI driver whose correctness is not plain from
reading one function: the node plugin's handlers under the per-volume lock (Go), the connection pool
and the agent cache (Python), the controller's volume calls on an array with a graph of FlashCopy
mappings and host mappings (Python), and the formats that one half of the driver writes and the other
half reads. `dafny verify dfyconfig.toml` checks all of it.

Arrays, operating system commands and connections appear as small explicit states. Every command and
every read may fail: the machines (`NodeMachine`, `PoolMachine`, `PublishMachine`, `DeletionMachine`)
carry each step's outcome in the event, the operations on SVC and DS8K take what fails in them as
arguments, and a few methods choose freely (`Faults.Fault`) where a parameter admits failures. So a theorem that depends on
failures says which: most are equivalences between what the call keeps and what failed in it.

## How the modules fit together

- **Node plugin.** `NodeMachine` is a machine of atomic steps for any number of concurrent handlers
  over shared tables and the lock map; `NodeSafety` proves its safety over every interleaving,
  and `NodeProgress` that every handler ends. `NodeSpec` says what one uninterrupted call does and
  proves that the machine, run alone, does just that; `NodeAnswers` spells out every code and every
  table a call leaves; `NodeService` is the handlers' own imperative form, proved against the same
  specification; `NodeLaws` states what the calls are for. `DeviceIdentity` resolves a volume id to a device.
- **Pool and cache.** `PoolMachine` interleaves get and put at the granularity of queue operations
  and lock blocks; `ConnectionPool` is the class as one thread runs it, with its constructor and
  destructor; `AgentCache` is the dictionary of agents.
- **Controller.** `SvcArray` holds the array state and the effect of each mediator operation for any
  failures in it, `SvcLaws` their theorems, `SvcMediator` the mediator's command sequences, proved to
  have just these effects. `ControllerSpec` and `ControllerServer` do the same for the RPC methods,
  with `CreateLaws` for the theorems about CreateVolume and `ControllerLaws` for those about whole runs.
  `HostMapping` and `HostMappingLaws` treat publishing to hosts by serialized calls, `PublishMachine`
  by interleaved ones. `DeletionMachine` interleaves deletions and snapshots on SVC, and `DeletionSolo`
  shows that its calls, undisturbed, are those of the mediator. `Ds8k` is the DS8K mediator.
- **Formats.** `LunCodec`, `NodeId`, `PublishContext`, and `SvcListFormat` with `SvcListReader`, on
  the text primitives of `Text`.

## Main results

- Node: `NodeSafety.SafeExactlyWhenDevicesDistinct`, `NodeSafety.LockMapIsExact`,
  `NodeProgress.HandlersEnd`, `NodeSpec.SoloRunIsCall`, `NodeLaws.SuccessReachesGoal`,
  `NodeAnswers.StageAnswersExactly` and its four siblings.
- Pool and cache: `PoolMachine.PoolIsConserved`, `PoolMachine.StrandingNeedsRaiseOrFailedCreate`,
  `AgentCache.LookupAgreesWithRequest`.
- Controller: `ControllerLaws.RunsKeepIntegrity`, `ControllerLaws.OverreachingDeletes`,
  `ControllerLaws.ExpansionLeavesExactly`, `CreateLaws.CreateSucceedsExactly`,
  `CreateLaws.CreatedIsAsRequested`, `CreateLaws.RefusedLeavesArrayExactly`,
  `CreateLaws.ExistingAnswerIsRightExactly`, `DeletionMachine.SourcesSurviveExactly`,
  `PublishMachine.FreeExactlyWhenHostsAgree`, `HostMappingLaws.PublishAnswersExactly`,
  `Ds8k.RunsKeepIntegrity`, `Ds8k.CloneCopiesFromItsSource`.
- Formats: `LunCodec.RoundTripDomain`, `NodeId.NodeIdRoundTrip`, `PublishContext.IscsiContextRoundTrip`,
  `SvcListFormat.PrintedGroupsReadBack`, `SvcListReader.ReadAll`.

## What the proofs found

- A filesystem is never overwritten by the node plugin exactly when distinct volume ids resolve to
  distinct devices. The lock key is the whole id and the device key only its last part in lower case,
  so two ids such as `SVC:X` and `SVC:x` share a device and not a lock.
- A node call that reports success has shown the volume's own disk where it should, except in four
  cases, each with a witness: stage takes a path that something else is mounted on
  (`node/pkg/driver/node.go:170-176`), publish takes such a target, publish binds a staging path that
  does not show the volume (`node/pkg/driver/node.go:440-466` never looks), and a raw block publish
  drops the error of its mount, because the inner `err` shadows the outer one.
- A volume id with an empty last part gets whatever sole device the host shows, once the inquiry of
  that device fails: the first look drops the inquiry's error and compares the empty text.
- An activity check that raises leaks one unit of the pool's counter for good; nothing else does. A
  waiting thread can be stranded on an empty queue by a raising check or a failing create, and by
  nothing else; and it is handed its connection without an activity check. Pre-population gives one connection, whatever larger minimum is asked for, contrary to
  the comment at `controller/array_action/storage_agent.py:135`.
- On SVC a FlashCopy mapping whose removal failed is only logged; it dangles if the array then lets the
  volume go. A deletion that succeeds keeps the graph whole exactly when no failed removal is that of
  a mapping touching the volume.
- Neither CreateVolume nor CreateSnapshot on SVC is all or nothing. A read that fails just after
  mkvolume or mkfcmap ends the call with no clean-up (`controller/array_action/array_mediator_svc.py:371`,
  `:187-188`, `:495`), and the volume stays; a repeat with a source is then refused for good. These
  reads are the only such cases while the clean-up itself works.
- CreateSnapshot takes a name whose lookup failed for a free one. If the making of the volume then fails
  too, other than by one of the rejections the driver recognises, its clean-up is let loose on the volume
  that was there under that name: this is the one way in which a call deletes the source of a snapshot.
- When the name of a copy's source cannot be read, the copy is taken for a plain volume
  (`controller/array_action/array_mediator_svc.py:327-330`): it is refused to a repeat of its own request
  and handed out to a request for a plain volume of its size.
- Nothing locks a volume on the controller's side. A snapshot of a volume survives every interleaving of
  deletions and snapshots as long as none is mapped from a volume between the check of its deletion and
  its removal, and no clean-up is let loose on its volume; each such step endangers one.
- On DS8K one answer leaves a relation dangling: the last read of a snapshot
  (`controller/array_action/array_mediator_ds8k.py:564`) that says the target is not found, upon which
  the target is deleted with its relation in place. Nothing else does. A failed snapshot leaves its
  target behind except after recognised refusals.
- CreateVolume without a source is idempotent only for sizes that are a positive multiple of 512: the
  comparison uses the requested size, the array has the defaulted and rounded one. With a source it is
  idempotent unless the name of that source is lost in the repeat.
- The LUN codec is not injective below 2^32: k*2^16 reads back as k for k from 1 to 255. Its docstring
  speaks of sixteen digits; the code exchanges the halves of a 32-bit number.
- Publishes that interleave keep every volume on one host exactly when no volume is asked for on two.
  Otherwise what decides is whether two publishes of one volume to different hosts overlap between
  reading the mappings and making one.
- The docstring at `controller/common/node_info.py:11` describes a comma-separated id; the code and
  the model use the semicolon form with the ports before the iqn.

## Model

| member | source | states |
|---|---|---|
| NodeMachine.ResolveFsType | node/pkg/driver/node.go:267-281 | The type to mount is refused exactly when a requested type disagrees with the one on the disk; otherwise it is never empty and never differs from an existing one |
| NodeMachine.ExecConcat | node/pkg/driver/node.go:105-195 | A run of handler steps may be cut anywhere and continued from the state reached |
| NodeSafety.LockMapIsExact | node/pkg/driver/sync_lock.go:49-65 | Over every interleaving the lock map's keys are exactly the volumes with a handler between lock and unlock, and each has exactly one |
| NodeSafety.OnlyTheHolderReleases | node/pkg/driver/node.go:122-128 | A lock disappears only in the releasing step of the handler that holds it, never through a handler that was answered Aborted |
| NodeSafety.FormatReadNeverStale | node/pkg/driver/node.go:148-191 | Over every interleaving, a handler about to run mkfs finds its disk attached and still blank, and one about to mount finds the type it mounts |
| NodeSafety.DistinctDevicesAreSafe | node/pkg/driver/node.go:283-295 | With distinct devices no mkfs of any run ever meets a filesystem, of whatever type, and no continuation changes the type of one |
| NodeSafety.SharedDeviceIsReformatted | node/pkg/driver/device_connectivity/device_connectivity_helper_scsigeneric.go:139-142 | Any two ids with one device key have a run in which the second handler makes an ext4 over the first one's xfs |
| NodeSafety.SafeExactlyWhenDevicesDistinct | node/pkg/driver/node.go:267-295 | Freedom from overwriting, and freedom from changing a type, over all runs hold if and only if distinct ids resolve to distinct devices |
| NodeProgress.HandlersEnd | node/pkg/driver/node.go:105-128 | From every reachable state and whatever other handlers do, a handler that makes twenty steps of its own has ended, and a lock then on its volume is another's that is inside its section |
| NodeProgress.LocksAreAllFreed | node/pkg/driver/sync_lock.go:49-65 | Once no new handler comes and all have made their steps, everybody has ended and the lock map is empty |
| NodeSpec.SoloRunIsCall | node/pkg/driver/node.go:105-195 | The step machine, run with no other handler stepping, ends with the tables and the code of the call specification and the lock map as it was, for all five operations and all failures |
| NodeService.NodeService.AddVolumeLock | node/pkg/driver/sync_lock.go:49-59 | Succeeds exactly when the key was absent; the key is present afterwards and nothing else changes |
| NodeService.NodeService.RemoveVolumeLock | node/pkg/driver/sync_lock.go:61-65 | Removes exactly the key |
| NodeService.NodeService.NodeStageVolume | node/pkg/driver/node.go:105-195 | The tables and code it ends with are those the step machine reaches alone, from the parsed publish context on; the lock map is as before |
| NodeService.NodeService.FormatAndMount | node/pkg/driver/node.go:283-295 | Formats first only where the driver itself formats the type and the disk read blank, then lets the mounter probe, format if blank, and mount |
| NodeService.NodeService.NodeUnstageVolume | node/pkg/driver/node.go:297-378 | The same agreement with the step machine for unstage, the read of the device's slaves and the clearing of the stage info file included |
| NodeService.NodeService.NodePublishVolume | node/pkg/driver/node.go:380-461 | The same agreement for publish, with the dropped error of a raw block mount |
| NodeService.NodeService.NodeUnpublishVolume | node/pkg/driver/node.go:535-588 | The same agreement for unpublish |
| NodeService.NodeService.NodeExpandVolume | node/pkg/driver/node.go:596-659 | The same agreement for expand, which NodeAnswers.ExpandAnswersExactly spells out |
| NodeAnswers.StageAnswersExactly | node/pkg/driver/node.go:105-281 | The code of every stage call, for every request, host and failure: each refusal with its condition, and success exactly when the commands it needs work |
| NodeAnswers.StageLeaves | node/pkg/driver/node.go:130-295 | What a stage leaves of each table whether it succeeds or fails: the device once rescanned, a filesystem of the wanted type on a blank disk exactly if one of the two mkfs works, the mount exactly on success |
| NodeAnswers.BlankDiskGetsExt4 | node/pkg/driver/node.go:267-281 | A blank disk staged without a type ends up with ext4 |
| NodeAnswers.UnstageAnswersExactly | node/pkg/driver/node.go:297-378 | The code of every unstage call and what it leaves: unmounted once that works, detached exactly once the flush works |
| NodeAnswers.PublishAnswersExactly | node/pkg/driver/node.go:380-461 | The code of every publish call and what it leaves of paths and mounts, with the one mount error that is dropped |
| NodeAnswers.UnpublishAnswersExactly | node/pkg/driver/node.go:535-588 | The code of every unpublish call and what it leaves of paths and mounts |
| NodeAnswers.ExpandAnswersExactly | node/pkg/driver/node.go:596-686 | An expansion succeeds exactly for an id with the delimiter, a path, a volume that is not locked, a device that is there and working commands; each other case has its code; no table changes |
| NodeLaws.SuccessReachesGoal | node/pkg/driver/node.go:148-194 | On a host where mount points exist, whichever commands fail, a call that reports success shows this volume's own disk where it should (or no longer does), if and only if neither the staging path nor the target was taken, the volume was staged where it is published from, and no error of a raw block mount was dropped |
| NodeLaws.CallKeepsHost | node/pkg/driver/node.go:105-195 | Every call, whatever fails in it, keeps the two facts about hosts that the laws start from |
| NodeLaws.StageAcceptsForeignMount | node/pkg/driver/node.go:170-176 | A stage that reports success with another disk on the staging path and its own disk blank |
| NodeLaws.PublishAcceptsForeignTarget | node/pkg/driver/node.go:404-438 | A publish that reports success with another disk on the target |
| NodeLaws.PublishBindsUnstagedDirectory | node/pkg/driver/node.go:440-466 | A publish of a volume never staged that reports success and binds an empty directory |
| NodeLaws.BlockPublishReportsSuccessUnmounted | node/pkg/driver/node.go:445-460 | A concrete block publish that succeeds with nothing mounted |
| NodeLaws.SuccessSettles | node/pkg/driver/node.go:148-194 | A successful call leaves itself nothing to do, if and only if it did not drop the error of a block mount |
| NodeLaws.GoalIsFixpoint | node/pkg/driver/node.go:148-194 | A call whose goal already holds succeeds and changes nothing |
| NodeLaws.RepeatChangesNothing | node/pkg/driver/node.go:322-377 | Repeating a successful call, other than one that dropped a block mount's error, succeeds and changes nothing |
| NodeLaws.LifeLeavesNoTrace | node/pkg/driver/node.go:553-586 | Stage, publish, unpublish, unstage succeed, show the volume's disk at the target in between, and restore the device, mount and path tables; the disk keeps its filesystem |
| DeviceIdentity.WaitForDmToExist | node/pkg/driver/device_connectivity/device_connectivity_helper_scsigeneric.go:503-524 | Gives the first of five polls that fails or mentions the key, or nothing |
| DeviceIdentity.GetDmsPath | node/pkg/driver/device_connectivity/device_connectivity_helper_scsigeneric.go:451-487 | Gives the only device whose uuid contains the key, the empty path for none, and an error for several |
| DeviceIdentity.GetMpathDevice | node/pkg/driver/device_connectivity/device_connectivity_helper_scsigeneric.go:136-178 | For a key that is not empty it only ever gives a sole candidate that itself reports the key as its WWN; it finds one exactly when the first look accepts one, or the look after a reload that worked identifies one; otherwise it says exactly why not |
| DeviceIdentity.AcceptsOnlyWhatIdentifies | node/pkg/driver/device_connectivity/device_connectivity_helper_scsigeneric.go:145-156 | What the first look accepts has reported the key itself, on every host, if and only if the key is not empty |
| DeviceIdentity.EmptyKeyAcceptsAnything | node/pkg/driver/device_connectivity/device_connectivity_helper_scsigeneric.go:145-156 | A host on which the empty key is given the only device, whose inquiry failed |
| DeviceIdentity.DevicesAgreeExactlyWhenKeysDo | node/pkg/driver/device_connectivity/device_connectivity_helper_scsigeneric.go:136-178 | Corollary: two volume ids resolve to the same device exactly when their last parts agree up to case |
| DeviceIdentity.KeyIsLastPart | node/pkg/driver/device_connectivity/device_connectivity_helper_scsigeneric.go:139-142 | The key of a volume id is what follows its last colon, in lower case |
| DeviceIdentity.LineIsNameAndUuid | node/pkg/driver/device_connectivity/device_connectivity_helper_scsigeneric.go:463-474 | A line matches if and only if the key occurs in its second column, and stands for the device named in its first |
| DeviceIdentity.WaitedIsFirst | node/pkg/driver/device_connectivity/device_connectivity_helper_scsigeneric.go:503-524 | The wait ends with the first poll that fails or mentions the key, and empty without one |
| PoolMachine.PoolIsConserved | controller/array_action/array_connection_pool.py:39-120 | Over every interleaving the counter is queued plus held, checked and being created plus lost, within 0..max; every connection ever made is in exactly one place and disconnected at most once; put never discards |
| PoolMachine.EnqueuingFindsRoom | controller/array_action/array_connection_pool.py:95-120 | A thread putting back a connection it got is within the limit and meets a queue with room |
| PoolMachine.QueueIsFifo | controller/array_action/array_connection_pool.py:39-120 | The queue changes only at its ends: the first connection is taken, for a check or by a waiter without one, or one is put behind the others |
| PoolMachine.HoldingComesFrom | controller/array_action/array_connection_pool.py:39-93 | A thread comes to hold a connection if and only if its check answers yes, its create works, or it was waiting and one is queued |
| PoolMachine.LeakExactlyWhenCheckRaises | controller/array_action/array_connection_pool.py:54-70 | The counter equals queue plus users if and only if no activity check has raised |
| PoolMachine.StrandingNeedsRaiseOrFailedCreate | controller/array_action/array_connection_pool.py:72-93 | Over all runs whose troubles are among the given ones, no thread is left waiting on an empty queue with nobody under way, if and only if neither a raising check nor a failing create is among them |
| PoolMachine.WaitersAreProvidedExactlyWithoutTrouble | controller/array_action/array_connection_pool.py:72-93 | Over all such runs a thread waiting on an empty queue has some counted thread, if and only if no trouble at all is allowed: no dead connection, raising check or failing create |
| PoolMachine.WaiterCanBeStranded | controller/array_action/array_connection_pool.py:72-93 | A run with a failed create and no other trouble that leaves a thread waiting with the counter at zero |
| PoolMachine.RaisingStrands | controller/array_action/array_connection_pool.py:54-70 | A run with a raising check and no other trouble that leaves a thread waiting with the counter full |
| PoolMachine.DeadFoundUnprovides | controller/array_action/array_connection_pool.py:54-70 | A run with a dead connection and no other trouble in which nobody is counted while a thread waits |
| ConnectionPool.ConnectionPool.constructor | controller/array_action/array_connection_pool.py:12-25 | Pre-population leaves one queued connection for any positive minimum, unless a failing create raises out of it |
| ConnectionPool.ConnectionPool.Get | controller/array_action/array_connection_pool.py:39-93 | Closes exactly the dead prefix of the queue in order, then hands out the first live item, or a new one if the counter allows |
| ConnectionPool.ConnectionPool.Put | controller/array_action/array_connection_pool.py:95-120 | Queues the item, or closes it; only an excess over the limit is counted off |
| ConnectionPool.ConnectionPool.Drain | controller/array_action/array_connection_pool.py:27-33 | With nothing checked out it ends with counter zero and an empty queue, having closed every connection once, and the one it creates itself exactly when the last queued one was dead |
| ConnectionPool.PrePopulate | controller/array_action/storage_agent.py:129-139 | A pool that is built holds the minimum number of connections if and only if the minimum is at most one; it fails to be built only through a failing create |
| AgentCache.AgentStore.GetAgent | controller/array_action/storage_agent.py:71-94 | Reuses a cached agent with the same password, drops one with another, and leaves no entry when making a new one fails |
| AgentCache.AgentStore.ClearAgents | controller/array_action/storage_agent.py:101-111 | Empties the cache |
| AgentCache.KeyIsInjective | controller/common/settings.py:2 | The joined endpoint key is injective on all lists that splitting an address can give |
| AgentCache.KeysCollideOtherwise | controller/array_action/storage_agent.py:75 | Keys collide for endpoints with a comma and for the empty list |
| AgentCache.LookupAgreesWithRequest | controller/array_action/storage_agent.py:71-111 | After any run of lookups and clears, a lookup that answers gives exactly the requested user, endpoints and password, and the only agent for that user and endpoint list |
| AgentCache.AgentIsReused | controller/array_action/storage_agent.py:77-90 | The same agent is handed out again until a clear or a lookup with another password |
| AgentCache.AgentIsKept | controller/array_action/storage_agent.py:77-90 | From any lookup that has answered on, the same request is given the same agent and changes nothing, until a clear or another password |
| SvcArray.ConvertSize | controller/array_action/array_mediator_svc.py:320-325 | The least whole number of 512-byte blocks that holds the bytes |
| SvcMediator.SvcMediator.SafeDeleteFcMaps | controller/array_action/array_mediator_svc.py:519-526 | Refuses, with nothing changed, exactly when some mapping is a snapshot's or unfinished; otherwise removes the given mappings but for those whose removal fails |
| SvcMediator.SvcMediator.DeleteObject | controller/array_action/array_mediator_svc.py:528-538 | The array and outcome that the deletion law describes, for any failing removals |
| SvcLaws.DeleteRefusesOrRemoves | controller/array_action/array_mediator_svc.py:519-538 | A refused deletion changes nothing, for exactly two reasons; an unhindered one removes the volume and all mappings touching it; a hindered one removes less and nothing else |
| SvcLaws.DeleteRefusesExactly | controller/array_action/array_mediator_svc.py:519-535 | Refused as in use if and only if some mapping from the volume has copy rate 0 or is copying or stopped; as not found if and only if a snapshot has nothing mapped onto it |
| SvcLaws.DeleteLeavesFailing | controller/array_action/array_mediator_svc.py:499-538 | A deletion that is not refused leaves exactly the touching mappings whose removal fails, the one onto the volume stopped if that works, and goes through if and only if the volume's removal works and nothing was left or the array lets it go |
| SvcLaws.DeleteDanglesExactly | controller/array_action/array_mediator_svc.py:499-538 | Whatever fails in a deletion, it keeps integrity if and only if it is not one that goes through with a failed removal of a touching mapping; if it succeeds, exactly when the failing removals and the touching mappings are disjoint |
| SvcLaws.DeletedCopyDangles | controller/array_action/array_mediator_svc.py:499-517 | A finished copy whose deletion succeeds and leaves its mapping dangling |
| SvcMediator.SvcMediator.DeleteVolume | controller/array_action/array_mediator_svc.py:438-442 | The same by volume id; an unknown id, or one that cannot be read, changes nothing |
| SvcMediator.SvcMediator.DeleteSnapshot | controller/array_action/array_mediator_svc.py:573-579 | The same for snapshots, which must be the target of exactly one mapping |
| SvcMediator.SvcMediator.ExpandVolume | controller/array_action/array_mediator_svc.py:283-295 | The array and outcome of ExpandResult, which ControllerLaws.ExpansionAnswersExactly and ExpansionLeavesExactly spell out; an unknown id changes nothing |
| SvcMediator.SvcMediator.CopyToTargetVolume | controller/array_action/array_mediator_svc.py:398-417 | A started mapping, or after a failed command the unstarted one removed again; after a failed read of the target it stays |
| SvcLaws.CopyLeavesExactly | controller/array_action/array_mediator_svc.py:398-417 | A copying mapping that is no snapshot's, or nothing, or the unstarted mapping: exactly after a failed read, or a failed start whose clean-up fails too |
| SvcLaws.UnstartedIsRemovedExactly | controller/array_action/array_mediator_svc.py:540-545 | The clean-up removes a mapping if and only if it is the only one touching the volume, is not copying, and its removal works |
| SvcMediator.SvcMediator.CreateAndStartFcMap | controller/array_action/array_mediator_svc.py:468-497 | A started mapping, nothing, or an unstarted one, as the command, the read of the target or the start fails |
| SvcMediator.SvcMediator.RollbackCreateSnapshot | controller/array_action/array_mediator_svc.py:540-553 | Up to five tries, each removing the one unstarted mapping and then the target |
| SvcLaws.UndoRestores | controller/array_action/array_mediator_svc.py:540-553 | From every point where a command of the creation can fail, an unhindered clean-up gives back the objects there were |
| SvcLaws.UndoDanglesExactly | controller/array_action/array_mediator_svc.py:540-553 | The clean-up keeps integrity if and only if none of its tries lets the target go with a mapping touching it |
| SvcMediator.SvcMediator.CreateSnapshot | controller/array_action/array_mediator_svc.py:555-571 | The array and outcome that the laws of snapshots describe, for any failure on the way; a recognised rejection is not undone, on a taken name either; an unknown source changes nothing |
| SvcLaws.SnapshotAllOrNothing | controller/array_action/array_mediator_svc.py:493-571 | Under a free name nothing that was there is touched; with the clean-up unhindered it is the target with one started copy-rate-0 mapping or the objects as they were, if and only if no read fails after mkvolume or mkfcmap; after such a read the target stays, with the mapping if that was made |
| ControllerServer.ControllerServicer.CreateVolume | controller/controller_server/csi_controller_server.py:45-131 | The array and answer that the laws about CreateVolume describe, whatever fails, the reads of the new volume and the silent ones of an existing one included |
| CreateLaws.CreateSucceedsExactly | controller/controller_server/csi_controller_server.py:75-154 | Under a free name a volume is created if and only if the size is within 256 TiB, the lookup, the making and both reads of the new volume work, and with a source also its read and the copy, and the source exists, as a snapshot with a copy-rate-0 mapping onto it |
| CreateLaws.CreatedIsAsRequested | controller/controller_server/csi_controller_server.py:84-127 | The volume is under the uid and of the capacity answered, the least multiple of 512 that holds the request, beside all others; a clone is the target of one new copying mapping from its source that is no snapshot's |
| CreateLaws.CreateRefusesWith | controller/controller_server/csi_controller_server.py:84-160 | The code of every refusal under a free name with the clean-up unhindered |
| ControllerServer.ControllerServicer.CopyFromSource | controller/controller_server/csi_controller_server.py:133-154 | Every failure rolls back the volume made in the same call, a missing source twice; the error of a failed roll-back takes the place of its cause |
| CreateLaws.RolledBackTwice | controller/controller_server/csi_controller_server.py:138-150 | The path that deletes twice keeps integrity and leaves at most the new volume, whatever fails |
| CreateLaws.MissingSourceIsNotFound | controller/controller_server/csi_controller_server.py:138-150 | A clone of a missing source leaves the array's objects as they were and is answered NOT_FOUND, through the exception of the second roll-back, which misses the new volume and not the source |
| CreateLaws.MissingSourceRollsBackTwice | controller/controller_server/csi_controller_server.py:138-159 | For a missing source the new volume is gone if and only if some try of either roll-back works, and if none of the first does the answer is INTERNAL |
| ControllerServer.ControllerServicer.Rollback | controller/controller_server/csi_controller_server.py:156-159 | Up to five deletions, the last one's outcome; integrity is kept unless one succeeds |
| CreateLaws.RollbackDanglesExactly | controller/controller_server/csi_controller_server.py:156-159 | Rolling back keeps integrity if and only if none of its deletions dangles |
| CreateLaws.RollbackTriesAll | controller/controller_server/csi_controller_server.py:156-159 | An untouched volume is gone after a roll-back if and only if one of its tries works |
| ControllerServer.ControllerServicer.AnswerForExisting | controller/controller_server/csi_controller_server.py:161-193 | The answer that the next rows describe, where a lost name of the source volume makes a copy look like none |
| CreateLaws.ExistingAnswerIsRightExactly | controller/controller_server/csi_controller_server.py:96-111 | An existing volume is handed out exactly if it is what the request asks for, if and only if the name of its source volume is not lost or the volume is not misleading: the very copy asked for, or a copy of the size asked for without a source |
| CreateLaws.LostSourceNameMisleads | controller/array_action/array_mediator_svc.py:327-330 | A clone that is handed out for a plain volume, and refused to its own request, when the read of its source's name fails |
| ControllerServer.ControllerServicer.DeleteVolume | controller/controller_server/csi_controller_server.py:196-229 | The mediator's deletion, where a volume that is not there counts as deleted |
| ControllerServer.ControllerServicer.CreateSnapshot | controller/controller_server/csi_controller_server.py:314-367 | Answers an existing snapshot exactly if it is one of the volume asked for and that volume's name is read, and says whether it is a snapshot at all; otherwise makes one as the mediator does, also where the name's lookup was lost |
| ControllerLaws.ExistingSnapshotIsAnswered | controller/controller_server/csi_controller_server.py:333-347 | A snapshot in place is answered with its uid and capacity if and only if it is one of the volume asked for and that volume's name is read, and ALREADY_EXISTS else |
| ControllerLaws.ExistingVolumeIsNoSnapshot | controller/controller_server/csi_controller_server.py:333-347 | A volume in place that is no snapshot is answered INTERNAL |
| ControllerLaws.NewSnapshotIsAnswered | controller/controller_server/csi_controller_server.py:347-356 | A name taken for free gives a snapshot with one copy-rate-0 mapping from the source and its capacity, if and only if nothing fails and the name is free; NOT_FOUND without the source, and INTERNAL else |
| ControllerLaws.SnapshotIsIdempotentExactly | controller/controller_server/csi_controller_server.py:333-347 | Repeating a call that has made its snapshot changes nothing, unless the lookup is lost, and is answered the same if and only if the lookup is clear |
| ControllerServer.ControllerServicer.ControllerExpandVolume | controller/controller_server/csi_controller_server.py:409-459 | The array and answer that the next rows spell out |
| ControllerLaws.ExpansionAnswersExactly | controller/controller_server/csi_controller_server.py:427-459 | The answer to every expansion of an existing volume: what it has if that is enough, OUT_OF_RANGE above 256 TiB, FAILED_PRECONDITION if and only if a mapping touching it is a snapshot's or copying or stopped, INTERNAL for a failed command or read, and else the new capacity |
| ControllerLaws.ExpansionLeavesExactly | controller/array_action/array_mediator_svc.py:283-295 | An expansion that goes on removes every mapping touching the volume but those whose removal fails, and then sets the capacity if the command works; any other changes nothing |
| ControllerLaws.RunsKeepIntegrity | controller/array_action/array_mediator_svc.py:519-571 | Over every run of create, clone, snapshot, expand and delete, with every command and read free to fail, all arrays have integrity if and only if no call of the run dangles; then every source of a snapshot or unfinished copy stays if and only if no snapshot call deletes one through a clean-up let loose on it |
| ControllerLaws.StepDanglesExactly | controller/array_action/array_mediator_svc.py:499-571 | A call keeps integrity if and only if none of its deletions, roll-back tries or clean-up tries removes a volume while the removal of a mapping touching it fails |
| ControllerLaws.RemovingMappingsNeverDangles | controller/array_action/array_mediator_svc.py:499-526 | While the removals of mappings work, whatever else fails, no call dangles but an overreaching snapshot |
| ControllerLaws.OverreachingDeletes | controller/array_action/array_mediator_svc.py:540-571 | Whatever a snapshot call's clean-up meets with, every volume stays if and only if the call is not let loose on one (lookup lost, name taken, mkvolume failed without a recognised rejection); and sources of snapshots and unfinished copies stay if and only if that volume is none |
| ControllerLaws.StepProtectsExactly | controller/array_action/array_mediator_svc.py:519-571 | Of all calls with all failures, exactly a snapshot call let loose on such a source, with a try that gets as far as removing it, deletes one |
| ControllerLaws.OverreachingDeletesSource | controller/array_action/array_mediator_svc.py:540-571 | The source of a stopped snapshot deleted by such a call with nothing else failing and nothing left dangling |
| CreateLaws.CreateSparesWhatExists | controller/controller_server/csi_controller_server.py:93-159 | Whatever fails, CreateVolume changes no volume and no mapping that existed, and adds at most its own volume and one mapping onto it |
| CreateLaws.RefusedLeavesArrayExactly | controller/controller_server/csi_controller_server.py:93-154 | With the clean-up unhindered, a refused CreateVolume leaves the array's objects as they were if and only if it is not a read of the volume just made that failed; then exactly that volume stays |
| CreateLaws.RetryAfterFailedRead | controller/controller_server/csi_controller_server.py:93-127 | Repeating a call that ended in such a read changes nothing: refused with a source, and without one answered exactly for a positive multiple of 512 |
| CreateLaws.CreateDanglesExactly | controller/controller_server/csi_controller_server.py:133-159 | CreateVolume keeps integrity if and only if it is not one whose copy stops short and whose roll-back lets the volume go with the mapping onto it |
| CreateLaws.CreateIsIdempotentExactly | controller/controller_server/csi_controller_server.py:80-127 | A repeated request changes nothing, and is answered the same, with a source if and only if the source's name is not lost in the repeat, and without one if and only if its size is a positive multiple of 512 |
| CreateLaws.FindingIsIdempotentExactly | controller/controller_server/csi_controller_server.py:161-193 | A repeated request for a volume found in place changes nothing, and is answered the same if and only if the source's name is lost both times or never, or makes no difference |
| DeletionMachine.SourcesSurviveExactly | controller/array_action/array_mediator_svc.py:519-571 | Over every interleaving of deletions and snapshots in which no step intrudes, every snapshot has its volume; the next step leaves what is under way able to lose one, with no further intrusion, if and only if that step intrudes: maps from a volume between the check of its deletion (or the making that may be undone) and its removal, or fails to make a target under the name of a snapshot's volume |
| DeletionMachine.NeverExposedExactly | controller/array_action/array_mediator_svc.py:519-538 | Along a run no call may remove the volume of a snapshot unchecked if and only if no step intrudes |
| DeletionMachine.EndangeredExactlyWhenExposed | controller/array_action/array_mediator_svc.py:528-553 | From a state in which every snapshot has its volume, one can lose it without any further intrusion if and only if some call past its check is bound to that volume |
| DeletionMachine.LateSnapshotLosesItsVolume | controller/array_action/array_mediator_svc.py:519-538 | On every array with a volume that nothing touches, a run in which a snapshot of it and its deletion both go through |
| DeletionSolo.SoloDeletionIsDeleteResult | controller/array_action/array_mediator_svc.py:528-538 | A deletion of the machine that nothing disturbs ends with the array of the deletion law, for any failures |
| DeletionSolo.SoloSnapshotIsSnapshotResult | controller/array_action/array_mediator_svc.py:540-571 | A snapshot of the machine that nothing disturbs ends with the array of the snapshot law, for any failures and clean-up |
| ControllerLaws.ExpansionIsTight | controller/controller_server/csi_controller_server.py:427-453 | A successful expansion gives the old capacity untouched, or the least multiple of 512 not below the request and within the maximum; it never shrinks |
| HostMapping.FirstFreeLun | controller/array_action/array_mediator_svc.py:686-706 | The least free LUN of 0..511, and none exactly when all 512 are in use |
| HostMapping.FewUsedLeavesOneFree | controller/array_action/array_mediator_svc.py:697-704 | With fewer than 512 LUNs in use one is free |
| HostMapping.HostMapper.GetVolumeMappings | controller/array_action/array_mediator_svc.py:655-670 | A dictionary of exactly the hosts the volume is mapped to, each with a LUN it has there |
| HostMapping.HostMapper.MapVolume | controller/array_action/array_mediator_svc.py:708-738 | Maps at the LUN that was least free when it looked; otherwise adds nothing and says why: all 512 in use at the look, that LUN taken since, or a failed command |
| HostMapping.HostMapper.MapVolumeByInitiators | controller/array_action/array_mediator_abstract.py:17-65 | Idempotent on the same host, refused on another, otherwise one to ten attempts, of which all but the last met a LUN taken since their look and the last decides |
| HostMappingLaws.PublishAnswersExactly | controller/array_action/array_mediator_abstract.py:45-65 | No LUN if and only if all 512 were in use at the last look; LUN in use if and only if all of ten attempts collided; else the least free LUN of the last look, unless the command failed |
| HostMapping.HostMapper.UnmapVolumeByInitiators | controller/array_action/array_mediator_abstract.py:67-72 | Removes the volume's mappings on that host and nothing else, or changes nothing |
| HostMappingLaws.RunsKeepVolumesOnOneHost | controller/array_action/array_mediator_abstract.py:17-72 | Over every serialized run from an unmapped start, with others mapping in between, every volume is on at most one LUN of at most one host |
| HostMappingLaws.RepublishAnswersTheSameLun | controller/array_action/array_mediator_abstract.py:33-43 | After any run without its unpublish, publishing again gives the same LUN with no attempt and no change, and another host is refused |
| HostMappingLaws.UnpublishUndoesPublish | controller/array_action/array_mediator_svc.py:740-767 | Publish and unpublish restore the driver's mappings whatever others did in between |
| HostMappingLaws.UnpublishAnswersExactly | controller/array_action/array_mediator_svc.py:740-767 | Success leaves exactly the mappings that are not of this volume on this host; already unmapped if and only if there was none; a failure changes nothing |
| PublishMachine.WithoutOverlapOneHost | controller/array_action/array_mediator_abstract.py:33-49 | Over every interleaving of publishes, unpublishes and others in which no two publishes of one volume to different hosts overlap between read and map, every volume is on at most one host |
| PublishMachine.OverlappingPublishesMapTwice | controller/array_action/array_mediator_abstract.py:33-49 | From every state with such an overlap the threads that have read already can put the volume on two hosts |
| PublishMachine.EndangeredExactlyByOverlap | controller/array_action/array_mediator_abstract.py:33-49 | From a state with every volume on one host, the reads made so far can still lead to two hosts if and only if two publishes overlap |
| PublishMachine.SafeExactlyWithoutOverlap | controller/array_action/array_mediator_abstract.py:33-49 | The same after any run that was free of overlaps until then |
| PublishMachine.FreeExactlyWhenHostsAgree | controller/array_action/array_mediator_abstract.py:17-49 | All runs over a set of requests keep every volume on one host if and only if no volume is asked for on two |
| PublishMachine.PickIsLeast | controller/array_action/array_mediator_svc.py:686-706 | A thread picks the least LUN that is free on its host, and ends if and only if none is |
| PublishMachine.TakenLunIsPickedAnew | controller/array_action/array_mediator_abstract.py:45-62 | A LUN that was taken since the pick is picked anew, and one still free is mapped |
| PublishMachine.ReadsBeforePicking | controller/array_action/array_mediator_abstract.py:33-43 | A thread goes on from its read if and only if the volume is not mapped |
| Ds8k.Ds8kMediator.SafeDeleteFlashcopies | controller/array_action/array_mediator_ds8k.py:336-349 | Deletes all given relations, or nothing if one is a snapshot's or not synchronized; a failing command stops it |
| Ds8k.Ds8kMediator.DeleteObject | controller/array_action/array_mediator_ds8k.py:351-362 | Success removes the volume and every relation touching it; refusal changes nothing; failure, the last command's answer that the volume is not found included, never removes the volume |
| Ds8k.Ds8kMediator.ExpandVolume | controller/array_action/array_mediator_ds8k.py:378-386 | Success removes every relation touching the volume and sets the capacity, unless the array's refusal was passed over |
| Ds8k.DeleteOutcomes | controller/array_action/array_mediator_ds8k.py:336-362 | A deletion goes through only without a snapshot's relation or unfinished copy from the volume, is refused only with one, and a snapshot's needs a relation without background copy onto it |
| Ds8k.ExpandOutcomes | controller/array_action/array_mediator_ds8k.py:378-386 | With working commands an expansion is refused if and only if a relation touching the volume is a snapshot's or unfinished; else all of them go and the array's answer decides |
| Ds8k.Ds8kMediator.ExtendVolume | controller/array_action/array_mediator_ds8k.py:291-299 | Missing space and a missing volume are reported; any other refusal counts as success with nothing changed |
| Ds8k.Ds8kMediator.CreateFlashcopy | controller/array_action/array_mediator_ds8k.py:541-568 | The relation, or what each failure leaves: of the command, of reading its state, of deleting it again when that is invalid, and of the last read of the target |
| Ds8k.Ds8kMediator.CopyToExistingVolumeFromSource | controller/array_action/array_mediator_ds8k.py:301-314 | Enlarges the volume where the request was smaller and makes the relation; a failure leaves what was done |
| Ds8k.CloneCopiesFromItsSource | controller/array_action/array_mediator_ds8k.py:301-314 | A clone that succeeds has one new background relation from its source onto the volume, which is enlarged to the source's capacity where the request was smaller and the array agreed; nothing else changes |
| Ds8k.CloneSucceedsExactly | controller/array_action/array_mediator_ds8k.py:301-314 | A clone succeeds if and only if both volumes are there and differ, nothing copies onto the volume yet, the enlarging works or is silently refused, and the relation is made and valid, its last read working or giving nothing |
| Ds8k.Ds8kMediator.CreateSnapshot | controller/array_action/array_mediator_ds8k.py:570-578 | The array and outcome that the next rows describe, for any failure on the way and any number of failing deletions |
| Ds8k.SnapshotIsOfItsSource | controller/array_action/array_mediator_ds8k.py:531-578 | A snapshot that succeeds has a new target of the asked name and its source's capacity, and one relation without background copy onto it; nothing else changes |
| Ds8k.SnapshotFailsWith | controller/array_action/array_mediator_ds8k.py:570-603 | The error of every snapshot that fails |
| Ds8k.RunsKeepIntegrity | controller/array_action/array_mediator_ds8k.py:301-386 | Over every run of delete, expand, snapshot, clone and copying tracks, whichever commands and reads fail, every relation keeps both volumes and no volume is a target twice, if and only if no snapshot deletes its target over a last read answered not found; up to the first of these no source of an unsafe relation is deleted |
| Ds8k.SnapshotLeavesArrayExactly | controller/array_action/array_mediator_ds8k.py:541-578 | Corollary: a started snapshot leaves the array as it was if and only if the volume was refused, or the relation was refused in a recognised way and one of eleven deletions worked; and exactly which failures leave the target and the relation |
| Ds8k.LostAnswerDangles | controller/array_action/array_mediator_ds8k.py:564-577 | One snapshot whose last read is answered not found, and its dangling relation |
| LunCodec.SwapHalvesByDivision | controller/array_action/ds8k_rest_client.py:27-28 | The shifts and masks exchange the two low 16-bit halves, as division and remainder do |
| LunCodec.RoundTripDomain | controller/array_action/ds8k_rest_client.py:9-47 | Decoding undoes encoding if and only if the number is below 2^32 and not k*2^16 with k from 1 to 255, printing and parsing included |
| LunCodec.LostHighHalfReadsAs | controller/array_action/ds8k_rest_client.py:43-45 | Each of the 255 exceptions reads back as k |
| LunCodec.SmallIsTwoDigits | controller/array_action/ds8k_rest_client.py:9-26 | A number below 256 is written as two lower-case hexadecimal digits |
| LunCodec.LargeIsNumeralOfSwapped | controller/array_action/ds8k_rest_client.py:24-28 | Any other is written as the numeral of its exchanged halves, without padding |
| NodeId.GenerateNodeID | node/pkg/driver/node_utils.go:417-447 | The loop's text is the host name, the ports that fit in order, and the iqn if it fits; refused exactly when the first port, or a lone iqn, does not fit |
| NodeId.NodeIdRoundTrip | controller/controller_server/utils.py:395-407 | Decoding gives exactly what was packed if and only if the packed parts are free of the delimiters and the iqn is trimmed |
| NodeId.NodeIdIsBounded | node/pkg/driver/node_utils.go:417-447 | A generated id is at most 128 long if and only if the node has a port or its name is shorter than 128 |
| NodeId.OnlyPortsThatDoNotFitAreSkipped | node/pkg/driver/node_utils.go:430-435 | The kept ports are a subsequence, and a port is left out if and only if it did not fit after those kept before it |
| NodeId.NodeIdIs | node/pkg/driver/node_utils.go:417-447 | The id in full: the host name, the first port and the later ones that fit, and the iqn if and only if there is one that still fits in 128 |
| NodeId.RefusedExactly | node/pkg/driver/node_utils.go:422-445 | Refused if and only if the first port does not fit, or without ports the iqn |
| PublishContext.GeneratePublishContext | controller/controller_server/utils.py:422-447 | The map written, with later entries winning over earlier ones |
| PublishContext.GetInfoFromPublishContext | node/pkg/driver/node_utils.go:123-154 | What is read from any map at all, missing keys included |
| PublishContext.AtoiOfNumeral | node/pkg/driver/node_utils.go:128-131 | A decimal LUN reads back exactly when it is below 2^63 |
| PublishContext.IscsiContextRoundTrip | node/pkg/driver/node_utils.go:134-144 | For any distinct iqns, reserved names among them, connectivity, LUN and IPs read back as written if and only if every target is clean and no target has replaced the LUN or the connectivity by something else |
| PublishContext.OrdinaryTargetsRoundTrip | node/pkg/driver/node_utils.go:134-144 | With names of their own: if and only if the LUN fits, no iqn or IP has a comma, and no target lacks IPs |
| PublishContext.FcContextRoundTrip | node/pkg/driver/node_utils.go:145-150 | The same for Fibre Channel, if and only if the LUN fits and the list is not empty and free of commas |
| PublishContext.ReservedNameHidesTheLun | controller/controller_server/utils.py:434-436 | A target named like the LUN key replaces the LUN that is read |
| PublishContext.ReadsEntryByEntry | node/pkg/driver/node_utils.go:123-154 | What any context reads as: nothing without a numeric LUN, else its connectivity with the IPs of every listed iqn that has an entry, or every listed initiator, or none |
| PublishContext.AtoiOfSigned | node/pkg/driver/node_utils.go:128-131 | Signed numerals read within 64 bits, and the empty text does not |
| Text.StripCutsOnlySpace | controller/array_action/svc_cli_result_reader.py:33 | Stripping keeps one stretch of the text with only white space around it |
| SvcListFormat.LineRoundTrip | controller/array_action/svc_cli_result_reader.py:36-37 | A printed line reads back as its name and value if and only if some line can say them at all |
| SvcListFormat.GroupsConsumeEachItemOnce | controller/array_action/svc_cli_result_reader.py:47-74 | The groups written out in order are exactly the lines up to the first empty id |
| SvcListFormat.ReadConsumesEveryLine | controller/array_action/svc_cli_result_reader.py:25-42 | Reading fails exactly when the first line that counts is not an id line; every line is consumed once if and only if no id is empty |
| SvcListFormat.OneGroupPerId | controller/array_action/svc_cli_result_reader.py:66-74 | One object for each id line, in order |
| SvcListFormat.LineSays | controller/array_action/svc_cli_result_reader.py:33-37 | A line says the text before its first blank and the stripped rest, and nothing if it is blank |
| SvcListFormat.BlankLinesSayNothing | controller/array_action/svc_cli_result_reader.py:60-65 | A blank line anywhere makes no difference |
| SvcListFormat.FirstLineDecides | controller/array_action/svc_cli_result_reader.py:25-42 | The first line that says something is passed over as an id without value, is an error as another name, and else opens the first object |
| SvcListFormat.PrintedGroupsReadBack | controller/array_action/svc_cli_result_reader.py:19-77 | Printing objects as lines and reading them gives the same objects if and only if they are well formed |
| SvcListReader.Element.Add | controller/array_action/svc_cli_result_reader.py:97-106 | Appends to the values of that name only, through the switch from a bare value to a list |
| SvcListReader.Element.Get | controller/array_action/svc_cli_result_reader.py:88-89 | The bare value if there is one, the list if there are several, the default if there is none |
| SvcListReader.Element.GetAsList | controller/array_action/svc_cli_result_reader.py:91-95 | The values in order, however they are held |
| SvcListReader.DictIsDictOf | controller/array_action/svc_cli_result_reader.py:97-106 | An element whose lists repeat is determined by the values of each name |
| SvcListReader.Reader.InitFirstObjectId | controller/array_action/svc_cli_result_reader.py:25-42 | Fails exactly when reading is an error, and otherwise leaves all the groups ahead |
| SvcListReader.Reader.Next | controller/array_action/svc_cli_result_reader.py:47-74 | Hands out the first remaining group and leaves the others; ends exactly when none remains |
| SvcListReader.ReadAll | controller/array_action/svc_cli_result_reader.py:44-77 | Iteration yields exactly the groups of the pure reading, in order |
| SvcListReader.ReadHosts | controller/array_action/array_mediator_svc.py:623-634 | The hosts of a detailed listing, one for each group, with their port lists in order |
| SvcListReader.PrintedHostsReadBack | controller/array_action/array_mediator_svc.py:623-634 | A printed listing gives back each host's id, its name, bare or as a list, and its port lists |
| Text.SplitUndoesJoin | controller/controller_server/utils.py:395-397 | Splitting undoes joining if and only if the list is not empty and its parts are free of the separator |

## Left out

- gRPC, protobuf messages, logging, signal handling, Kubernetes labels, topology and secrets: plumbing without a property of its own.
- Array type detection, sockets, sg_inq output and sysfs rescans: only the outcome of such a command appears, as a choice.
- The XIV mediator: mostly error translation over a command line that is not shown.
- `array_connection_manager.py`: its lock is replaced at each construction, and the server uses the agents instead.
- NodeService.NodeService.NodeStageVolume: the contents of the stage info file, filesystem checks and stacked mounts are not modelled; a path has at most one mount. The context it starts from is the parsed one of PublishContext, and one that does not parse is a validation error. The other handlers share these limits.
- NodeService.NodeService.FormatAndMount: the mounter's own format-and-mount is a library; it is taken to probe, to format a blank disk and to mount, each free to fail. Mount options are not modelled. A failed mkfs leaves the disk blank; one that is killed by its time-out may in truth leave a signature of the type it was making.
- NodeService.NodeService.NodeExpandVolume: disk and filesystem sizes are not modelled, only the order of the steps and what they leave of the tables.
- NodeLaws.SuccessReachesGoal: the two facts about hosts it starts from, that mount points exist and that a disk shown at a directory has a filesystem, are the host's own; CallKeepsHost says that no call breaks them.
- DeviceIdentity.GetDmsPath: a line of multipathd always has its two columns, as the requested format gives; the Go code would panic on another. The path is "/dev/" and the trimmed name, without the further clean-up of path elements.
- DeviceIdentity.WaitForDmToExist: the sleeping between polls, and output of the multipath daemon that changes while it is read, are not modelled.
- PoolMachine.PoolIsConserved: time-outs are a choice of the waiting step; fairness and waiting times are not modelled. That each connection got is put once is the discipline of get_mediator.
- ConnectionPool.ConnectionPool.Drain: requires that nothing is checked out and that disconnecting works; with connections out, the loop does not end.
- AgentCache.AgentStore.GetAgent: closing the pool of a dropped agent, and detecting the array type, are not modelled; making an agent succeeds or fails by choice.
- SvcMediator.SvcMediator.DeleteObject: space efficiency, pools, code levels and warning messages are not modelled. Whether the array lets a volume go while mappings touch it is an argument. The mappings are read at once, not by one command for each, and a read that fails before anything is changed ends a call in one way, whatever its message.
- The operations on SVC and DS8K start from an array with integrity of its FlashCopy graph, which runs keep as long as the laws say; what a call does after a mapping has been left dangling is not modelled.
- ControllerServer.ControllerServicer.CreateVolume: the final name, prefixes and parameter validation are not modelled; requests are taken as validated. A refused command on the array is answered INTERNAL, without the finer codes for space, pools and names.
- ControllerServer.ControllerServicer.CreateSnapshot: the same; and a failed read of the source volume, which changes nothing, is not told apart from a missing one.
- DeletionMachine.SourcesSurviveExactly: it speaks of snapshots; clones are not among its calls, though their roll-back is a deletion like any other. Volumes are named, not looked up by id, and a deletion that fails is tried again as a new call.
- HostMapping.HostMapper.MapVolumeByInitiators: finding the host by its ports and choosing the connectivity are not modelled, nor the retries for a pool without connections, nor a failing read of the mappings, which ends the call before anything is changed; an unknown volume or host counts as a failed mapping.
- HostMappingLaws.RunsKeepVolumesOnOneHost: publish and unpublish calls do not overlap here; PublishMachine is about those that do.
- PublishMachine.FreeExactlyWhenHostsAgree: the bound of ten attempts on one LUN is left to HostMapper; a thread may give up after any attempt. An unpublish is one step, and others never map or unmap volumes that the driver manages.
- Ds8k.Ds8kMediator.CreateSnapshot: volumes of one pool only; the failures of creating the volume are told apart no further.
- Ds8k.Ds8kMediator.DeleteObject: tracks do not become synchronized while the operation runs, and a first read that fails is not told apart from one that finds nothing.
- LunCodec.RoundTripDomain: text with upper-case digits, signs, underscores or a prefix, which Python's int also takes, is not modelled.
- NodeId.GenerateNodeID: lengths are in characters; Go counts bytes, so the names are taken to be single-byte text.
- SvcListReader.ReadAll: input is a list of lines; breaking the text into lines is not modelled. White space is that of ASCII.
- SvcListReader.Element.GetAsList: the list handed out is a value; in Python it is the element's own list, so a caller that changed it would change the element.
