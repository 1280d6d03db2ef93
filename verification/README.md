# Verified model of the InfiniBox CSI driver's array protocols

The driver answers CSI and CSI-Addons requests by sequences of REST calls to storage arrays. Each call can
fail, and nothing makes a sequence atomic. This project models those sequences on explicit array states and
proves what whole runs of them do: what is left of a snapshot forest after deletions in any order, what
replicated pairs look like after any mixture of failed failovers, and so on.

Every operation that changes an array is a method on a class that holds the array's state. It is proved against
a function of the old state and, mostly, of a *script* that says which calls are answered (`Faults.dfy`); theorems about
these functions hold for every script, so for every point at which a request can stop.

| file | content |
|---|---|
| `Basics.dfy`, `Faults.dfy` | options, distinct lists, 64-bit integers; scripts of answered and lost calls |
| `Forest.dfy` | the volume forest, deferred deletion with every call answered, what a run of requests leaves |
| `VolumeDeletion.dfy` | `DeleteVolume` with lost calls: safety, success, retry |
| `SnapshotLocks.dfy`, `Snapshots.dfy` | lock parameters, snapshots, clones, and runs of everything that changes the forest |
| `VolumeDriver.dfy` | these operations call by call |
| `FileSystems.dfy` | deletion of NFS file systems |
| `Replication.dfy`, `Failover.dfy`, `ReplicationDriver.dfy` | replicated pairs: safety, failover, call by call |
| `ReplicationExamples.dfy` | two arrays with one pair, and requests that fall short on them |
| `VolumeGroups.dfy` | reconciliation of volume group members |
| `AddressRanges.dfy`, `ExportRules.dfy`, `RuleDeletion.dfy`, `ExportDriver.dfy` | export rules: coverage, lists, deletion by address, in-place updates |
| `Hosts.dfy`, `HostDriver.dfy` | hosts and LUNs |
| `Handles.dfy`, `Capacity.dfy`, `MountOptions.dfy`, `Paging.dfy` | handles, rounding, mount options, list reading |

## What the model takes for granted about the arrays

- A call that is not answered has no effect. Requests run one after the other.
- An array deletes what it is asked to delete: also a volume that has children, and a host that has LUNs.
- A snapshot is locked exactly if the expiry it is created with lies after the time the array reports.
- Ids are not reused. Names of volumes and of hosts are unique on an array, and a creation under a taken name is refused.
- A listing that loses its first page is acted on as empty (`Script.listing`); one that loses a later page is
  not empty, so it leads to the same decision as a complete one (`Paging.ReadAll`).
- Promoting a snapshot makes it a root. Metadata of an object that does not exist cannot be read.
- Creating a replica adds a SOURCE half locally and a TARGET half at the other end of the link. It is refused if one of the
  volumes is paired already, or if a remote volume of that name exists in another pool; a missing one is created.
  Deleting a replica removes both halves. Links are mutually inverse. The secret looked up for a link opens the array the
  link names.
- A volume is in at most one group; adding one that is in a group, or removing one that is not, is refused.
- `net.ParseIP` is a parameter (`Parser`) that yields the empty sequence for text that is no address.

## Where the code falls short of what it promises

Each of these is proved with a concrete state or input, named first, and with the exact condition under which the promise
holds or fails.

- A child listing that fails is only logged, and the volume is then removed with its children still there
  (`LostListingOrphans`; exactly when: `OrphansIffListingLost`, over runs `ForestIffOrderly`). A failed LUN listing deletes a host that
  is in use (`LostListingDeletesHost`; `BusyHostDeletedIff`, over runs `RunKeepsMappingsIff`).
- Metadata is deleted before the volume, and the parent's metadata is read after it. A call lost in between leaves a parent that
  waits for nothing, or takes its mark away; retrying the request reports success and the parent stays for ever (`LeakAfterRetry`;
  it can happen exactly to the last child of a marked parent: `RetryConvergesIff`; for a given script: `MarkedLeafIffStalled`, over
  runs `NoMarkedLeafIff`).
- Deleting an NFS file system that has children sends an empty metadata update and so never marks it: reclamation
  depends on the order of the requests (`ParentFirstDiffers`; `NfsReclaimedIffChildrenFirst`).
- A lost export deletion is passed over and the file system is removed under the export (`ExportOutlivesFileSystem`;
  `DeleteFileSystemComplete`).
- A lock of 400000000 years is accepted and expires in the past (`LongLockHasExpired`; `LockExpiryIff`).
- A Demote that failed after splitting the pair reports success when it is repeated, and leaves the pair split
  (`RepeatedDemoteLeavesSplit`; `DemoteRetry`). Promote looks its link up by name only after the pair is gone
  (`PromoteWithoutLinkName`; `PromoteTurnsIffLinkNamed`). Enable resolves the name of the remote pool on the local array
  (`EnableMissesPool`; `EnablePool`).
- A volume group request that names a volume as `007` succeeds once and fails when repeated, although the
  operation must be idempotent (`LeadingZeroIsNotRepeatable`; `RepeatedModify`).
- `DeleteExportRule` reads the list while it shifts it: of three rules for an address one stays, and the rule of another client is doubled
  (`RuleDoubled`; `RuleGoneIff`, `StoppedAfterIs`). Unpublishing an NFS volume asks for the deletion of `name$$address`, which no
  rule is written for (`UnpublishedNodeIsCovered`; `UnpublishKeepsRule`).
- A node whose address reads as a range that misses it gets one more equal rule with every publish (`RangeIsRepeated`;
  `AddNodeSound`, over runs `RunSoundIff`).
- A range rule whose lower end is no address covers everything up to its upper end (`MalformedRangeAdmits`; `RangeOfAnyText`).
- A publish for an export that cannot be read, such as one that does not exist, crashes (`MissingExportCrashes`; `AddNodeInExport`).
- A host whose tag could not be written is never reclaimed (`UntaggedHostExample`; `UntaggedHostStays`, `EmptyHostDeletedIff`).
- `vers=4.2` is accepted and gets `vers=3` beside it (`UnsupportedVersionPasses`; `VersionAddedIff`).
- Capacities above 2^63 - 2^30 come out negative unless they are whole GB (`LargestRequestIsNegative`; `TooSmallIffOverflow`).

## Model

| member | source | states |
|---|---|---|
| Forest.RequestRemovesChain | storage/common/deletevolume.go:41-83 | a request for a childless unlocked volume removes it and the maximal chain of ancestors that are marked and left childless, and changes nothing else |
| Forest.CollectUpChain | api/nfsapiclient.go:160-201 | the upward collection from any volume removes exactly such a chain, possibly empty |
| Forest.RequestSettles | storage/common/deletevolume.go:31-86 | one request takes the store from the residue of a set of requests to the residue of that set with the new request added |
| Forest.ResidueOfRequests | storage/common/deletevolume.go:31-86 | after any sequence of requests a volume is there if and only if some volume at or below it was not given up; the given-up ones among them gained the mark and kept everything else, other metadata included, and nothing else changed |
| Forest.OrderIndependent | storage/common/deletevolume.go:31-86 | two sequences that request the same volumes end in the same store |
| Forest.ReclaimedIffAllRequested | storage/common/deletevolume.go:31-86 | the store is emptied if and only if every volume was given up and unlocked |
| Forest.RequestKeepsInvariant | storage/common/deletevolume.go:49-83 | a request leaves no orphan, no cycle, no locked marked volume and no marked volume without a child |
| VolumeDeletion.SuccessIsExact | storage/common/deletevolume.go:31-86 | whatever was lost, a call that reports success had exactly the fault-free effect if and only if no lost child listing let it remove a volume with children; with all calls answered only a lock makes it fail |
| VolumeDeletion.StoppedCallIsSafe | storage/common/deletevolume.go:31-86 | wherever a call stops there is no cycle and locked volumes are untouched; there is no orphan, and nothing gone that the fault-free request keeps, if and only if it removes no volume with children |
| VolumeDeletion.StoppedCallSparesLocked | storage/common/deletevolume.go:41-43 | whatever is lost, child listings included, no locked volume is removed, retagged or marked |
| VolumeDeletion.StoppedCallRetags | storage/common/deletevolume.go:49-67 | whatever is lost, a volume that stays is as it was, or is the one asked for and only gained the mark, or lost its metadata in a call that reports failure |
| VolumeDeletion.LostRemovalClears | storage/common/deletevolume.go:60-67 | a call that is lost between the metadata and the volume leaves the volume there without any metadata |
| VolumeDeletion.ListingProtectsParents | storage/common/deletevolume.go:45-59 | while child listings answer no call, at any level, removes a volume with children |
| VolumeDeletion.RecursionMeetsNoLock | storage/common/deletevolume.go:41-79 | whatever is lost, child listings included, no level above the first finds its volume locked |
| VolumeDeletion.RunDeletesIsRunRequests | storage/common/deletevolume.go:31-86 | a run of calls that all report success is the run of the fault-free requests if and only if none of them removes a volume with children |
| VolumeDeletion.ListingProtectsRun | storage/common/deletevolume.go:45-59 | while child listings answer none of them does |
| VolumeDeletion.OrphanStays | storage/common/deletevolume.go:68-73 | a call that reports success never removes an orphan |
| VolumeDeletion.AnyOrderReclaims | storage/common/deletevolume.go:31-86 | calls that all report success, in any order and whatever is lost, child listings included, leave nothing if and only if they ask for every volume that was not marked already |
| VolumeDeletion.RetryConvergesIff | storage/common/deletevolume.go:31-86 | while child listings answer: every failed call, retried, reaches the fault-free result, and none leaves a marked volume without a child, if and only if the volume is not the unlocked, childless and only child of a marked parent |
| VolumeDeletion.FailureConverges | storage/common/deletevolume.go:31-86 | for any other volume every failed call, retried, reaches the fault-free result |
| VolumeDeletion.LostAfterLastChild | storage/common/deletevolume.go:68-73 | the call for such a last child that loses the read of the parent: the parent stays, marked and childless, and a retry finds nothing to do |
| VolumeDeletion.MarkedLeafIffStalled | storage/common/deletevolume.go:60-83 | whatever is lost, a call leaves a marked volume without a child if and only if at some level it stops between a marked volume becoming childless and that volume losing its mark |
| VolumeDeletion.SuccessLeavesNoMarkedLeaf | storage/common/deletevolume.go:60-83 | a call that reports success leaves none, whatever was lost |
| VolumeDeletion.LeakAfterRetry | storage/common/deletevolume.go:60-67 | a parent and child both reported as deleted of which the parent stays, unmarked |
| VolumeDeletion.LostListingOrphans | storage/common/deletevolume.go:45-48 | a successful call that leaves an orphan when the child listing is lost |
| VolumeDeletion.OrphansIffListingLost | storage/common/deletevolume.go:45-67 | a call leaves an orphan if and only if at some level a lost listing let it remove a volume with children |
| VolumeDriver.VolumeArray.DeleteVolume | storage/common/deletevolume.go:31-68 | the calls produce DeleteOutcome, and the recursion ends because the store shrinks |
| VolumeDriver.VolumeArray.DeleteMarkedParent | storage/common/deletevolume.go:68-85 | the loop over the parent's metadata and the recursive call produce ParentOutcome |
| VolumeDriver.VolumeArray.CommonCreateSnapshot | storage/common/createsnapshot.go:31-113 | lookup by name, lock parameter and creation produce SnapshotOutcome |
| SnapshotLocks.LockExpiryIff | storage/common/snapshot.go:37-81 | a text is accepted if and only if it reads as a positive count, a blank and a unit; the expiry is then that much later, less a multiple of 2^64, and exactly that time if and only if it fits 64 bits |
| SnapshotLocks.UnitIs | storage/common/snapshot.go:55-76 | the five units and their milliseconds, with months of four weeks and years of twelve months |
| SnapshotLocks.LongLockHasExpired | storage/common/snapshot.go:59-78 | the text `400000000 Years` is accepted with an expiry in the past |
| VolumeDriver.VolumeArray.CreateVolumeFromVolumeContent | storage/common/snapshot.go:83-152 | size and pool checks and the snapshot produce CloneOutcome |
| VolumeDriver.VolumeArray.FinishClone | storage/common/snapshot.go:153-198 | reading back, promotion and tagging produce FinishOutcome |
| Snapshots.SnapshotGrantedIff | storage/common/createsnapshot.go:36-100 | a snapshot is granted if and only if its three calls, four with a lock, are answered, and the name is free, the source exists and the lock means a positive count of a unit, or one call is and the name belongs to a snapshot of that source |
| Snapshots.LockLocks | storage/common/createsnapshot.go:76-94 | a lock whose expiry fits 64 bits does lock |
| Snapshots.CloneGrantedIff | storage/common/snapshot.go:106-194 | a clone is granted if and only if its six calls, seven with promotion, are answered, the source has the requested size and pool, and the name is free |
| Snapshots.FailedCloneStays | storage/common/snapshot.go:144-194 | the snapshot made for a clone is there afterwards, whether or not the clone succeeds, if and only if the first three calls were answered and nothing refused it |
| Snapshots.StepKeepsRegistered | storage/common/snapshot.go:137-178 | a snapshot, clone, deletion or expiring lock, wherever it stops and whatever is lost, keeps names unique, every volume's name and parent, and every locked volume |
| Snapshots.StepKeepsForestIff | storage/common/snapshot.go:137-178 | it keeps the forest if and only if it is no deletion that a lost child listing lets remove a volume with children |
| Snapshots.RunKeepsRegistered | storage/common/createsnapshot.go:69-95 | over any run, whatever is lost: names stay unique, volumes keep name and parent, no volume is locked and marked, and one locked at the start is unchanged at the end unless its lock expired |
| Snapshots.RunKeepsLayered | storage/common/createsnapshot.go:69-95 | no run closes a cycle, whatever is lost |
| Snapshots.ForestIffOrderly | storage/common/deletevolume.go:45-67 | all along a run there is no orphan and no cycle if and only if no lost child listing lets one of its deletions remove a volume with children |
| Snapshots.ListingIsOrderly | storage/common/deletevolume.go:45-59 | while child listings answer no run orphans a volume |
| Snapshots.RunLeavesNoMarkedLeaf | storage/common/deletevolume.go:68-83 | any run in which each deletion reports success or leaves the array as it was, whatever is lost, leaves no marked volume without a child |
| Snapshots.NoMarkedLeafIff | storage/common/deletevolume.go:60-83 | all along any run every marked volume has a child if and only if no deletion stops between taking the last child and taking the mark |
| Snapshots.RepeatedSnapshot | storage/common/createsnapshot.go:36-58 | after any run that leaves the snapshot there, the same request returns the same id and another source is refused, both without change |
| Snapshots.SnapshotHandleReadsBack | storage/common/createsnapshot.go:102-102 | the handle of a created snapshot parses to its id and protocol |
| FileSystems.SameCollector | api/nfsapiclient.go:160-201 | started at a marked volume, a DeleteVolume that reports success ends in the forest of DeleteParentFileSystem's specification if and only if it removes no volume with children; with all calls answered it does |
| FileSystems.NfsReclaimedIffChildrenFirst | storage/nfs/nfscontroller.go:455-520 | requesting every file system once empties the array if and only if none is locked and each child is requested before its parent |
| FileSystems.ParentFirstDiffers | storage/nfs/nfscontroller.go:484-496 | a parent and child, requested in that order: volumes are reclaimed, the NFS parent stays |
| FileSystems.FileSystemArray.DeleteFileSystemComplete | api/nfsapiclient.go:204-242 | it succeeds if and only if the file system exists and all calls but the export deletions are answered; then the file system is gone, and exactly those of its exports whose deletion was answered |
| FileSystems.ExportOutlivesFileSystem | api/nfsapiclient.go:214-222 | a file system that is deleted with success while its export stays |
| FileSystems.FileSystemArray.RemoveAndCollect | api/nfsapiclient.go:185-198 | wherever it stops it removes no file system outside the upward collection, clears metadata at most, and keeps all exports of the file systems that stay; with all calls answered the exports of the others are gone |
| FileSystems.FileSystemArray.DeleteParentFileSystem | api/nfsapiclient.go:160-201 | success is exactly the upward collection; a failure stops on the way and keeps the forest whole; exports of file systems that stay are kept |
| FileSystems.FileSystemArray.DeleteNFSVolume | storage/nfs/nfscontroller.go:455-520 | success is exactly NfsRequest; a failure removes no more than that; exports of file systems that stay are kept |
| Replication.CreateKeepsGood | iboxapi/replicas.go:261-285 | creating a replica keeps all pairs whole and one replica per volume and array |
| Replication.DeleteKeepsGood | iboxapi/replicas.go:324-365 | deleting a replica keeps all other pairs whole |
| Replication.StepKeepsGood | service/csiaddons/replication.go:150-522 | wherever Enable, Disable, Promote or Demote stops, all pairs are whole |
| Replication.RunKeepsGood | service/csiaddons/replication.go:150-522 | the same over any run of these on any arrays with any lost calls |
| Replication.OneSourcePerPair | service/csiaddons/replication.go:150-163 | in such a state a half is SOURCE exactly if its other half is TARGET, no volume has two halves on an array, and no third replica claims a half |
| Failover.DemoteTurns | service/csiaddons/replication.go:425-525 | Demote of a SOURCE turns the pair if and only if its seven calls are answered; otherwise it leaves the pair split if the first five were, and the old state if not |
| Failover.SameHalf | iboxapi/replicas.go:38-46 | two replicas that show alike have the same role, name, peer volume, link and pools |
| Failover.TurnTurns | service/csiaddons/replication.go:500-516 | a turn exchanges the two roles and keeps links, pools, names and all other pairs |
| Failover.PromoteAfterDemote | service/csiaddons/replication.go:275-308 | after a Demote a Promote on the other side changes nothing, whatever is lost, and succeeds if and only if its three calls are answered |
| Failover.FailoverRoundTrip | service/csiaddons/replication.go:425-525 | Demote here, Promote there, Demote there, with any calls lost: after the first success the pair is turned, the Promote changes nothing, and when the last one succeeds every array shows what it showed before |
| Failover.FailoverRoundTripAnswered | service/csiaddons/replication.go:425-525 | with all calls answered all three succeed |
| Failover.DemoteBack | service/csiaddons/replication.go:451-525 | Demote of a turned pair restores what every array showed when it succeeds, and leaves the turned pair or none when it fails |
| Failover.DemoteRetry | service/csiaddons/replication.go:434-439 | a repeated failed Demote that reports success, as it does when answered, turned the pair if and only if the first one had not split it |
| ReplicationExamples.RepeatedDemoteLeavesSplit | service/csiaddons/replication.go:490-516 | two arrays and a Demote that loses the creation: it leaves the pair split, and repeated it reports success and leaves it split |
| Failover.PromoteTargetStops | service/csiaddons/replication.go:275-394 | a failed Promote leaves the pair split if its first seven calls were answered and the old state if not; a successful one had all eight answered and created the pair anew over the first listed link with the remote system's name |
| Failover.PromoteTurnsIffLinkNamed | service/csiaddons/replication.go:371-383 | a Promote that succeeds turned the pair if and only if the pair's own link is the first in the list that has the remote system's name; if it is, an answered Promote succeeds |
| Replication.FirstLinkNamedIs | service/csiaddons/replication.go:371-378 | the link taken is the one at the first index with that name, and none if and only if there is none |
| Failover.NothingToTurn | service/csiaddons/replication.go:305-308 | a Promote of an unreplicated volume or a SOURCE, and a Demote of an unreplicated volume or a TARGET, change nothing and succeed if and only if answered |
| ReplicationExamples.PromoteWithoutLinkName | service/csiaddons/replication.go:371-383 | two arrays whose link is called otherwise: Promote takes the pair away and fails |
| Failover.EnablePairs | service/csiaddons/replication.go:142-185 | Enable makes the volume the SOURCE of a new pair over the last listed link, with a TARGET over there, and changes no other replica |
| Failover.EnableGrantedIff | service/csiaddons/replication.go:125-185 | Enable succeeds if and only if its five calls are answered, volume and pool name exist here, the last listed link to the remote system is up, the volume is unreplicated, and the remote system has no volume of its name or an unreplicated one in the pool of that id |
| Replication.LastLinkToIs | service/csiaddons/replication.go:612-617 | the link to a remote system is the one at the last index, and none if and only if there is none |
| Failover.DisableSplits | service/csiaddons/replication.go:227-239 | Disable takes exactly the volume's pair away, from either side, if its three calls are answered, and changes nothing if not |
| Failover.DisableNeedsReplica | service/csiaddons/replication.go:227-232 | Disable of a volume without replica fails and changes nothing |
| Failover.EnableDisable | service/csiaddons/replication.go:165-239 | Enable followed by a Disable that succeeds, as it does when answered, leaves every array with the replicas it had |
| ReplicationExamples.EnableMissesPool | service/csiaddons/replication.go:134-177 | two arrays that give one pool name different ids: Enable succeeds and the new volume is not in the pool of that name |
| ReplicationDriver.ReplicationServer.ValidateLink | service/csiaddons/replication.go:606-636 | the last listed link to the system, if it has an id and is up |
| ReplicationDriver.ReplicationServer.EnableVolumeReplication | service/csiaddons/replication.go:125-190 | the calls and loops produce Enable |
| ReplicationDriver.ReplicationServer.DisableVolumeReplication | service/csiaddons/replication.go:219-245 | the calls produce Disable |
| ReplicationDriver.ReplicationServer.PromoteVolume | service/csiaddons/replication.go:275-308 | the calls up to the decision produce Promote |
| ReplicationDriver.ReplicationServer.PromoteTargetVolume | service/csiaddons/replication.go:310-394 | the rest of the calls and the loop over the links produce PromoteTarget |
| ReplicationDriver.ReplicationServer.DemoteVolume | service/csiaddons/replication.go:425-449 | the calls up to the decision produce Demote |
| ReplicationDriver.ReplicationServer.DemoteSourceVolume | service/csiaddons/replication.go:451-525 | the rest of the calls produce DemoteSource |
| VolumeGroups.ModifyConverges | service/csiaddons/volumegroup.go:306-398 | wherever the call stops, requested members stayed, only requested volumes came in, and nobody left before everybody requested was in; success leaves exactly the requested volumes |
| VolumeGroups.ModifyCalls | service/csiaddons/volumegroup.go:368-405 | a successful request for some volumes made two calls for each volume added or removed and three others, the last of them the final listing, and lost none |
| VolumeGroups.ModifySucceedsIff | service/csiaddons/volumegroup.go:326-398 | while the array answers, the request succeeds if and only if each id prints a member or is the number of an existing ungrouped volume, named once |
| VolumeGroups.RepeatedModify | service/csiaddons/volumegroup.go:232-242 | a repeat of a successful request changes nothing, answered or not, and when answered succeeds if and only if all ids are written canonically |
| VolumeGroups.LeadingZeroIsNotRepeatable | service/csiaddons/volumegroup.go:330-349 | the id 007 succeeds once and then fails |
| VolumeGroups.VolumeGroupServer.FindVolumesToAdd | service/csiaddons/volumegroup.go:328-349 | the nested loop yields the numbers of the ids that print no member |
| VolumeGroups.VolumeGroupServer.FindVolumesToRemove | service/csiaddons/volumegroup.go:351-366 | the nested loop yields the members whose printed form was not requested |
| VolumeGroups.VolumeGroupServer.ModifyVolumeGroupMembership | service/csiaddons/volumegroup.go:285-424 | the calls and loops produce Modify; the reported members are those of the group, and none for an empty or failed request |
| AddressRanges.RangeIsInterval | api/nfsapiclient.go:27-41 | for well-formed addresses the byte comparisons decide membership in the interval of integers |
| AddressRanges.MappedOrder | api/nfsapiclient.go:31-34 | IPv4 addresses in mapped form are ordered by their 32-bit numbers |
| AddressRanges.RangeOfAnyText | api/nfsapiclient.go:27-34 | what a rule with a dash covers, for any text: its first two parts are the ends and the rest is ignored; an unreadable lower end counts as the lowest address, an unreadable upper end covers no address, an unreadable client is covered if and only if the lower end is unreadable |
| AddressRanges.MalformedRangeAdmits | api/nfsapiclient.go:27-34 | 10.0.0.x-10.0.0.9 covers 10.0.0.1 |
| ExportRules.AddNodeCovers | api/nfsapiclient.go:56-89 | after adding an address it is covered, no coverage is lost, and adding it again changes nothing |
| ExportRules.AddNodeCoversIff | api/nfsapiclient.go:27-80 | for any text: covered afterwards if and only if it was before, or does not read as a range that misses it |
| ExportRules.AddNodeIdleIff | api/nfsapiclient.go:56-80 | an addition leaves the list alone if and only if some rule in it is for everybody, for the address itself or for a range that contains it; otherwise the new rule stands at its end |
| ExportRules.AddNodeSound | api/nfsapiclient.go:56-80 | an addition keeps clients distinct if and only if the address was covered or had no rule, which always holds for one that does not read as a range |
| ExportRules.RangeIsRepeated | api/nfsapiclient.go:27-80 | the text 10.0.0.1-10.0.0.9 added a second time repeats its rule |
| ExportRules.DeleteNodeSound | api/nfsapiclient.go:117-152 | on a list without repetitions exactly the rules for the other clients stay, unchanged and in order, or the default rule when there are none |
| ExportRules.CleanSound | storage/nfs/cleanupnfsperm.go:91-134 | cleanup leaves exactly the rules for the other clients, unchanged and in order, and deletes the export if and only if there are none |
| ExportRules.RunKeepsRules | api/nfsapiclient.go:56-146 | over any run of additions, deletions and cleanups, answered or not, an export's list is not empty |
| ExportRules.RunSoundIff | api/nfsapiclient.go:56-146 | all along a run the list repeats no client if and only if no answered addition is for a client that has a rule which does not cover it |
| ExportRules.RunKeepsSound | api/nfsapiclient.go:56-146 | so it repeats no client when no added text contains a dash |
| RuleDeletion.UnpublishKeepsRule | storage/nfs/nfscontroller.go:578-605 | unpublishing leaves every rule for the address that publishing added one for, and the whole list if and only if no rule names the node id itself |
| RuleDeletion.UnpublishedNodeIsCovered | storage/nfs/nfscontroller.go:578-605 | the node `n$$10.0.0.9` has its rule after it was unpublished |
| RuleDeletion.StoppedAfterIs | api/nfsapiclient.go:102-146 | exactly what is stored after any number of answered deletions: of m rules for the address the last (m + 1) / 2 go and copies of the last rule fill the list up, unless the last rule is for the address itself or the only one |
| RuleDeletion.DeleteRuleLeaves | api/nfsapiclient.go:95-146 | the rules for the others stay in order with the last one perhaps repeated, and m - 1 or m / 2 rules for the address stay |
| RuleDeletion.RuleGoneIff | api/nfsapiclient.go:95-146 | no rule for the address is left if and only if it had at most one and was not a lone `*`; where it had at most one the deletion is exact |
| RuleDeletion.RuleDoubled | api/nfsapiclient.go:102-110 | the list a, a, a, b becomes a, b, b |
| ExportDriver.ExportArray.RemoveIndex | api/nfsapiclient.go:244-246 | the rest of the array moves down by one in place |
| ExportDriver.ExportArray.AddNodeInExport | api/nfsapiclient.go:44-92 | the stored list becomes AddNode of it or stays; an export that cannot be read is dereferenced |
| ExportDriver.MissingExportCrashes | api/nfsapiclient.go:49-52 | the addition to an export that does not exist crashes |
| ExportDriver.ExportArray.DeleteNodeFromExport | api/nfsapiclient.go:117-152 | the array is shifted in place and the stored list becomes DeleteNode of it |
| ExportDriver.ExportArray.DeleteRuleFromExport | api/nfsapiclient.go:102-110 | reading the array while deletions shift it stores exactly DeleteRule, or StoppedAfter when a call is lost |
| ExportDriver.ExportArray.DeleteExportRule | api/nfsapiclient.go:95-114 | that holds for every export of the file system, and no other export changes; a lost call ends it, with the exports before that one done and those after it untouched |
| ExportDriver.ExportArray.CleanExport | storage/nfs/cleanupnfsperm.go:91-134 | one export is cleaned or untouched, and no other one changes |
| ExportDriver.ExportArray.CleanupNFSPerms | storage/nfs/cleanupnfsperm.go:58-135 | nothing changes unless the volume is known not to be mounted; then every export of the file system is cleaned or untouched, all are cleaned if all calls are answered, it ends early only at an export whose deletion was lost, and no other export changes |
| Hosts.PublishKeeps | storage/fc/fccontroller.go:251-389 | publishing keeps all hosts and mappings, and on success reports the LUN the volume is mapped at |
| Hosts.FirstPublishIff | storage/common/common.go:189-220 | a publish for a host that is not there creates it with the first two calls and tags it with the third, and maps the volume if and only if all six are answered, the volume exists and the limit allows one |
| Hosts.LaterPublishIff | storage/fc/fccontroller.go:263-389 | a publish for a host that is there succeeds if and only if its calls are answered, the volume exists, and it is mapped already or the limit is not reached; then exactly that mapping is added |
| Hosts.UnpublishKeeps | storage/common/unpublishvolume.go:27-57 | unpublishing, whatever is lost, keeps hosts of other names and hosts the driver did not create; on success the volume is unmapped and a host it created has a LUN left |
| Hosts.MappingsKeptIff | storage/common/unpublishvolume.go:27-57 | a request keeps every mapping it does not name if and only if it does not delete a host in use |
| Hosts.BusyHostDeletedIff | storage/common/unpublishvolume.go:44-53 | a host with another volume mapped is deleted if and only if the driver created it, the LUN listing is lost and the other calls are answered |
| Hosts.EmptyHostDeletedIff | storage/common/common.go:414-439 | a successful unpublish that leaves the host without LUN removes it if and only if the driver created it |
| Hosts.UnpublishIs | storage/common/unpublishvolume.go:27-57 | while the array answers an unpublish succeeds, takes the one mapping away and, if it was the last, the host too if the driver created it |
| Hosts.UnpublishOfNobody | service/controller.go:430-446 | an unpublish for a host that is not there changes nothing and succeeds if answered |
| Hosts.CreatedHostIsReclaimed | storage/common/common.go:199-213 | a host that a successful publish created is gone after a successful unpublish of that volume, whatever was lost |
| Hosts.RunIsSafe | storage/common/common.go:189-220 | over any run with any lost calls hosts the driver did not create stay and a host it created is empty only if its last request failed; unless its own host is deleted while in use, a mapping stays until it is unpublished |
| Hosts.RunKeepsMappingsIff | storage/common/unpublishvolume.go:44-53 | every request of a run keeps the mappings it does not name if and only if none deletes a host in use |
| Hosts.ListingIsCareful | storage/common/unpublishvolume.go:44-53 | while LUN listings answer no run deletes a host in use |
| Hosts.RepeatedPublish | storage/common/common.go:140-151 | publishing again after any other requests that do not delete this host while in use returns the same LUN and changes nothing |
| Hosts.LostListingDeletesHost | storage/common/unpublishvolume.go:44-53 | a host in use that is deleted when the LUN listing is lost |
| Hosts.UntaggedHostStays | storage/common/common.go:199-213 | a host whose tag was not written stays through every later run |
| Hosts.UntaggedHostExample | storage/common/common.go:199-213 | such a publish on an array without hosts |
| HostDriver.HostArray.FindOrCreateHost | storage/common/common.go:189-220 | the calls produce ValidateHost |
| HostDriver.HostArray.MapVolumeToHost | storage/common/common.go:140-151 | a new mapping gets a new LUN, an existing one is looked up |
| HostDriver.HostArray.UnmapVolumeFromHost | storage/common/common.go:153-171 | the mapping goes; a missing host or LUN counts as success |
| HostDriver.HostArray.HostCleanup | storage/common/common.go:414-439 | the host goes if and only if it is tagged and both calls are answered |
| HostDriver.HostArray.ControllerPublishVolume | storage/fc/fccontroller.go:263-389 | the calls produce Publish |
| HostDriver.HostArray.ControllerUnpublishVolume | service/controller.go:430-446 | the calls produce Unpublish |
| HostDriver.HostArray.CleanIfEmpty | storage/common/unpublishvolume.go:44-53 | the second listing and the cleanup produce ListAndClean |
| Handles.AtoiOfItoa | storage/common/common.go:501-504 | a printed 64-bit integer reads back |
| Handles.AtoiIff | storage/common/common.go:501-504 | exactly the texts of an optional sign and digits are read as numbers, those of 64 bits, with their decimal value |
| Handles.ItoaCanonical | storage/common/createsnapshot.go:102-102 | a number is printed without leading zeros, and with a minus sign if and only if it is negative |
| Handles.ParseOfPrint | storage/common/common.go:462-507 | parsing inverts the printed handle, for tree quotas too |
| Handles.ParseIff | storage/common/common.go:462-507 | exactly the texts of a number, for `nfs_treeq` two with `#` between them, then `$$` and a protocol name without `$$` are handles |
| Handles.CutNoneIff | storage/common/common.go:462-507 | a separator is found if and only if it stands somewhere in the text |
| Handles.PrintInjective | service/controller.go:153-153 | two handles that print alike are equal |
| Handles.ReprintSame | storage/common/common.go:462-507 | every accepted text reprinted canonically parses to the same handle |
| Handles.DriverProtocols | common/types.go:60-67 | all protocols of the driver can be printed |
| Capacity.RoundUpIsCeiling | helper/roundup.go:24-61 | up to 2^63 - 2^30 the result is whole, fits, is at least the request and less than 1 GiB more, and the least whole number of GiB where it rounds |
| Capacity.RoundUpCases | helper/roundup.go:27-57 | below 1 GB the result is 1 GB, a whole number of GB or GiB is kept, anything else becomes the next whole number of GiB in 64 bits |
| Capacity.RoundUpIdempotent | helper/roundup.go:24-61 | rounding twice is rounding once |
| Capacity.TooSmallIffOverflow | helper/roundup.go:55-57 | the result is below the request if and only if the request is above 2^63 - 2^30 and not whole GB |
| Capacity.LargestRequestIsNegative | helper/roundup.go:55-57 | the largest request comes out as the smallest integer |
| Capacity.ExpandToOwnSize | service/controller.go:752-766 | expanding a created volume to its own size keeps it, or grows it to 1 GiB |
| Capacity.ExpandCovers | service/controller.go:752-766 | expanding gives a whole number of GB or GiB, at least the request and at least 1 GiB |
| Capacity.CloneOfRoundedSource | storage/common/snapshot.go:113-118 | a clone requested at the rounded size of its source passes the size check and is created with that size and pool, a root if and only if it is promoted, and nothing else changes |
| MountOptions.NormalFormIsComplete | storage/common/permissions.go:226-258 | the result names a supported version and hard or soft, starts with the given options in order, and adds only the defaults |
| MountOptions.NormalFormMembers | storage/common/permissions.go:226-258 | exactly what is in the result: the given options, vers=3 if none of six version texts is given, hard if neither hard nor soft is, and ro at the end if asked for |
| MountOptions.RefusedIff | storage/common/permissions.go:213-224 | options are refused if and only if in one of them the digits after the first vers= are neither 3 nor 4 |
| MountOptions.NormaliseIdempotent | storage/common/permissions.go:213-261 | normalising twice is normalising once, read-only or not |
| MountOptions.MinorVersionIgnored | storage/common/permissions.go:214-224 | only the digits right after vers= decide acceptance |
| MountOptions.UnsupportedVersionPasses | storage/common/permissions.go:214-236 | vers=4.2 is accepted and vers=3 put beside it |
| MountOptions.VersionAddedIff | storage/common/permissions.go:226-236 | version 3 is added if and only if no given option is a recognised version |
| MountOptions.UpdateNfsMountOptions | storage/common/permissions.go:213-261 | the successive loops produce Normalise |
| Paging.ReadAll | iboxapi/volumes.go:374-408 | every item once and in order after max(1, pages) requests; a lost request leaves the pages before it |
| Paging.PagesTotalIs | iboxapi/volumes.go:374-408 | pages hold 1000 items: enough for all, and no page too many |

## Left out

- VolumeDriver.VolumeArray.CommonCreateSnapshot: an array that reports no NTP status, which the original indexes, is not modelled.
- ExportDriver.ExportArray.CleanupNFSPerms: the mount test is a parameter, and the lookup of the secret before it is left out.
- FileSystems.FileSystemArray.DeleteFileSystemComplete: errors that the array reports for an export or metadata it does not have do not occur in sequential runs and are not modelled.
- HostDriver.HostArray.ControllerPublishVolume: access modes and ports are not modelled, and the host name is given (`DetermineHostName` only splits it off the node id).
- ReplicationDriver.ReplicationServer.PromoteVolume: requires a good set of arrays, which every run keeps; so does DemoteVolume.
- MountOptions.UpdateNfsMountOptions: the slice is a sequence, so the compaction in place is not an update of a shared array.
- `CreateVolumeGroup` and `DeleteVolumeGroup`: plain sequences of calls without a property beyond their steps.
- Volume creation from scratch, tree quotas, networking, mounting, multipath and node operations.
- HTTP, JSON, credentials and the Kubernetes clients.
- Metrics, logging, events, COSI and the test harnesses.
- Concurrent requests and timing: requests are sequential steps, sleeps and retries inside them are not modelled.
