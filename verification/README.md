# Verified model of the KaaS control plane

A Dafny model of the decision-making core of KaaS-Demo, a control plane that runs Kubernetes
clusters on a hypervisor: what it may do to a broken node, which desired state it admits, and the
smaller algorithms those two lean on. `dafny verify dfyconfig.toml` checks the whole project.

The code that updates things in place is modelled in place. `Repair.ClusterRepair`, `Apps.App`,
`Snapshots.Shelf`, `Addons.ClusterAddons`, `Memberships.Account` and `Events.Broker` are classes,
and loops are loops. Each method is proved to compute a function of its inputs or of the old state.
What the platform promises is then proved about those functions, mostly over every run.

| file | what it models |
|---|---|
| `Repair.dfy`, `RepairRuns.dfy` | observing, remembering and acting on node faults; how the memory relates to the full history |
| `RepairGuarantees.dfy` | what repair promises over every run |
| `RepairLimits.dfy`, `RepairSuspension.dfy` | the two documented promises, backoff and suspension, that hold only under a condition on the policy |
| `Nodes.dfy`, `Disks.dfy`, `DiskRows.dfy` | the desired node set and its names, extra disks and how their rows move |
| `Netpool.dfy`, `Addressing.dfy`, `Quota.dfy` | addresses of a shared network, and what clusters cost |
| `Admission.dfy`, `AdmissionRuns.dfy` | the admission state machine and the invariant of all its runs |
| `AdmissionGuarantees.dfy`, `AddressRuns.dfy` | what that invariant means to an operator |
| `Orders.dfy` | requests that are admitted for certain, from which witness runs are built, and the least a cluster costs |
| `CapacityRuns.dfy`, `DiskRuns.dfy` | capacity while clusters are on their way out, and disk removals that a mount undoes |
| `TenantGuarantees.dfy`, `BudgetRuns.dfy` | what admission promises each tenant: names, pool shapes, and a budget that is kept over every run |
| `HostnameRuns.dfy` | whether the nodes of a reachable cluster have usable hostnames |
| `App.dfy` | the admission operations themselves, step by step |
| `Snapshots.dfy` | backups: which one a recovery uses and which ones retention deletes |
| `Fingerprint.dfy`, `FingerprintLists.dfy` | the text that stands for the set of registered storage disks, and which lists it tells apart |
| `Addons.dfy`, `AddonRuns.dfy` | the add-on set reconciler, its two callers, and runs of their edits |
| `Memberships.dfy` | the two-writer membership list |
| `Events.dfy`, `EventRuns.dfy` | the in-memory event broker and what each subscriber sees |
| `Catalog.dfy`, `Maintenance.dfy` | the upgrade chain and the weekly maintenance window |
| `Text.dfy`, `Sorting.dfy`, `Lists.dfy`, `Wrappers.dfy` | strings, sorting by a key, filtering, `Option` and `Result` |

## How runs are modelled

**Repair.** A run is a sequence of ticks with non-decreasing time, arbitrary observations and a
fixed policy. Each Ready tick observes, merges, decides and records, in that order; the repair
itself is the environment's business. Times are integers. `Duration` is a 64-bit integer: the
backoff loop is shown not to overflow, and the flap window wraps as it does in the original. A tick
that cannot see the cluster is recorded as such, since a merge treats it like good news.

**Admission.** The state is the list of stored clusters. A step is one call under the admission
lock (create, pool edit, disk add, disk remove), a delete, or one of the reconciler's own writes
(phase change, device report, mount, release, end of a deletion). A refused step changes nothing.
What other components contribute to a decision is part of the request: the minted id, whether the
add-on selection includes longhorn, the owner's budget, and the derived network of a backend
without a shared one.

**Prices.** Sums and checks take the pricing function as a parameter (`Quota.Price`). The one in
use is `Quota.ClusterUsage`; `Quota.ClusterUsageIsFair` shows that it meets what the run theorems
need of a price.

## Where the code and its documentation differ

The model follows the code. Each difference is stated as a lemma.

- A suspended node is documented as left alone until it recovers. Two things end the suspension
  early: a direct change of fault class, and going unseen between two faults for longer than the flap
  window, because an unobservable tick is merged as if nothing were wrong
  (`RepairSuspension.BlindTickKeepsMemory`). There is no third (`RepairSuspension.SuspensionEndsOnlyBy`),
  both happen (`RepairSuspension.SuspendedNodeActedOn`, `RepairSuspension.UnseenNodeActedOn`), and
  each alone leaves the documented promise true exactly for the policies under which no node can be
  suspended (`RepairSuspension.SuspensionKeptExactlyWhen`).
- Backoff is kept within one unbroken stretch of a fault. A recovery clears the time of the last
  action, so across recoveries only `ReplaceAfter` separates two repairs. Over all runs the backoff
  holds exactly when no chain of repairs has a second attempt, or `ReplaceAfter` is at least the
  longest backoff that can still be followed by one, or the flap window has wrapped below zero
  (`RepairLimits.BackoffKeptExactlyWhen`).
- Addresses are compared as text, but an IPv4-mapped spelling reads as the same address.
  `Netpool.FreshAddressIffCanonical` gives the exact condition for one request. Over all runs no
  address belongs to two things exactly when no DHCP network in use has an address with two accepted
  spellings (`AddressRuns.NoIPTwiceExactlyWhen`); `AddressRuns.TwoSpellingsOneAddress` is a run in
  which two do.
- The quota is documented to keep real VM usage within a backend's ceiling. A cluster being deleted
  is not charged, although its machines may still exist. `AdmissionGuarantees.CeilingsHold` is about
  the clusters that are counted; with all of them counted, the ceiling holds over all runs exactly when
  the backend cannot carry even one cluster (`CapacityRuns.FitsExactlyWhen`, for backends without a
  shared network).
- A helm release name is documented to be unique on a cluster. A custom edit is refused when a built-in
  add-on holds the name; a built-in edit is not checked. So the order of two edits can matter
  (`AddonRuns.OrderDecides`, with the exact condition in `AddonRuns.EditsAgreeExactlyWhen`), and names
  stay distinct over a run exactly when no accepted built-in edit asks for a custom add-on's name
  (`AddonRuns.NamesDistinctExactlyWhen`).
- A disk marked for removal whose device is known is marked attached again by the mount step
  (`DiskRows.MountForgetsRemoval`; as two steps from any state, `DiskRuns.MountUndoesRemovalExactlyWhen`;
  as a run, `DiskRuns.RemovalForgotten`).
- Worker hostnames are budgeted for three index digits, and a pool's size has no ceiling.
  `Nodes.HostnamesFit` says exactly when the whole pool fits, `HostnameRuns.EveryHostnameFits`
  says it of every cluster of every run, and `HostnameRuns.UnfitPoolIsAccepted` that a pool which
  does not fit is accepted all the same.
- Mount-path validation lets commas through, and the storage fingerprint joins with commas.
  `Fingerprint.FingerprintIsExact` holds for comma-free paths.
  `Fingerprint.UnmistakableExactlyWhen` says exactly which disks can be mistaken for something else:
  those whose path splits, at a comma, into a pool path, a worker's name and a second pool path.
  `FingerprintLists.ListUnmistakableExactlyWhen` says it of whole lists.
- The catalog's validation is documented to make each offered upgrade a single minor version. It
  constrains each `supersedes` link. A hop that passes over an unsupported bundle can be two minor
  versions (`Catalog.HopCanSkipAMinor`). `Catalog.NextUpgradeIsOneMinorExactlyWhen` gives the
  condition for the first offer and `Catalog.NeighboursAreOneMinorExactlyWhen` for all later ones.

## Model

| member | source | states |
|---|---|---|
| Repair.BackoffFor | internal/domain/repair.go:537-549 | the doubling loop returns min(base·2^(k−1), 24h) for every attempt count and never leaves 64 bits |
| Repair.ObserveFaults | internal/domain/repair.go:261-299 | the three loops yield, per VM name, exactly the fault defined by power first, then readiness, then absence; power faults only when health is not trusted |
| Repair.DestructiveAction | internal/domain/repair.go:495-533 | which destructive rung, if any, is open to a node |
| Repair.NextAction | internal/domain/repair.go:448-490 | the rung for a faulty node: suspension, attempt limit, backoff, grace times, then the ladder |
| Repair.ClusterRepair.MergeFaults | internal/domain/repair.go:317-370 | the in-place merge equals the per-node transition for every live node and drops every other entry |
| Repair.ClusterRepair.DecideRepair | internal/domain/repair.go:390-445 | the plan is the first available action, workers before control planes, unless a breaker holds |
| Repair.ClusterRepair.RecordAttempt | internal/domain/repair.go:556-569 | counts the attempt, stamps time and action, suspends at the limit, and touches no other node |
| Repair.ClusterRepair.CompleteAttempt | internal/domain/repair.go:575-577 | clears what is in flight and nothing else |
| RepairRuns.ReconcileRepair | internal/reconcile/repair.go:24-77 | the Ready tick takes the cluster's memory through exactly one tick of the run machine |
| RepairRuns.PlansExactlyWhenPossible | internal/domain/repair.go:390-445 | a repair is planned if and only if no breaker holds and some faulty node has an action |
| RepairRuns.PlannedNode | internal/domain/repair.go:420-445 | the target is a node of the cluster with an available action; a control plane only if no worker has one |
| RepairRuns.BlindRepairsOnlyPoweredOff | internal/domain/repair.go:261-299 | when the cluster is not observable, every planned repair targets a node the hypervisor reports off |
| RepairRuns.PowerFaultsIgnoreHealth | internal/domain/repair.go:261-299 | VM-down faults are the same whatever health says, and nothing overwrites them |
| RepairRuns.ReplacementKeepsQuorum | internal/domain/repair.go:495-533 | replacing a control plane means HA, no other control plane faulty now or in memory, no short etcd reading, and of three or more an untouched majority |
| RepairRuns.RestoreOnlySoleControlPlane | internal/domain/repair.go:495-533 | restore is planned only for a non-HA control plane with both switches on |
| RepairRuns.MemoryRefinesHistory | internal/domain/repair.go:317-370 | after any run the incremental per-node memory is the one the full history of sights determines |
| RepairGuarantees.RunsKeepThePromises | internal/domain/repair.go:448-459 | in every run and for every node: bounded repairs per chain, giving up at the limit, spacing of repairs, and destruction only when earned |
| RepairGuarantees.CounterCountsRepairs | internal/domain/repair.go:317-370 | Attempts equals the repairs recorded since the last reset |
| RepairGuarantees.ClockStartsTheStretch | internal/domain/repair.go:317-370 | a fault is recorded exactly when a clock is, and the clock is the first sight of the current unbroken stretch of that fault |
| RepairGuarantees.SuspendedNodeActedOnAgain | internal/domain/repair.go:355-364 | at the very next tick, a suspended node has an action exactly when it shows another fault whose grace time is zero or absent |
| RepairSuspension.SuspensionEndsOnlyBy | internal/domain/repair.go:343-364 | in every run, a suspended node acted on without being seen well or leaving has changed its fault class, or has gone unseen between two faults for longer than the flap window |
| RepairSuspension.SuspendedNodeActedOn | internal/domain/repair.go:343-364 | for every policy that can suspend, a run in which a suspended node is acted on after a change of fault class and back |
| RepairSuspension.UnseenNodeActedOn | internal/reconcile/repair.go:56-62 | for every policy that can suspend, a run in which a suspended node is lost from sight, found with the same fault, and acted on |
| RepairSuspension.BlindTickKeepsMemory | internal/reconcile/repair.go:56-62 | an unobservable tick leaves a faulty node's memory alone exactly when the fault was VM-down and the hypervisor still reports it off; otherwise it is a recovery, suspension and all |
| RepairSuspension.SuspensionKeptExactlyWhen | internal/domain/repair.go:72-78 | for every policy, suspension lasts until the node is seen well or leaves, over all runs, if and only if nothing can be suspended; the same with changes of fault class ruled out |
| Repair.FlapWindowMeaning | internal/domain/repair.go:372-381 | four times the backoff below 2^61 nanoseconds, and exactly when the 64-bit product is negative |
| RepairLimits.RecoveryCutsBackoff | internal/domain/repair.go:343-364 | unless the flap window has wrapped below zero, for every k a run exists whose k-th and next attempts are only ReplaceAfter apart |
| RepairLimits.BackoffKeptExactlyWhen | internal/domain/repair.go:455-459 | for every policy, the backoff is kept over all runs if and only if nothing is tried twice, or ReplaceAfter covers the longest backoff that can matter, or the flap window has wrapped below zero |
| Nodes.ValidateNodePools | internal/domain/domain.go:615-647 | the loop's verdict, and that it accepts exactly the valid pool lists |
| Nodes.ListDesiredNodes | internal/domain/domain.go:667-692 | the nested loops mint exactly the specified node list |
| Nodes.DesiredNodesCount | internal/domain/domain.go:667-692 | as many nodes as control planes plus desired workers |
| Nodes.VMNameInjective | internal/domain/domain.go:667-692 | a worker's name determines its pool and index, even with dashes and digits in pool names |
| Nodes.DesiredNamesDistinct | internal/domain/domain.go:592-610 | no two desired nodes of a valid cluster share a name, workers and control planes included |
| Nodes.HostnamesFit | internal/domain/domain.go:592-610 | names with index up to 999 fit in 63 characters; the whole pool fits exactly when its last index does |
| Disks.ValidateNodeDisks | internal/domain/domain.go:1064-1109 | the loop with its counters and key sets gives the specified first complaint |
| Disks.ValidationIsExact | internal/domain/domain.go:1064-1109 | concatenated text keys notwithstanding, validation accepts exactly the lists with distinct names and mounts per node and at most eight disks |
| Disks.LonghornPathIsUsable | internal/domain/domain.go:1158-1174 | the platform's own mount path and disk name pass validation |
| DiskRows.DisksOnDesiredNodes | internal/app/app.go:1261-1273 | keeps exactly the rows on desired nodes, in order |
| DiskRows.BuildStorageDisks | internal/domain/domain.go:973-993 | one storage row per desired worker |
| DiskRows.SyncStorageDisks | internal/app/storage.go:33-45 | old rows untouched, then the missing storage rows |
| DiskRows.OneStorageDiskPerWorker | internal/app/storage.go:33-45 | under the invariant, exactly one storage row per desired worker and none anywhere else |
| DiskRows.EditKeepsDisks | internal/app/app.go:1210-1228 | pruning and topping up after a pool edit keep the whole disk invariant, the limit of eight included |
| DiskRows.EditKeepsSurvivingRows | internal/app/app.go:1210-1228 | rows of surviving nodes are kept as they are, and every other row is a fresh storage row |
| DiskRows.AddKeepsDisks | internal/app/nodedisk.go:66-98 | a validated new disk keeps the disk invariant |
| DiskRows.FlipToRemoving | internal/app/nodedisk.go:134-152 | the loop finds the first matching row and refuses, ignores or flips it as specified |
| DiskRows.RemoveKeepsDisks | internal/app/nodedisk.go:126-162 | marking a row for removal keeps the disk invariant |
| DiskRows.ObserveDisks | internal/reconcile/reconcile.go:1495-1505 | stamps reported device identities and nothing else |
| DiskRows.MountNodeDisks | internal/reconcile/reconcile.go:1460-1471 | every row with a known device becomes attached, the others stay |
| DiskRows.ReleaseRemovedDisks | internal/reconcile/reconcile.go:1422-1456 | drops exactly the rows marked for removal |
| DiskRows.ReconcilerKeepsDisks | internal/reconcile/reconcile.go:1460-1505 | device reports and mounting keep the disk invariant and change only phase and device |
| DiskRows.ReleaseKeepsDisks | internal/reconcile/reconcile.go:1422-1456 | dropping removed rows keeps the disk invariant |
| DiskRows.MountForgetsRemoval | internal/reconcile/reconcile.go:1460-1471 | a mount undoes a requested removal exactly when the disk's device is known |
| Netpool.ParseDottedOfDotted | internal/netpool/static.go:63-86 | parsing the dotted form of an address gives the address back |
| Netpool.DottedOfParseDotted | internal/netpool/static.go:38-58 | and an accepted dotted text is the dotted form of what it parses to |
| Netpool.MappedSpelling | internal/netpool/static.go:38-58 | the IPv4-mapped text reads as the same address and is never the platform's own spelling |
| Netpool.AllocateStatic | internal/netpool/static.go:63-86 | the scan returns the lowest free addresses of the range, or the specified error |
| Netpool.AllocationMeaning | internal/netpool/static.go:63-86 | n different unused addresses, never the gateway; it fails as exhausted exactly when fewer than n are free |
| Netpool.FreshAddressIffCanonical | internal/app/providers.go:320-332 | passing the text check means a new address, whatever is in use, if and only if the request is in dotted form |
| Addressing.CollectUsed | internal/app/providers.go:244-264 | the addresses held by the live clusters given |
| Addressing.AdmitSharedNetwork | internal/app/providers.go:244-315 | both modes claim what the specification says, or fail with its error |
| Addressing.StaticClaimIsFresh | internal/app/providers.go:288-311 | a static claim is one address per node plus the fixed ones, all different, none in use |
| Addressing.DHCPClaimIsFresh | internal/app/providers.go:266-287 | the addresses a user names are different from each other and unused |
| Addressing.ScaleSharedStaticIPs | internal/app/providers.go:344-398 | the new address book is the specified one for the new node set |
| Addressing.ScaleKeepsAddresses | internal/app/providers.go:344-398 | an edit keeps all addresses different, takes none in use, and moves no surviving node |
| Quota.PriceCluster | internal/quota/quota.go:40-50 | the price is the sum over desired nodes plus every extra disk |
| Quota.SumUsage | internal/quota/quota.go:54-65 | the sum over clusters neither terminal nor deleting, in all three dimensions |
| Quota.CheckBudget | internal/quota/quota.go:150-163 | the first dimension in which the candidate does not fit, if any |
| Quota.CheckProviderCapacity | internal/app/providers.go:408-417 | the same against a backend's ceiling; no ceiling, no limit |
| Quota.ClustersExcept | internal/app/app.go:1704-1712 | the other clusters, in order |
| Quota.ClustersOnProvider | internal/app/providers.go:227-235 | the clusters of one backend, in order |
| Quota.BillSplits | internal/quota/quota.go:54-65 | a backend's bill is what the others cost plus the cluster's own share |
| Quota.CreateKeepsCeilings | internal/app/app.go:783-790 | storing a checked new cluster keeps every ceiling |
| Quota.ReplaceKeepsCeilings | internal/app/app.go:1240-1251 | so does replacing a row by a candidate checked against all the others |
| Quota.ShrinkKeepsCeilings | internal/app/app.go:1715-1726 | a version that asks for no more needs no check |
| Quota.ClusterUsageIsFair | internal/quota/quota.go:29-50 | with the same nodes, less disk never costs more, and nothing has a negative price |
| AdmissionRuns.CreatedIsSound | internal/app/app.go:703-855 | a created row is valid, its id and addresses are new, and it fits its backend |
| AdmissionRuns.EditKeepsInv | internal/app/app.go:1178-1257 | an accepted pool edit keeps the platform invariant |
| AdmissionRuns.AddDiskKeepsInv | internal/app/nodedisk.go:66-98 | so does an accepted disk |
| AdmissionRuns.StepKeepsInv | internal/app/app.go:1084-1120 | every step, by a user or by the reconciler, keeps the platform invariant |
| AdmissionRuns.RunsKeepInv | internal/app/app.go:663-679 | the invariant holds in every reachable state |
| AdmissionGuarantees.NoAddressTwice | internal/app/providers.go:237-315 | in every reachable state no address text of a shared network belongs to two endpoints, within or across live clusters |
| AdmissionGuarantees.EveryNodeHasItsAddress | internal/app/providers.go:288-311 | with static addressing exactly the desired nodes have an address; the API server has one exactly when HA |
| AdmissionGuarantees.StorageFollowsWorkers | internal/app/storage.go:23-45 | in every reachable state one storage disk per worker or none, and the stored list would pass validation again |
| AdmissionGuarantees.CeilingsHold | internal/app/providers.go:400-417 | in every reachable state what a backend's counted clusters (neither deleting, deleted nor failed) cost is within its ceiling in every dimension |
| AdmissionGuarantees.SurvivorsStayPut | internal/app/providers.go:334-398 | a node that survives a pool edit keeps its address and its disk rows |
| AdmissionGuarantees.OtherRowsUntouched | internal/app/app.go:1168-1177 | a step changes at most the row it names, and a refused step nothing |
| AdmissionGuarantees.DeletedForGood | internal/app/app.go:1715-1726 | a row that reaches Deleted never changes again in any continuation |
| AddressRuns.NoIPTwice | internal/app/providers.go:237-315 | with requests in dotted form, no IP address ever belongs to two endpoints of a shared network |
| AddressRuns.TwoSpellingsOneAddress | internal/app/providers.go:320-332 | on every DHCP network in use, for every address with two accepted spellings: a run after which two undeleted clusters hold it |
| AddressRuns.NoIPTwiceExactlyWhen | internal/app/providers.go:237-332 | for every configuration, no IP address of a shared network belongs to two endpoints in any run if and only if no DHCP network in use has an address with two accepted spellings |
| Orders.NeverUsed | internal/app/providers.go:400-417 | a backend that is not offered, or whose ceiling is below one small control plane, carries no cluster in any run |
| CapacityRuns.FitsExactlyWhen | internal/quota/quota.go:52-65 | on a backend without a shared network, what all undeleted clusters occupy stays within the ceiling in every run if and only if the backend can never carry one |
| HostnameRuns.EveryHostnameFits | internal/domain/domain.go:592-610 | in every reachable state all control planes have hostnames of at most 63 characters, and all nodes do exactly when the last worker of each pool does |
| HostnameRuns.UnfitPoolIsAccepted | internal/domain/domain.go:592-610 | any pool that passes the checks is accepted with any number of workers, so a run has a node whose name is too long |
| HostnameRuns.WorkerThousandAndOne | internal/domain/domain.go:592-610 | with 58 characters of names the first 1000 workers fit and the next one does not |
| DiskRuns.MountUndoesRemovalExactlyWhen | internal/reconcile/reconcile.go:1460-1471 | from any state, a disk asked for removal and then mounted is attached again exactly when its device is known |
| DiskRuns.RemovalForgotten | internal/reconcile/reconcile.go:1460-1471 | a run in which a removal is accepted and the disk is in service afterwards |
| TenantGuarantees.NamesStayUnique | internal/app/app.go:714-718 | in every reachable state no two live clusters of one owner share a name |
| TenantGuarantees.CreateIsAffordable | internal/app/app.go:766-781 | at the instant of creation the cluster, storage disks included, fits its owner's budget beside their clusters on that backend |
| TenantGuarantees.EditIsAffordable | internal/app/app.go:1230-1239 | so does, at its instant, every pool edit that changes anything, priced with the disks and nodes it ends up with |
| TenantGuarantees.AddedDiskIsAffordable | internal/app/nodedisk.go:177-191 | so does, at its instant, every added disk |
| BudgetRuns.BudgetIsKept | internal/app/app.go:766-781 | in every state of every run whose requests carry one budget for an owner on a backend, what that owner's clusters there cost is within it in every dimension |
| TenantGuarantees.PoolShapeIsFixed | internal/app/app.go:1182-1205 | a pool present before and after an edit keeps its size and root disk |
| Apps.FillDefaultPool | internal/app/app.go:608-615 | adds an empty default pool exactly when none is named |
| Apps.CountPoolChanges | internal/app/app.go:1278-1308 | counts nothing exactly when the topology is unchanged |
| Apps.App.CreateCluster | internal/app/app.go:619-855 | returns the specified cluster or refusal, takes the Create step, and keeps the invariant |
| Apps.App.UpdateNodePools | internal/app/app.go:1084-1257 | takes the EditPools step with the specified refusal, and keeps the invariant |
| Apps.App.AddNodeDisk | internal/app/nodedisk.go:41-108 | takes the AddDisk step with the specified refusal, and keeps the invariant |
| Apps.App.RemoveNodeDisk | internal/app/nodedisk.go:120-171 | takes the RemoveDisk step with the specified refusal, and keeps the invariant |
| Apps.App.DeleteCluster | internal/app/app.go:1715-1726 | takes the Delete step, and keeps the invariant |
| Snapshots.RestorableSnapshot | internal/domain/etcdsnapshot.go:118-134 | the first of the newest, unless there is none or it is too old |
| Snapshots.CarryLeft | internal/domain/etcdsnapshot.go:151-155 | one pass of the in-place sort inserts an element behind those of the same time and leaves the rest |
| Snapshots.PruneEtcdSnapshots | internal/domain/etcdsnapshot.go:140-157 | the array sort and cut return the specified surplus |
| Snapshots.RankedSorts | internal/domain/etcdsnapshot.go:148-156 | the ranking is newest first and its head is exactly the snapshot a recovery would choose |
| Snapshots.PruningKeepsRecovery | internal/domain/etcdsnapshot.go:118-157 | deleting any part of the surplus changes no recovery under any policy at any time, ties included |
| Snapshots.PruningKeepsTheNewest | internal/domain/etcdsnapshot.go:136-157 | kept and deleted partition the input, min(len, max(1, Retain)) are kept, nothing deleted is newer than anything kept |
| Snapshots.RetentionNeverCostsRecovery | internal/reconcile/etcdsnapshot.go:76-89 | over any run, with listings in any order and deletions failing anywhere, a recovery finds a snapshot exactly when it would if nothing had been deleted, and one taken at the same time |
| Snapshots.StoreStaysBounded | internal/reconcile/etcdsnapshot.go:69-89 | when the last deletions succeed, no more than the retention count is stored |
| Snapshots.Shelf.Delete | internal/store/store.go:833-846 | removes the first snapshot with that id, if any, and keeps the order; with unique ids none is left |
| Snapshots.Shelf.PruneSnapshots | internal/reconcile/etcdsnapshot.go:76-89 | deletes the surplus in order up to the first failure |
| Fingerprint.StorageFingerprint | internal/domain/domain.go:1036-1045 | the loop, sort and join give the specified text |
| Fingerprint.FingerprintIgnoresOrder | internal/domain/domain.go:1036-1045 | any two arrangements of the same disks have the same fingerprint |
| Fingerprint.FingerprintIsExact | internal/domain/domain.go:1028-1045 | for comma-free paths and any cluster name, equal fingerprints if and only if the same (VM, path) pairs need registration |
| Fingerprint.CommaPathsCollide | internal/domain/domain.go:1158-1174 | two registered disks, the first not at the Longhorn data path itself and the second's worker name free of slashes, have the fingerprint of one valid disk whose path runs theirs together |
| Fingerprint.UnmistakableExactlyWhen | internal/domain/domain.go:1028-1045 | one registered disk is told apart from every valid list if and only if its path does not split into a pool path, a comma, a worker's name and another pool path |
| FingerprintLists.ListUnmistakableExactlyWhen | internal/domain/domain.go:1028-1045 | for slash-free cluster names, a list is told apart from every valid list if and only if, after its leading data-path disks, nothing is left, or one disk whose path does not split |
| Fingerprint.ManyLookLikeOne | internal/domain/domain.go:1028-1045 | for slash-free cluster names, any two or more registered disks whose first in order is not at the Longhorn data path have the fingerprint of a single valid disk |
| Addons.ClusterAddons.ReconcileAddonSet | internal/app/app.go:1417-1450 | the list becomes the specified one, and the flag says exactly whether it changed |
| Addons.ReachesTheWantedSet | internal/app/app.go:1412-1450 | the governed add-ons not being removed are exactly the wanted names |
| Addons.RecordsStay | internal/app/app.go:1412-1450 | every add-on keeps its record and place, at most its phase moves |
| Addons.OtherPartitionUntouched | internal/app/app.go:1421-1425 | the other partition comes through as the same sequence |
| Addons.ReconcilingTwiceIsOnce | internal/app/app.go:1412-1450 | a second application changes nothing |
| Addons.ClusterAddons.ApplyAddonSelection | internal/app/app.go:1359-1387 | an accepted selection moves the built-in partition to the picked add-ons, a refused one changes nothing and reports the first failure |
| Addons.ClusterAddons.ResolveCustomAddons | internal/app/customcatalog.go:321-364 | references in order, each add-on once, with the first lookup failure or taken name as the error |
| Addons.TakenOnlyRefuses | internal/app/customcatalog.go:321-364 | resolution succeeds exactly when the lookups do and no name is taken, and then gives what it would without the guard |
| Addons.ClusterAddons.ApplyCustomAddonSelection | internal/app/app.go:1392-1410 | refused when a built-in add-on of the cluster holds a name; otherwise the custom partition moves to the resolved add-ons |
| Addons.ClusterAddons.UpdateAddons | internal/app/app.go:1141-1163 | the add-on part of a request, built-in half first, is stored as a whole or not at all |
| Addons.ClusterAddons.ReconcileAddons | internal/reconcile/reconcile.go:929-981 | installs, drops what is being removed, and keeps everything from the first failure on |
| Addons.CallersAskWell | internal/app/app.go:1359-1410 | whatever both callers are given, repeats included, they hand the reconciler a selection of their own partition keyed by its own names |
| AddonRuns.EditsAgreeExactlyWhen | internal/app/app.go:1359-1410 | both partitions come out the same in either order of the two edits if and only if one is refused anyway, or they share no name, or the custom one changes nothing |
| AddonRuns.OrderDecides | internal/app/customcatalog.go:348-350 | built-in first, the custom add-on of the same name is refused; custom first, both are on the list |
| AddonRuns.BuiltInKeepsNames | internal/app/app.go:1359-1387 | a built-in edit keeps names distinct if and only if it asks for none that a custom add-on holds |
| AddonRuns.CustomKeepsNames | internal/app/app.go:1392-1410 | a custom edit always keeps names distinct |
| AddonRuns.NamesDistinctExactlyWhen | internal/app/customcatalog.go:315-320 | over any run of requests and reconciler passes, names are distinct throughout if and only if no accepted request asks for a built-in add-on under a custom one's name |
| Addons.SelectionsCommute | internal/app/app.go:1412-1450 | a built-in and a custom edit leave each partition the same in either order |
| Memberships.MergeMemberships | internal/app/app.go:2983-2997 | each half from its own side, sorted by group |
| Memberships.ClaimedMemberships | internal/app/authn.go:302-327 | whatever order the role map is walked in, the same sorted list |
| Memberships.StrongestClaimWins | internal/app/authn.go:302-327 | a claimed role is write exactly when some claim says write, in any order |
| Memberships.CheckRequestMeaning | internal/app/app.go:2917-2933 | a request is accepted exactly when it names known groups, once each, with valid roles |
| Memberships.Account.UpdateMemberships | internal/app/app.go:2909-2937 | an accepted edit merges, a refused one changes nothing and reports the first complaint |
| Memberships.Account.SyncDirectory | internal/app/authn.go:219-269 | a login merges its claims over the stored list |
| Memberships.MergeKeepsHalves | internal/app/app.go:2955-2997 | each half of a merge depends on its own side alone |
| Memberships.EditAndLoginCommute | internal/app/app.go:2973-2982 | from any state an edit and a login give the same list in either order |
| Memberships.OnlyTheLastWritersCount | internal/app/app.go:2955-2997 | after any interleaving the list is the merge of the last login and the last accepted edit |
| Memberships.EachWriterOwnsItsHalf | internal/app/app.go:2955-3003 | in every reachable state the list is sorted without duplicates, its halves equal to what each writer last wrote |
| Events.Broadcast | internal/events/events.go:152-159 | in whatever order the subscribers are walked, each open channel gets the event or drops it when full |
| Events.Broker.Publish | internal/events/events.go:72-84 | appends to the log and fans out, never to a closed channel |
| Events.Broker.Join | internal/events/events.go:168-186 | returns the log so far and registers a fresh channel in one step |
| Events.Broker.Leave | internal/events/events.go:177-184 | unregisters and closes that channel only; it panics exactly when the channel was closed before, and then nothing changes |
| EventRuns.HistoryIsTheLog | internal/events/events.go:72-84 | the replay is everything emitted for the cluster so far, in order |
| EventRuns.StreamIsASubsequence | internal/events/events.go:152-186 | what a subscriber gets is an in-order, duplicate-free part of what was emitted |
| EventRuns.LostOnlyWhenFull | internal/events/events.go:152-159 | an event is delivered exactly when the subscriber is listening to its cluster and its buffer has room at that moment |
| EventRuns.SubscriberGets | internal/events/events.go:152-186 | for a subscription made at a given step, an event is delivered if and only if it comes later, is for its cluster, no cancellation came first, and the buffer has room |
| EventRuns.ListensUntilCancelled | internal/events/events.go:168-186 | a channel listens from its subscription until its cancellation and no longer |
| EventRuns.NothingFallsBetween | internal/events/events.go:161-186 | replay plus stream is the whole log for a subscriber that keeps its buffer short of full |
| Catalog.ValidateLinks | internal/catalog/catalog.go:365-377 | accepts exactly the catalogs whose every supersedes link exists and moves the minor by nothing or one |
| Catalog.UpgradesFor | internal/catalog/catalog.go:285-306 | the loop terminates on every catalog and returns the supported bundles of the walk |
| Catalog.WalkIsComplete | internal/catalog/catalog.go:285-306 | the walk lists the forward hops in order, no name twice, and meets every name any number of hops can reach |
| Catalog.MinorsAlongTheChain | internal/catalog/catalog.go:281-306 | minors never go down along the walk, and two bundles on it are apart by exactly the raising steps between them |
| Catalog.NextUpgradeIsOneMinorExactlyWhen | internal/catalog/catalog.go:309-315 | the next upgrade is at most one minor away exactly when at most one step up to it raises the minor |
| Catalog.NeighboursAreOneMinorExactlyWhen | internal/catalog/catalog.go:281-306 | between any two neighbours of the offered list the minor rises by at most the links skipped, and by at most one exactly when at most one of those links raises it |
| Catalog.HopCanSkipAMinor | internal/catalog/catalog.go:281-315 | a valid catalog, for every version, whose next upgrade is two minors away |
| Maintenance.AllowsExactlyTheOpenings | internal/domain/maintenance.go:40-63 | a window admits a minute exactly when some open day's opening is less than the window's length ago, around the week |

## Left out

- Events and log lines of a repair tick (`emitFaultChanges`), and the notes and reason texts that go with them.
- What a repair action does to the cluster; a tick records the decision, and later observations are arbitrary.
- The order in which a fleet's health is counted; the fraction is an input of the tick.
- Authorization: every request of the model is one that passed it.
- Writers that hold a stale copy of a row across another write. Each step of the model reads and writes one current row.
- Apps.App.UpdateNodePools: the add-on half of the same request is modelled separately, in `Addons`.
- Addons.ClusterAddons.ApplyCustomAddonSelection: which catalogs the user can see is an input, and chart, repository, namespace and description of an add-on are not modelled.
- AddonRuns.NamesDistinctExactlyWhen: version bumps of an upgrade and edits of an add-on's values, which touch no name, are not steps of the run.
- CapacityRuns.FitsExactlyWhen: on a shared network the addresses of clusters on their way out also run out, which bounds them; that case is not covered.
- Addons.ClusterAddons.ApplyAddonSelection: whether override text is well-formed is an input.
- Apps.App.CreateCluster: the bundle, add-on and DNS resolution that surround admission are not modelled; what they decide for admission is part of the request.
- The per-cluster CIDR allocator of the KVM backend and its derived addresses.
- Text forms of IPv6 other than the IPv4-mapped prefix with lower-case letters; the model rejects them.
- Grants: dividing a backend's capacity among users. A user's remaining budget is an input of the request.
- Fingerprint.FingerprintIsExact: comma-free paths only; for one registered disk the exact condition is `Fingerprint.UnmistakableExactlyWhen`.
- Fingerprint.CommaPathsCollide: shown for worker names without a slash and a first disk not at the Longhorn data path, because a path that extends the data path by a comma no longer feeds the pool, and a slash in the name adds path components that may or may not be clean.
- FingerprintLists.ListUnmistakableExactlyWhen: shown for cluster names without a slash, because with one it depends on the name whether a merged path is clean.
- Fingerprint.ManyLookLikeOne: the special case without leading data-path disks, in which the whole list merges into one.
- EventRuns.StreamIsASubsequence: that the events are later ones for the subscriber's cluster is `EventRuns.SubscriberGets`.
- TenantGuarantees.CreateIsAffordable: about the instant of the step; later states are `BudgetRuns.BudgetIsKept`.
- TenantGuarantees.EditIsAffordable: likewise about the instant of the step.
- TenantGuarantees.AddedDiskIsAffordable: likewise about the instant of the step.
- BudgetRuns.BudgetIsKept: a budget that an operator lowers in the middle of a run is not enforced on what is already stored, as in the original.
- RepairGuarantees.SuspendedNodeActedOnAgain: the next tick only; whole runs are in `RepairSuspension`.
- Repair.FlapWindowMeaning: differences of instants are not saturated to 64 bits as in the original; that shows only for instants 292 years apart and a configured limit at the very end of the 64-bit range.
- RepairLimits.RecoveryCutsBackoff: not for a flap window that has wrapped below zero, under which the statement is false, since no chain of repairs outlives a recovery.
- RepairSuspension.SuspensionEndsOnlyBy: does not say that a change of fault class is the only early end of a suspension, because going unseen is another.
- AddonRuns.EditsAgreeExactlyWhen: does not promise that a built-in and a custom edit commute, because the original refuses a taken name in one order only.
- The Postgres half of the event broker, and waiting on a channel: a receive on an empty buffer is a step that does nothing.
- Catalog.ValidateLinks: the membership checks of validation (operating systems, versions, add-ons) would only add easy members.
- Time zones and daylight saving: windows are in local minutes of the week. Parsing the window's text is not modelled.
- Sealing, storing and restoring the payload of a snapshot.
- Passwords, tokens, kubeconfigs, the HTTP and portal layers, and the fakes that generate demo data.
