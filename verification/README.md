# Firework: verified model

Firework runs Firecracker microVMs on a fleet of nodes. A control plane keeps its state in an
object store with conditional writes, elects a leader by a lease, places services on nodes and
keeps durable records of their volumes. An agent on every node prepares the volumes, starts and
replaces the VMs and routes traffic to them, and a small init inside each VM reads its kernel
command line. This project models the parts of that system whose guarantees span many steps or
many processes, and proves them. `dafny verify dfyconfig.toml` checks everything.

How the parts fit together:

- **Volumes on disk.** `VolumeMachine` is one volume directory as a state machine: every write
  and command is a step that may be done, not done, or done but reported as a failure, and the
  process may die in between. `VolumeSafety` states what holds over every run. `VolumeManager`
  is the imperative code: each method issues the writes of the source in its order and is proved
  to follow the machine. `NodePool` is the capacity check over all volumes of a node, and
  `ServiceVolumes` the calls for a whole service on the pool.
- **Placement.** `StorageFit` and `Scheduler` give the specification of a pass and the loops
  that compute it; `SchedulerProperties`, `SchedulerPriority`, `SchedulerStability` and
  `SchedulerFixpoint` prove order independence, capacity, partition, priority, maximality and the
  fixpoint.
- **A whole reconcile.** `RecordBook` edits services and records in place, `RetainedRecords`
  and `Admission` say what that means, `NodeConfigs` goes from an assignment to published
  configs and back, `AdmissionBound` proves the admission bound of the whole sequence,
  `SecondPass` that the next reconcile changes nothing, and `LoadableRecords` that what is
  stored can be loaded again. `ReconcilePass` is the whole pass, from leadership to publishing.
- **Processes over the store.** `CasStore` is the object store (If-None-Match and If-Match,
  sections 13.1.2 and 13.1.1 of RFC 9110). `VolumeRecords`, `Lease` with `LeaseSafety`,
  `Registry` and `Pointers` are protocols over it: any number of processes, each store access
  and clock sample a separate step, replies lost, processes stopping anywhere. `Controller`,
  `Publishing` and `Acknowledgement` are the loops and methods of one process. `EndToEnd` joins
  disks, agents, heartbeats and controllers.
- **The agent.** `Reconciler` and `ReconcileLoop` are plan and apply under failures,
  `VmLifecycle` the exit reports of VM processes, `Routes` and `RouteDir` the route directory,
  `Addressing` the IPv4 and MAC arithmetic (section 3.1 of RFC 4632).
- **Into the guest.** `Base64Url` (sections 3.2 and 5 of RFC 4648), `KernelArgs`, `EnvVars`,
  `VolumeSpecs`, `VolumeChecks` and `GuestVolumes` follow environment variables and volumes from
  the configuration through the kernel command line to the guest.

`Types`, `Ordering`, `VolumeOrder` and `Sums` hold what the others share: the entities, string
order with a stable sort, and sums over maps.

## Where the code does not do what one would expect

Each of these is stated as the exact condition under which the expectation holds, or as a
concrete run, or both.

- A crash between creating an image and writing its first manifest leaves a directory that no
  later call accepts (`VolumeSafety.CreateCrashQuarantines`, `VolumeSafety.QuarantineIsPermanent`).
- A prepare that was admitted but fails halfway can leave a pool above its capacity
  (`NodePool.PoolStaysWithinCapacity`).
- Believing to lead is not leading (`LeaseSafety.BeliefCanBeStale`). A believer leads while its
  own last renewal plus its time to live has not passed
  (`LeaseSafety.BelieverLeadsWhileUnexpired`), and is safe from a takeover exactly that long
  (`LeaseSafety.SecureExactlyWhileUnexpired`, `LeaseSafety.ExpiredCanBeTaken`).
- A state change that creates a node record stamps it with the current time as its generation,
  so an agent that started earlier is refused
  (`Registry.EarlyStateChangeRefusesRunningAgent`): exactly the processes of a generation below
  the stamp (`Registry.StampedRefusesExactly`, `Registry.GenerationOrigin`), and for good
  (`Registry.FencedForever`).
- A health check changed on a running service is never applied, for the comparison behind a
  plan ignores it (`Reconciler.ChangedHealthCheckIsIgnored`); which changes go unnoticed is
  `Reconciler.ConvergedRunsAsDesired`.
- An all-at-once apply can leave several services down (`ReconcileLoop.AllAtOnceCanTakeTwoDown`);
  exactly which is `ReconcileLoop.AllAtOnceTakesDownExactly`. A rolling apply takes one down
  at a time (`ReconcileLoop.RollingTakesOneDown`).
- Only updates are preceded by a preflight (`internal/reconciler/reconciler.go:140` and `:203`),
  and a preflight measures the command line only of a service with volumes
  (`internal/vm/manager.go:83-86`). Exactly in that case none over the limit is written
  (`GuestVolumes.WrittenWithinLimitExactly`).
- A service can have two live VM processes. An exit report is booked by service name, so a late
  one can hit the VM that replaced the reporter, and the next update does not stop that VM
  (`VmLifecycle.LateReportLeavesTwoProcesses`). A stop or removal can take a live process off
  the books, because it gave up after seven seconds (`VmLifecycle.LosingTrackLeavesTwoProcesses`)
  or because a health restart has just started it (`VmLifecycle.RaceLeavesTwoProcesses`). And an
  agent that restarts does not adopt the VMs that survived it. A step of the VM manager is
  harmless exactly if it is none of these (`VmLifecycle.HarmlessExactly`).
- After a local-only route sync a preserved remote file may share a hostname with a local one
  (`RouteDir.LocalSyncCanShareHostName`), exactly when it routes a hostname now claimed locally
  (`RouteDir.LocalSyncKeepsHostNamesApart`).
- With `vm_subnet` written with host bits, the broadcast address can be handed out
  (`Addressing.BroadcastHandedOut`).
- An environment value whose only whitespace is not ASCII is written unencoded and torn apart
  by the guest (`EnvVars.NoBreakSpaceIsTornApart`, `EnvVars.ValueSurvivesExactly`).

## Model

| member | source | states |
|---|---|---|
| `VolumeSafety.SafeOverEveryRun` | internal/volume/manager.go:253-478 | over every run of calls with any desired values, step failures and crashes: the file system never exceeds its image, an idle volume without journal has image size = manifest size, mkfs runs at most once and only on an image this call created |
| `VolumeSafety.ReportIsCommitted` | internal/volume/manager.go:314-408 | what Prepare returns is the last manifest written, with no journal left and the image at that size |
| `VolumeSafety.JournalPinsTheTarget` | internal/volume/manager.go:280-312 | while a resize journal exists, a call that changes anything or succeeds asks for exactly the size and generation the journal records |
| `VolumeSafety.UnacceptableIsRefused` | internal/volume/manager.go:159-203 | a call whose declaration, retained image or journal does not fit changes nothing and never succeeds, however its steps go |
| `VolumeSafety.CompletesExactlyWhenAcceptable` | internal/volume/manager.go:314-478 | a call whose commands succeed ends with manifest (d, g), image d, file system at most d and no journal if and only if the directory was acceptable beforehand, which a caller can check |
| `VolumeSafety.CrashedResizeCompletes` | internal/volume/manager.go:410-478 | from every crash point inside a resize, one more call for the same target whose steps succeed completes it without formatting again |
| `VolumeSafety.QuarantineIsPermanent` | internal/volume/manager.go:280-312 | an image without a manifest is never adopted, formatted or removed by any later call |
| `VolumeSafety.CreateCrashQuarantines` | internal/volume/manager.go:343-372 | dying between image creation and the first manifest leaves a directory no later call accepts |
| `VolumeSafety.StepsStayResumable` | internal/volume/manager.go:366-478 | every step of a resize keeps its own target acceptable |
| `VolumeSafety.ShrinkBelowMinimumFails` | internal/volume/manager.go:205-249 | a call that is told, at its preflight or under its journal, that the filesystem needs n bytes never succeeds in shrinking to less than 5% above n, and leaves image, filesystem and manifest as they were |
| `VolumeSafety.ShrinkIsMeasured` | internal/volume/manager.go:426-434 | a shrink that succeeds has asked for the minimum under its journal and left 5% above it |
| `VolumeSafety.ResizeIsChecked` | internal/volume/manager.go:420-432 | a resize that succeeds has checked the filesystem before it touched image, filesystem or manifest |
| `VolumeSafety.ResizeIsRechecked` | internal/volume/manager.go:434-478 | and again before it committed the new size |
| `VolumeSafety.JournalTellsPhase` | internal/volume/manager.go:410-478 | over every run the journal on disk carries the phase that announces the step under way: nothing is extended, shrunk or cut before its phase is written |
| `VolumeSafety.MisdeclaredIsRefused` | internal/volume/manager.go:159-190 | a volume that is not local, not bound to this very node or not of a positive size changes nothing and never succeeds |
| `VolumeMachine.ExecKeepsInv` | internal/volume/manager.go:314-478 | the directory and program-counter invariant holds after any sequence of calls, steps, failures and crashes |
| `VolumeManager.VolumeDir.Carry` | internal/volume/manager.go:314-478 | the writes of an admitted call on one volume succeed exactly when the step machine does on the same course; success means exactly what was asked, committed, and after a shrink that the minimum was asked for and fits with 5% to spare; an unacceptable request leaves the directory untouched, an acceptable one on an existing volume can be repeated |
| `ServiceVolumes.PreflightService` | internal/volume/manager.go:159-203 | a whole service is admitted exactly if every volume looks good on its course and the pool has room; otherwise no directory is changed |
| `ServiceVolumes.PrepareService` | internal/volume/manager.go:253-278 | the call succeeds exactly if the pool has room and every volume goes through on its course; if one volume does not fit or the pool has no room, no volume is touched; otherwise the volumes before the first failure are exactly as asked, the failing one is where its own machine allows, the rest are as they were, and the manifests in the pool are those the pool arithmetic speaks of; after the whole call they are within capacity |
| `ServiceVolumes.SmoothCallsFinish` | internal/volume/manager.go:253-278 | when all writes and commands succeed, all volumes of a service go through if and only if each was acceptable beforehand |
| `VolumeManager.VolumeDir.PrepareOne` | internal/volume/manager.go:314-408 | create, reuse, stale journal and resize follow the step machine write by write, and the call succeeds exactly when the machine does on the same course |
| `VolumeManager.VolumeDir.Resize` | internal/volume/manager.go:410-478 | the journalled grow and shrink sequences follow the step machine write by write; a shrink that succeeds is 5% above the minimum reported under the journal |
| `VolumeManager.VolumeDir.Preflight` | internal/volume/manager.go:166-190 | the part that looks at one volume: without writing, it admits or refuses as the step machine does; what it admits is declared well, fits what is retained, and as a shrink is 5% above the reported minimum |
| `VolumeManager.VolumeDir.CreateSparseImage` | internal/volume/manager.go:619-629 | exclusive creation, sizing and sync as separate steps that may each fail |
| `NodePool.CheckCapacity` | internal/volume/manager.go:480-520 | admits exactly when all retained volumes at their desired sizes fit the configured capacity and the growth fits the free space, overflow included |
| `NodePool.PoolStaysWithinCapacity` | internal/volume/manager.go:253-278 | after an admitted prepare the pool is within capacity; when it stops halfway, that holds exactly if there is room for what was still to shrink |
| `NodePool.NewBytesAreFree` | internal/volume/manager.go:506-519 | whichever volumes of an admitted prepare are carried out, they take no more new bytes than were free |
| `NodePool.PartialPrepareCanExceedCapacity` | internal/volume/manager.go:266-277 | a concrete pool that an admitted but half-finished prepare takes over capacity |
| `StorageFit.FitStorageLoop` | internal/scheduler/scheduler.go:326-359 | the binding loop computes the bound volumes and new bytes, or refuses, as the specification function does |
| `StorageFit.BindMeaning` | internal/scheduler/scheduler.go:326-345 | a service can be bound to a node exactly when the node has a pool for its local volumes and is where they are kept, and has the backend of its shared ones; binding fills in nothing but the binding |
| `StorageFit.LocalBindingMeaning` | internal/scheduler/scheduler.go:303-315 | the scan reports none, one node or a conflict exactly as the retained local volumes say |
| `Scheduler.Best` | internal/scheduler/scheduler.go:241-281 | the candidate chosen is the least feasible node in the order conflict, preference, free vCPU, ID, or none when no node is feasible |
| `Scheduler.FirstFit` | internal/scheduler/scheduler.go:241-281 | sorting the candidates and taking the first that fits finds that least node |
| `Scheduler.BeforeIsStrict` | internal/scheduler/scheduler.go:241-262 | the four-key candidate order is a strict total order on nodes with distinct IDs |
| `Scheduler.BestIgnoresNodeOrder` | internal/scheduler/scheduler.go:241-281 | the choice does not depend on the order nodes are listed in |
| `SchedulerProperties.ChoiceIsLeast` | internal/scheduler/scheduler.go:241-262 | told from what is placed so far: the chosen node hosts no service of the group unless every other feasible one does, then is the preferred one, then has most free vCPU, then the smallest ID |
| `SchedulerProperties.PreferenceMeaning` | internal/scheduler/scheduler.go:232-239 | the preferred node is the one of the retained local volumes, or else the one the service was placed on before |
| `SchedulerProperties.EnterKeepsSane` | internal/scheduler/scheduler.go:282-297 | after every decision the counted vCPUs, memory, new local bytes and groups of each node equal what is placed on it, and what is placed stays within the node with its retained reservations |
| `Scheduler.PlaceService` | internal/scheduler/scheduler.go:220-297 | one service: the refusals in order, then the choice or a pending reason |
| `Scheduler.ScheduleWithStorage` | internal/scheduler/scheduler.go:198-301 | the loops, maps and sorts compute the placement and pending list the specification defines |
| `SchedulerProperties.OrderIndependent` | internal/scheduler/scheduler.go:212-218 | the whole result is unchanged under any permutation of services and nodes |
| `SchedulerPriority.HigherRankedDecideFirst` | internal/scheduler/scheduler.go:212-218 | services that outrank all others, by more vCPUs or as many and a smaller name, get next to them exactly the nodes and the pending reasons they get alone |
| `SchedulerPriority.BiggerDecideFirst` | internal/scheduler/scheduler.go:212-218 | those with more than k vCPUs are decided as if the smaller ones were not there |
| `SchedulerPriority.SmallerNamesDecideFirst` | internal/scheduler/scheduler.go:212-218 | and of equally big ones those up to a name as if those after it were not there |
| `SchedulerPriority.PendingByName` | internal/scheduler/scheduler.go:299 | the pending list is in the order of the names, each once |
| `SchedulerProperties.PlacementsRespectNodes` | internal/scheduler/scheduler.go:220-300 | vCPU, memory and local bytes stay within each node, retained reservations included; a service with retained local volumes goes to their node only |
| `SchedulerProperties.EveryServiceOnce` | internal/scheduler/scheduler.go:198-301 | every input service is exactly once placed or pending |
| `SchedulerStability.PendingIsJustified` | internal/scheduler/scheduler.go:220-300 | maximality: a pending service is barred for the reason it reports, or no node it is allowed on has room for it next to the final placement |
| `SchedulerStability.PendingTellsWhy` | internal/scheduler/scheduler.go:220-290 | a pending service is told, in this order: its local volumes are kept on two nodes; it has a shared volume; the node that keeps its volumes is not active; there was no room for its volumes, or for it |
| `SchedulerFixpoint.PassIsFixpoint` | internal/scheduler/scheduler.go:198-359 | fed its own assignment, recorded volumes and bound services on the same nodes, a pass returns the same placement and the same pending list with the same reasons |
| `NodeConfigs.BuildNodeConfigs` | internal/scheduler/scheduler.go:177-193 | one config per node that was given services, in node order |
| `NodeConfigs.NodeConfigsAreUnique` | internal/scheduler/scheduler.go:177-193 | the published list does not depend on map iteration order |
| `RecordBook.Pass.ApplyExistingVolumeRecords` | internal/controlplane/volume_records.go:74-117 | the in-place edit carries retained bindings, generations and new sizes into the services; it fails exactly if the services cannot be resolved or a conditional write was lost, and then all volumes before that one are carried and no record after it is changed |
| `RecordBook.Pass.CreateAssignedVolumeRecords` | internal/controlplane/volume_records.go:119-147 | the nested loops record exactly the placed volumes that had no record; when a conditional write is lost, exactly the ones before it |
| `RecordBook.StorageReservations` | internal/controlplane/volume_records.go:149-168 | the map loop counts, per node and per backend, the larger of desired and applied size over the retained records; per node that is at least the sum of either |
| `RecordBook.LocalOnUpdate` | internal/controlplane/volume_records.go:149-168 | one record more or changed moves its node by exactly its share |
| `RecordBook.LocalOnCovers` | internal/controlplane/volume_records.go:149-168 | what a node reserves is, record by record, the larger of desired and applied size, so it covers both sums: until a shrink is confirmed, also the bytes not given back yet |
| `RetainedRecords.ResolveMeaning` | internal/controlplane/volume_records.go:74-117 | every volume gets exactly what its record retains; a record changes only where the desired size differs, and then by one generation to pending |
| `RetainedRecords.CarriedServicesResolve` | internal/controlplane/volume_records.go:74-117 | resolving again changes nothing |
| `Admission.PlacedNamesDiffer` | internal/scheduler/scheduler.go:220-300 | a pass never places two services of one name |
| `Admission.RecordAllMeaning` | internal/controlplane/volume_records.go:119-147 | recording adds one fresh record per placed, unrecorded volume and touches no other |
| `Admission.RecordAllReserves` | internal/controlplane/volume_records.go:119-168 | recording raises the reservation of each node by exactly the new local bytes placed there |
| `AdmissionBound.ReconcileAdmits` | internal/controlplane/volume_records.go:74-168 | after record update, scheduling and record creation, each node given a service has total reservations, all desired sizes and all sizes last applied within its local capacity, and reservations grew by exactly the newly placed volumes |
| `AdmissionBound.ReconcileStorage` | internal/controlplane/controller.go:173-212 | the storage part of one reconcile: it fails only if the services cannot be resolved or a conditional write is lost; it is skipped exactly when nothing its decisions depend on has changed since the last signature; otherwise the sequence of its steps ends in that state |
| `ReconcilePass.RunReconcile` | internal/controlplane/controller.go:143-261 | one whole reconcile: nothing is published unless the process believes to lead, all records load, and it decided a placement every node has room for and whose volumes are on record; then the accesses are those of the publishing program up to the first that fails, and the signature is kept only if none did; when nothing fails, the pass is published or has nothing new |
| `ReconcilePass.SkipLosesNothing` | internal/controlplane/controller.go:196-206 | a pass that finds the signature of the last published one would decide the same placement, pending list and configs again and put nothing on record |
| `NodeConfigs.ReadExistingAssignment` | internal/controlplane/controller.go:304-324 | the nested loops map every placed service to its node |
| `NodeConfigs.AssignmentMeaning` | internal/controlplane/controller.go:304-324 | with each name placed once, reading a placement back gives every service its node |
| `SecondPass.NextPassIsTheSame` | internal/controlplane/controller.go:173-212 | after a completed reconcile, and acknowledgements that released no space, the next one writes no record and decides the same placement, pending list and node configs |
| `SecondPass.AcknowledgeKeepsClaim` | internal/controlplane/volume_records.go:181-246 | an acknowledgement that applies no shrink leaves the claim of its record unchanged |
| `VolumeRecords.AccessIsOneOperation` | internal/controlplane/volume_records.go:74-246 | in any interleaving, each store access leaves a record alone or applies exactly one operation to the value stored at that moment |
| `VolumeRecords.AccessMarks` | internal/controlplane/volume_records.go:96-147 | a new record has nothing applied and is pending at its volume's size and binding; a new size makes a record pending, clears its error and keeps its applied size; otherwise a record is only marked applied at its desired size, or failed with its applied size kept |
| `VolumeRecords.OperationEvolves` | internal/controlplane/volume_records.go:96-104 | an operation raises the generation by one exactly when the desired size changes |
| `VolumeRecords.RecordsEvolve` | internal/controlplane/volume_records.go:24-246 | over any run, identity, type and binding never change, the generation never goes down, and a generation determines the desired size |
| `VolumeRecords.StoredRecordsLoad` | internal/controlplane/volume_records.go:24-72 | every record the protocol ever stores passes all the checks made on loading |
| `LoadableRecords.LoadVolumeRecords` | internal/controlplane/volume_records.go:24-72 | the load succeeds exactly when every stored record can be read, lies under its own key, is bound, and has sizes, a generation and a state that make sense; then it holds all of them |
| `LoadableRecords.ResolvedLoads` | internal/controlplane/volume_records.go:74-117 | the in-place edit of loaded records changes a record only by one legitimate resize to a declared size, and every record it leaves loads again |
| `LoadableRecords.ReconcileStoresLoadable` | internal/controlplane/volume_records.go:24-147 | what one reconcile stores, by updates and by creation for placed volumes, are legitimate operations, and the whole book passes the load checks |
| `Acknowledgement.Pass.AcknowledgeVolumeRecords` | internal/controlplane/volume_records.go:181-246 | the nested loops acknowledge every volume reported in a readable node record in turn, passing over records that cannot be read or written; only failing to list the nodes is an error, and then nothing is written |
| `Acknowledgement.PassAcknowledges` | internal/controlplane/volume_records.go:181-246 | a pass changes only what reports of the same generation from the bound place speak for, whatever accesses fail, and the last report that confirms or complains decides: a complaint leaves the record failed with exactly its message, a confirmation applied at the desired size without one |
| `EndToEnd.AppliedWasCommitted` | internal/controlplane/volume_records.go:181-246 | in every interleaving of controllers, heartbeats of any age and agent prepares with crashes, a local record in state applied names a manifest its bound node has committed |
| `EndToEnd.ReportedWasCommitted` | internal/agent/status.go:180-199 | a status in state prepared carries a size and generation that were committed |
| `CasStore.WriteReplacesWhatWasRead` | internal/controlplane/blob_state_test.go:66-85 | a conditional write that goes through replaces the very value that was read |
| `Lease.ApplyKeepsInv` | internal/controlplane/controller.go:71-141 | every step of election, in any interleaving with late, lost and unanswered writes, extends the chain of locks correctly |
| `LeaseSafety.OneHolderPerEpoch` | internal/controlplane/controller.go:71-141 | every epoch has exactly one holder, ever |
| `LeaseSafety.BelieversDiffer` | internal/controlplane/controller.go:71-141 | two controllers that believe they lead never share an epoch |
| `LeaseSafety.TakeoverAfterExpiry` | internal/controlplane/controller.go:109-125 | the lock changes hands only after it expired on the shared clock, and then by one epoch |
| `LeaseSafety.TrueMeansHeld` | internal/controlplane/controller.go:326-333 | when stillLeader returns true, the store still holds the lock for this controller and epoch at its clock sample |
| `LeaseSafety.WindowsAreDisjoint` | internal/controlplane/controller.go:326-333 | windows from sample to expiry of true answers to different controllers never meet |
| `LeaseSafety.UndisturbedRenewalLeads` | internal/controlplane/controller.go:71-141 | an undisturbed renewal on a free, expired or own lock makes the controller leader |
| `LeaseSafety.BeliefCanBeStale` | internal/controlplane/controller.go:71-141 | a concrete run in which two controllers believe they lead at once |
| `LeaseSafety.BelieverLeadsWhileUnexpired` | internal/controlplane/controller.go:71-141 | over every run: a believer whose last renewal plus its time to live has not passed holds the last lock, and every other believer believes in an older epoch |
| `LeaseSafety.ExpiredCanBeTaken` | internal/controlplane/controller.go:71-141 | past the expiry of the last lock another controller takes over in one undisturbed renewal, while the old one goes on believing whatever it believed |
| `LeaseSafety.SecureExactlyWhileUnexpired` | internal/controlplane/controller.go:71-141 | the last holder stays so under any steps short of the clock moving on if and only if its lock has not expired |
| `Controller.Process.RenewLeadership` | internal/controlplane/controller.go:71-141 | an error exactly if an access got no answer, and then belief is unchanged; it leads exactly if the lock read was free, its own or expired at the clock sample, nobody wrote in between and it is told so, and then the store holds its lock, renewed now, in the right epoch; the memoized signature is dropped exactly when belief changes |
| `Controller.Process.CalmRenewalLeads` | internal/controlplane/controller.go:71-141 | with nobody in between, a renewal that may lead stores its lock, so a dead leader is replaced |
| `Controller.Process.StillLeader` | internal/controlplane/controller.go:326-333 | the answer is true exactly if the lock that was read names this controller and epoch and expires after the clock sample; then the store still holds it at that sample, and it is a verdict of the protocol |
| `Registry.AccessIsOneMutation` | internal/controlplane/registry.go:373-411 | an access that changes the store applies its mutator once to the record stored at that moment and touches no other record |
| `Registry.RefusedExactly` | internal/controlplane/registry.go:184-275 | a try that can read is refused exactly for an older process, or for a status of no known schema or of another node; a call has six tries |
| `Registry.RegisterSets` | internal/controlplane/registry.go:184-207 | a register sets state, labels, capacity, address and storage as announced; it keeps use and status of the same process and drops those of an older one |
| `Registry.HeartbeatKeeps` | internal/controlplane/registry.go:245-275 | a heartbeat reports use, storage and status, keeps state and labels, and keeps the last capacity and address when it brings none |
| `Registry.SetStateKeeps` | internal/controlplane/registry.go:344-357 | a state change on a record sets the state and nothing else an agent or operator announced |
| `Registry.DrainOutlivesHeartbeats` | internal/controlplane/registry.go:245-275 | over any run in which only heartbeats of a node land, its state stays: no heartbeat ends a drain |
| `Registry.RecordsAreWellFormed` | internal/controlplane/registry.go:184-357 | over every run a stored record carries its own name and a state, and a status only of a known schema and of this node |
| `Registry.OutcomesCount` | internal/controlplane/registry.go:373-411 | a call that succeeds wrote once; a refused or conflicting one wrote nothing |
| `Registry.GenerationNeverDecreases` | internal/controlplane/registry.go:184-207 | a node record never disappears and its generation never goes down |
| `Registry.StatusIsOfItsGeneration` | internal/controlplane/registry.go:245-275 | a stored agent status was reported by a heartbeat of the process whose generation the record carries |
| `Registry.OlderProcessIsFenced` | internal/controlplane/registry.go:184-187 | once a newer process is stored, a write prepared by an older one changes nothing |
| `Registry.FencedForever` | internal/controlplane/registry.go:344-357 | and that stays so over any run |
| `Registry.GenerationOrigin` | internal/controlplane/registry.go:184-357 | over every run a stored generation is that of a register or heartbeat that arrived for the node, or the clock sample of the state change that created the record, and never below that sample |
| `Registry.StampIsOfItsCreator` | internal/controlplane/registry.go:344-357 | such a sample is entered only by a state change that creates the record, and is its own |
| `Registry.StampedRefusesExactly` | internal/controlplane/registry.go:184-187 | while no newer process has met a record that a state change created, a process of generation g is refused as stale if and only if g is below the sample |
| `Registry.EarlyStateChangeRefusesRunningAgent` | internal/controlplane/registry.go:344-357 | a concrete run in which a state change creates the record and the agent that already ran can neither register nor report |
| `Registry.RegistryServer.UpsertNodeRecord` | internal/controlplane/registry.go:373-411 | the six-try loop applies its mutator once on top of the others' writes or changes nothing; only a store error can hide that the write landed; a store error needs an access without an answer, giving up a conflict in every try, a refusal a record that the mutator refuses |
| `Pointers.NoDanglingPointers` | internal/controlplane/controller.go:335-389 | in any interleaving and after any crash, the desired and placement pointers name stored revisions, the rendered pointer names a revision all of whose node files are stored, and stored objects refer to stored objects |
| `Pointers.PointerThenObjectSucceeds` | internal/controlplane/util.go:26-58 | reading a pointer and later the object it named always succeeds |
| `Publishing.UpsertPointer` | internal/controlplane/util.go:26-58 | the six-try loop: success means its own write went through, and it fails only if an access got no answer or others wrote during every try; without its write the pointer is as it was or as another process left it; other pointers are untouched |
| `Publishing.Publisher.WriteRendered` | internal/controlplane/controller.go:346-386 | the writing loop makes the accesses of the publishing program in order, a failure ends it after a prefix, success leaves every node file and exactly the legacy files of these nodes |
| `Publishing.Publisher.PublishPlacement` | internal/controlplane/controller.go:335-344 | nothing is written without the lease; the placement pointer is not touched before the revision it names is stored |
| `Publishing.Publisher.PublishRendered` | internal/controlplane/controller.go:346-389 | nothing is written without the lease; the rendered pointer is not touched before the files of all nodes are stored; success leaves the pointer and exactly the legacy files of these nodes |
| `Publishing.Publisher.Publish` | internal/controlplane/controller.go:237-245 | the publishing end of a reconcile makes the accesses of the pass program in its order, up to the first that fails, and all of them when nothing goes wrong |
| `Publishing.Publisher.RemoveLegacy` | internal/controlplane/controller.go:370-386 | deletes exactly the legacy files of nodes without a config, and succeeds exactly if the listing and each of these deletes do |
| `Pointers.PassProgramIsSafe` | internal/controlplane/controller.go:335-389 | the order of writes of a pass never leaves a reference open |
| `Pointers.DesiredProgramIsSafe` | internal/controlplane/events.go:212-218 | so does the order of writes of an event |
| `Reconciler.VolumesEqualMeaning` | internal/reconciler/reconciler.go:363-377 | volume lists count as equal exactly when they hold the same volumes in any order |
| `Reconciler.NeedsUpdateMeaning` | internal/reconciler/reconciler.go:327-404 | an instance is left alone exactly when it runs and equals the desired service up to volume order, anti-affinity group, health check, metadata, links and the environment (which counts through the kernel arguments made from it) |
| `Reconciler.PlanMeaning` | internal/reconciler/reconciler.go:77-114 | a plan holds exactly the needed creates, updates and deletes, at most one per service |
| `Reconciler.NothingToPlan` | internal/reconciler/reconciler.go:77-114 | a plan is empty exactly when every desired service runs in a version that needs no update and nothing else is there |
| `Reconciler.ConvergedRunsAsDesired` | internal/reconciler/reconciler.go:327-361 | with nothing to plan, every service runs exactly as desired if and only if none differs in a field the comparison ignores |
| `Reconciler.ChangedHealthCheckIsIgnored` | internal/reconciler/reconciler.go:287-327 | a running service that differs only in its health check: nothing is planned, so it never runs as desired |
| `Reconciler.AnyOrderSameResult` | internal/reconciler/reconciler.go:126-165 | the outcome of an all-at-once apply does not depend on the order of its actions, whatever fails |
| `Reconciler.RollingWithoutError` | internal/reconciler/reconciler.go:169-231 | a rolling apply without error reaches the same instances as an all-at-once apply |
| `Reconciler.AllAtOnceIsBestEffort` | internal/reconciler/reconciler.go:126-165 | whatever fails, every service whose own steps succeed ends up as desired, and a failed preflight leaves the old VM as it was |
| `Reconciler.ApplyConverges` | internal/reconciler/reconciler.go:118-231 | an apply that reports no error leaves nothing to plan |
| `Reconciler.ErrorsAreReported` | internal/reconciler/reconciler.go:126-165 | an all-at-once apply of a plan reports an error exactly if a preflight or a start failed, so none without faults |
| `Reconciler.RollStopsAtFirstFailure` | internal/reconciler/reconciler.go:196-225 | a rolling update stops at the first update that fails or is interrupted: those up to there are carried out, those behind it are not touched, and an error is reported exactly if it stopped |
| `ReconcileLoop.RollingKeepsTheRestUp` | internal/reconciler/reconciler.go:196-225 | at every moment of a rolling update at most one to-be-updated running service is down |
| `ReconcileLoop.RollingTakesOneDown` | internal/reconciler/reconciler.go:169-231 | the whole rolling apply, deletes, creates and updates under any failures: in every state it passes through at most one to-be-updated running service is down |
| `ReconcileLoop.AllAtOnceCanTakeTwoDown` | internal/reconciler/reconciler.go:137-155 | two running services that both need an update: their plan, applied all at once while both starts fail, leaves both down |
| `ReconcileLoop.PlanOfTwoUpdates` | internal/reconciler/reconciler.go:77-114 | and those two updates are their plan |
| `ReconcileLoop.AllAtOnceTakesDownExactly` | internal/reconciler/reconciler.go:126-165 | all at once, a running service to be updated is down afterwards if and only if its start fails and its preflight does not; so at most one is down if and only if there is at most one such service |
| `ReconcileLoop.VmManager.Start` | internal/vm/manager.go:161-235 | refuses a running service; a failed start leaves the instance map alone |
| `ReconcileLoop.VmManager.Remove` | internal/vm/manager.go:284-305 | forgets exactly the named instance |
| `ReconcileLoop.Agent.Plan` | internal/reconciler/reconciler.go:77-114 | the loops build a plan |
| `ReconcileLoop.Agent.Perform` | internal/reconciler/reconciler.go:130-161 | one action does to its service what the specification says |
| `ReconcileLoop.Agent.ApplyInTurn` | internal/reconciler/reconciler.go:126-165 | the loop goes on after an error and performs every action in turn |
| `ReconcileLoop.Agent.ApplyRolling` | internal/reconciler/reconciler.go:169-231 | deletes, creates, then updates one at a time until one fails |
| `ReconcileLoop.Agent.Reconcile` | internal/reconciler/reconciler.go:241-256 | performs a plan by the configured strategy, and without an error the instances have converged |
| `VmLifecycle.StepKeepsRecords` | internal/vm/manager.go:161-355 | the records of live processes stay right at a step exactly when it is none of three: an exit report booked on a living successor, a stop or removal that takes a living process off the books, an agent restart over a living one |
| `VmLifecycle.OneProcessPerService` | internal/vm/manager.go:161-355 | as long as none of the three happens a service never has two live processes |
| `VmLifecycle.DisorderLeavesTwoProcesses` | internal/vm/manager.go:161-355 | after any such step, a removal that waits and a start leave two live processes of one service |
| `VmLifecycle.HarmlessExactly` | internal/vm/manager.go:161-355 | so a step is harmless under every later orderly course if and only if it is none of the three |
| `VmLifecycle.LateReportLeavesTwoProcesses` | internal/vm/manager.go:327-355 | a concrete run in which a late exit report makes an update start a second process beside a living one |
| `VmLifecycle.LosingTrackLeavesTwoProcesses` | internal/vm/manager.go:161-305 | three concrete runs: a removal that gives up, a stop that gives up, an agent restart; each leaves two processes alive after the next start |
| `VmLifecycle.RaceLeavesTwoProcesses` | internal/agent/agent.go:86-99 | a concrete run of a health restart beside an update in which every process exits when told to, and two processes are left alive |
| `Routes.RenderLocalMeaning` | internal/traefik/traefik.go:96-129 | rendering local routes fails exactly when a service is unroutable or two claim one hostname |
| `Routes.LocalRoutesAreExact` | internal/traefik/traefik.go:96-129 | the local files are exactly one route per service that asks for one, to the guest's address at the port of its first forward, or else of its health check |
| `Routes.OneFilePerHostName` | internal/traefik/traefik.go:137-188 | each hostname is in at most one file, and local routes win over every peer's |
| `Routes.OfferIsServedInTurn` | internal/traefik/traefik.go:137-188 | a peer offer adds exactly its own route, to the peer's address at the host port of the first forward, if it has these and neither its hostname nor its file name was taken when its turn came; otherwise nothing; nothing later undoes it |
| `Routes.TakenByWhom` | internal/traefik/traefik.go:137-188 | whatever was taken was taken by a local route or an earlier offer that could be proxied |
| `Routes.PeersTakeTurns` | internal/traefik/traefik.go:137-142 | offers come by node and then by service name, so of two peers with one hostname the one of the smaller name is served |
| `Routes.PeerOrderIsIrrelevant` | internal/traefik/traefik.go:137-142 | the order in which peers are listed makes no difference |
| `RouteDir.Directory.ApplyRoutes` | internal/traefik/traefik.go:194-250 | a failure at any point leaves each file wholly old or wholly new and deletes nothing before all renames; files that do not end in ".yaml" are never touched; success leaves exactly the desired files |
| `RouteDir.Directory.Sync` | internal/traefik/traefik.go:70-77 | wrong local routes touch nothing; a successful sync leaves exactly the desired route files |
| `RouteDir.Directory.SyncLocal` | internal/traefik/traefik.go:84-90 | never removes a remote file |
| `RouteDir.LocalSyncKeepsHostNamesApart` | internal/traefik/traefik.go:84-90 | after a local sync hostnames are in one file each exactly when no preserved remote file routes a hostname now claimed locally |
| `RouteDir.LocalSyncCanShareHostName` | internal/traefik/traefik.go:84-90 | a concrete local sync after which a preserved remote file and a local one route the same hostname |
| `Addressing.GuestIPExactly` | internal/agent/agent.go:601-626 | which indexes get an address, for any subnet with a prefix above 0: no wrap, no address below the second host |
| `Addressing.GuestIPFromNetworkAddress` | internal/agent/agent.go:601-626 | with the subnet written as its network address, index i gets base + i + 2 exactly when that is below broadcast |
| `Addressing.BroadcastHandedOut` | internal/agent/agent.go:551-572 | the broadcast address is handed out exactly when the subnet is written with host bits and enough addresses lie above |
| `Addressing.WholeSpace` | internal/agent/agent.go:601-626 | a subnet of prefix 0 wraps around within the whole address space |
| `Addressing.AssignNetworking` | internal/agent/agent.go:551-599 | the loop gives each networked service the address, MAC and ip= kernel argument of its rank, keeps an ip= argument of its own, and stops when the block is full |
| `Addressing.AddressesAreDistinct` | internal/agent/agent.go:551-632 | for every subnet, served services have pairwise distinct addresses and MACs; unless the subnet is all addresses written with host bits, the addresses rise with the rank and lie inside the block |
| `Addressing.ServedGuestHasAddressArgument` | internal/agent/agent.go:592-595 | a served guest boots with an ip= argument before any "--", and one it already had is left as it is |
| `Addressing.MacTellsIndex` | internal/agent/agent.go:628-632 | a MAC begins with AA:FC and determines its index |
| `Base64Url.RoundTrip` | internal/agent/agent.go:710-716 | decoding undoes unpadded URL-safe base64 for every byte string |
| `Base64Url.EncodingIsPlain` | internal/agent/agent.go:710-716 | an encoding holds only alphabet characters, so it stays one token |
| `Base64Url.EncodingLength` | internal/agent/agent.go:710-716 | four digits for each three bytes, and no padding |
| `Base64Url.KnownEncodings` | internal/agent/agent.go:710-716 | known encodings, among them of the two URL-safe digits |
| `KernelArgs.InsertKernelArg` | internal/agent/agent.go:855-874 | whatever the argument splits into goes before the first "--", or to the end; all other tokens keep their order |
| `KernelArgs.HasKernelArgPrefix` | internal/agent/agent.go:839-851 | the scan finds exactly whether a token before the first "--" has the prefix |
| `KernelArgs.FieldsAreTokens` | cmd/fc-init/main.go:255 | splitting yields non-empty tokens free of any Unicode whitespace |
| `KernelArgs.FieldsHoldNoSpace` | cmd/fc-init/main.go:255 | no field holds the UTF-8 bytes of any character that unicode.IsSpace calls whitespace |
| `KernelArgs.SpaceStartsOnlySo` | cmd/fc-init/main.go:255 | and only at the UTF-8 bytes of such a character is a command line split |
| `KernelArgs.FieldsOfJoined` | internal/agent/agent.go:855-874 | splitting undoes joining |
| `EnvVars.ParseUndoesEncoding` | cmd/fc-init/main.go:270-292 | parsing an environment argument gives back the key and value it was made from |
| `EnvVars.InjectEnvVars` | internal/agent/agent.go:685-708 | the loop inserts one argument per variable in the byte order of the keys, and the guest gets the environment back |
| `EnvVars.KeyOrderIsUnique` | internal/agent/agent.go:693-698 | the keys have one sorted order, so the command line does not depend on the order the map hands them out in |
| `EnvVars.ExportFireworkEnv` | cmd/fc-init/main.go:249-268 | the loop folds the parser over the tokens of the command line |
| `EnvVars.EnvironmentRoundTrip` | internal/agent/agent.go:685-716 | what the guest exports from the command line the agent wrote is exactly the environment map; injected tokens precede "--" and the others keep their order |
| `EnvVars.ValueSurvivesExactly` | internal/agent/agent.go:710-716 | a single value comes back exactly when it has no zero byte and either an ASCII space or no whitespace at all |
| `EnvVars.NoBreakSpaceIsTornApart` | internal/agent/agent.go:710-716 | a concrete value, with a no-break space, that does not come back |
| `VolumeSpecs.SizeReadsBack` | internal/config/size.go:18-56 | a decimal number of Mi or Gi is read as its bytes exactly when it is positive and the product fits 64 bits |
| `VolumeSpecs.SpaceAroundSizes` | internal/config/size.go:27-28 | space around a size is ignored |
| `VolumeSpecs.SizesComeFrom` | internal/enricher/defaults.go:70-86 | a volume has its declared size, or else the default of its own type, or else 10 Gi |
| `VolumeSpecs.ResolveVolumes` | internal/enricher/defaults.go:70-90 | the loop resolves every declared volume, with the defaults for missing sizes, in order of the names |
| `VolumeSpecs.SizesArePositive` | internal/enricher/defaults.go:70-90 | with accepted sizes and defaults every resolved size is positive and fits 64 bits |
| `VolumeChecks.ValidateVolumes` | internal/enricher/validation.go:112-157 | the counting loop objects to nothing exactly when every declaration is well-formed, readable in size and free of system-owned fields, and names and paths are apart |
| `VolumeChecks.ValidateServiceVolumes` | internal/volume/manager.go:547-580 | the loop accepts exactly the well-formed volume lists |
| `VolumeChecks.ReservedPaths` | internal/volume/manager.go:564-572 | nothing may be mounted on or under /proc, /sys, /dev, /run and /tmp |
| `VolumeChecks.LabelsRead` | internal/enricher/validation.go:96-121 | an application names a volume with 1 to 63 small letters, digits and dashes, and no dash at either end |
| `GuestVolumes.DevicesRead` | cmd/fc-init/main.go:138-141 | the guest accepts exactly the devices the agent hands out, /dev/vdb to /dev/vdz |
| `VolumeChecks.AcceptedStaysInside` | internal/volume/manager.go:547-580 | what the agent accepts: at most 25 volumes of positive size, each named by one plain path component, off reserved paths, and no two at or inside one another |
| `VolumeChecks.ValidatePayload` | cmd/fc-init/main.go:98-154 | the guest's check accepts exactly payloads of version 1 with valid volumes on distinct devices and paths |
| `VolumeChecks.AgentAcceptsWhatEnricherAccepts` | internal/enricher/validation.go:112-157 | declarations the enricher accepts, resolved by it and bound by the control plane, are accepted by the agent |
| `GuestVolumes.GuestAcceptsPayload` | internal/vm/manager.go:119-145 | the payload written for accepted volumes passes the guest's checks |
| `GuestVolumes.SamePayload` | internal/vm/manager.go:373-401 | the payload that was measured is the payload that is written |
| `GuestVolumes.ValidateVolumeKernelArgs` | internal/vm/manager.go:119-145 | accepts exactly when the command line with the payload has at most 2047 bytes |
| `GuestVolumes.PreflightKernelArgs` | internal/vm/manager.go:82-99 | without volumes nothing is measured; with volumes the preflight accepts exactly what fits |
| `GuestVolumes.WrittenWithinLimitExactly` | internal/vm/manager.go:373-430 | no command line over the limit is ever written for a service, whatever its kernel arguments, if and only if it is being updated and has volumes |
| `GuestVolumes.GuestMountsWhatWasDeclared` | internal/vm/manager.go:373-430 | for volumes the enricher accepted: the written command line is the one a preflight measures, it fits exactly if it is accepted, the guest reads the declared volumes back from it, and drive i is device i |

## Left out

- NextPassIsTheSame: the acknowledgements allowed in between apply no shrink; one that does releases space, and a service that waited for it may then be placed, as it should be.
- PassIsFixpoint: assumes distinct service names and node IDs, non-negative sizes and shared storage off; the enricher, the registry and `storageReservations` see to these.
- BelieversDiffer: controller IDs are never reused (host, process ID and start time in nanoseconds) and all processes share one monotone clock.
- AppliedWasCommitted: covers local volumes; shared ones cannot be prepared by this agent.
- StatusIsOfItsGeneration: the shortening and masking of status messages is not modelled; a status is compared as reported.
- ReconcileStorage: the input signature holds the inputs themselves instead of their hash.
- WriteRendered: no other process writes the same objects meanwhile; revision names are unique, and for legacy files the interleavings are in `Pointers`.
- AcknowledgeVolumeRecords: error messages stand as shortened and masked; no other process writes between a read and its conditional write; those interleavings are in `VolumeRecords`.
- GuestMountsWhatWasDeclared: JSON is an opaque codec with `unmarshal(marshal(x)) == x`; path cleaning is one opaque predicate used alike by all three validators.
- ReconcileAdmits: bounds record reservations, not actual file sizes while a resize is unacknowledged; the code does not bound those.
- Concurrency is modelled on values: the protocol modules are state machines whose steps are store accesses. Objects with fields model the code of one process (`VolumeDir`, `Pass`, `Process`, `RegistryServer`, `Publisher`, `Agent`, `Directory`); a process that interleaves with others has their steps passed in.
- `Publishing` and `Acknowledgement` run one process alone; interleavings of the same accesses are in `Pointers` and `VolumeRecords`.
- 64-bit wrap-around of sizes, generations and epochs; integers are unbounded except in `NodePool`, `Addressing` and `VolumeSpecs`.
- The logical ID "service/volume" is a pair, which is injective because neither part may hold a slash.
- Manual deletion of records, locks or images, and objects or files that do not parse.
- A power loss that reorders writes: a crash stops the process, and completed writes stay.
- The older `Schedule` and `bestFit`, which no reconcile calls any more, and placement of shared volumes, which `storageReservations` always disables.
- Fencing of unconditional writes after `stillLeader`; the code has none.
- `discoverActiveNodes`, host IPs and cross-node links: field copying around the modelled steps.
- The health monitor, port forwards and network devices of a service: only whether setting them up fails is modelled.
- Per-service locks, metrics, log lines and status conditions.
- S3, GCS and git clients, HTTP, TLS, certificates and webhooks, the web UI, `fireworkctl`, configuration loading and defaults.
- Processes, mounts, users and hostnames inside the guest beyond what the command line carries.
