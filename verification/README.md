# Rubbish: verified models of the session, volume and workflow protocols

This project models the parts of Rubbish where several goroutines, processes or machines act on shared
state, and proves what they keep in every run. Everything is Dafny; `dafny verify dfyconfig.toml` checks it.

Three protocols are modelled as step systems. Every I/O call is a step that may fail, every lock-protected
block and every `Get` or `Upsert` of a store is a step of its own, and the theorems are about all sequences of
steps, that is, all interleavings.

- **Sessions and slots** (`Lifecycle`, `Slots`, `SessionProtocol`, `StopRaces`, `BootOutcomes`, `Departures`,
  `Recovery`, `RecoveryLaws`, `RecoveryAgain`, `RecoveryHandover`): `Create`, the `boot` goroutine, `Stop` with its
  cleanup goroutine, and recovery after a restart. `boot` and the cleanup are data (a tree of actions); a
  weakest-precondition judgment over that tree, `Safe`, carries the proof that each action finds what it needs, and
  the system invariant is built on it.
- **Thin volumes** (`ThinVolumes`): concurrent creates and deletes of snapshots, with commands that fail, or report
  failure and take effect all the same, with crashes and rebuilding from the device table.
- **Workflows** (`StageNames`, `StageRun`, `StageAlone`, `Workers`, `Engine`, `EngineRuns`, `Resume`): research,
  plan, the parallel implement and verify workers behind a semaphore, merge, crash recovery and `Resume`. Workers
  copy the whole workflow, change the copy and write it back, so updates get lost; the invariant is about every
  version anyone holds, which is why the results survive that.

Four smaller parts are modelled beside them: the branch merge on a git remote (`Merge`), the extractors and
validators of agent output (`Extraction`), shell quoting (`ShellQuote`) and the file-backed session store
(`SessionStore`).

Two kinds of results stand beside each other: invariants and exact conditions over all runs, and what a single
operation comes to, answer by answer, when nothing interferes (`BootOutcomes`, `StageAlone`, `EngineRuns`, and
lemmas such as `Merge.AbortedConflictsCostNothing` or `ThinVolumes.CreateSucceeds`). The second kind says that the protocols do what they are for; the first, that nothing
else happens.

Code that updates objects in place is modelled by classes whose methods are proved against functions on values:
`Lifecycle.StateMachine`, `Slots.SlotTable`, `Recovery.SessionManager`, `ThinVolumes.SnapshotManager`,
`Merge.Remote`, `SessionStore.JSONStore`. The step systems use the same functions.

## Where the code departs from its comments

The models follow the code.

- Ready to Failed is not in the transition table, so both requests for it after a claude run are refused
  (`SessionProtocol.BootMoves`). After a usage limit the teardown runs all the same; after another claude error
  it is skipped and the session stays Ready with its VM and slot until somebody stops it
  (`BootOutcomes.ClaudeOutcomes`, `Departures.ClaudeErrorLeavesReady`, `Departures.RestsUntilStopped`).
- An outside `Stop` that meets a running claude leads to a second release of the slot. `StopRaces.StopSafeExactly` and
  `StopRaces.NoSharingExactly` give the exact condition, `Departures.StopDuringClaudeSharesSlot` a run from any
  manager that has just started to the damage: two later sessions on one slot.
- After a usage limit the row of the session says ready for good while its slot is given to others. A restart can
  then recover two sessions on one slot (`RecoveryHandover.LimitThenRestart`), or, while the later session boots,
  recover the dead one on the VM of the booting one and kill that VM as in flight
  (`RecoveryHandover.LimitThenRestartAtBoot`). `RecoveryHandover.OwnershipCarriesExactly` and
  `RecoveryHandover.LegalStartExactly` say exactly when the slots, and when slots and VMs, are in order after a restart.
- The orphan sweep and the stop of a detached VM remove the socket whether or not they killed the process; a failed
  lsof, or two processes on the slot, leaves a VM running that nothing finds again (`RecoveryLaws.OrphansExactly`,
  `RecoveryHandover.FailedLsofLosesVm`, `RecoveryLaws.LostForGood`).
- A failed workspace mount releases the slot and leaves the VM and the snapshot behind, also when another session
  then gets the slot (`SessionProtocol.ResourceOrder` states this as an equivalence,
  `Departures.MountFailureSharesSlot` is a run).
- The volume counter is reconciled against session volumes only, and only against those on a readable device. What
  keeps volumes from being named twice is that the counter file is above them all to begin with, and exactly that
  (`ThinVolumes.FreshExactly`); `scripts/setup-storage.sh` makes the base volume 1.
- A resumed stage whose last write failed is Done while the workflow ends Failed (`Resume.UnsavedStageEndsFailed`,
  `Resume.EndsDoneExactly`).
- The engine drops the list of branches that did not merge, so a Done workflow has handed every branch to the merge
  (`Engine.DoneMeansAllGated`) but may have left some of them unmerged: a merge call with failed branches reports no
  error (`Merge.MissingBranchIsNoError`), nor does one cancelled before its first merge, whose lists are both empty
  (`Merge.CancelledIsNoError`).
- The merge loop ignores whether its abort of a conflict went through. If it did not, every later branch fails as
  well until an abort does (`Merge.UnabortedStep`, `Merge.Remote.MergeTip`).
- A session row whose save failed is forgotten by the next read and stored by the next successful write, whichever
  comes first (`SessionStore.FailedSaveFate`).

## Model

| member | source | states |
|---|---|---|
| `Lifecycle.StateMachine.Transition` | internal/session/statemachine.go:73-99 | a request is accepted exactly when the table has the pair; a refused one changes nothing; an accepted one calls every hook once, in registration order, each with the old and the new state |
| `Lifecycle.AcceptedIsLawful` | internal/session/statemachine.go:31-99 | whatever is requested, the accepted moves are a stretch of the life chain, which before Ready may break off into Failed |
| `Lifecycle.LawfulIsAccepted` | internal/session/statemachine.go:31-99 | every such stretch can be had by requesting it |
| `Lifecycle.TracesAreExactlyLawful` | internal/session/statemachine.go:31-42 | the traces of a new session are exactly the lawful ones |
| `Lifecycle.TraceShape` | internal/session/statemachine.go:31-42 | at most six moves; Stopped only through the whole chain; only Stopping and Stopped after Ready |
| `Slots.TakenPrefix` | cmd/poc/main.go:271-284 | pigeonhole: the probing loop stops within one probe more than there are used slots |
| `Slots.Alloc` | cmd/poc/main.go:271-284 | the least free slot; none exactly when a positive limit is reached; never above the limit |
| `Slots.SlotTable.AllocSlot` | cmd/poc/main.go:271-284 | the loop finds the least free slot and marks it; it fails exactly when the limit is reached; its inner limit check never fires |
| `SessionProtocol.BootIsSafe` | cmd/poc/main.go:328-716 | every path of boot, whatever each I/O call answers, stops the VM and deletes the snapshot before it releases the slot, does each at most once, and has its state requests accepted where it relies on that |
| `SessionProtocol.CleanupIsSafe` | cmd/poc/main.go:770-789 | the cleanup of a stopped session gives everything back once, in the right order |
| `SessionProtocol.TeardownIsSafe` | cmd/poc/main.go:615-634 | so does the teardown after a usage limit, although the session still shows Ready |
| `SessionProtocol.StepKeepsInv` | cmd/poc/main.go:294-345 | every step of every goroutine keeps: used slots are exactly the owned ones, no two owners share one, each session is at a safe point |
| `SessionProtocol.RunKeepsInv` | cmd/poc/main.go:294-806 | so does every run in which an outside Stop is accepted only when boot is over and the slot still held |
| `SessionProtocol.SlotOwnership` | cmd/poc/main.go:271-345 | over such runs: used slots are the owned slots, owners are distinct, nothing is released twice, and a session that shows Stopped or Failed has released what it took |
| `SessionProtocol.InteractiveStopsAreSafe` | cmd/poc/main.go:738-806 | however Stops of interactive sessions are timed, the run is of that kind |
| `SessionProtocol.OwnershipWithInteractiveStops` | cmd/poc/main.go:271-345 | hence slot ownership for every run in which no non-interactive session is stopped from outside |
| `SessionProtocol.ResourceOrder` | cmd/poc/main.go:387-441 | once a slot is released its VM was told to stop and its snapshot deleted exactly once, unless, and only unless, the workspace mount failed |
| `SessionProtocol.FreeSlotHasNoVm` | cmd/poc/main.go:770-784 | a slot not in use has no unstopped VM on it, except after a failed mount |
| `SessionProtocol.MapHoldsNoLeftovers` | cmd/poc/main.go:786-793 | a session still in the manager's map with no goroutine at work is Ready with its slot, has Failed, or was loaded as stopped |
| `SessionProtocol.RunKeepsMap` | cmd/poc/main.go:738-806 | over every run: a session outside the manager's map is Stopped or Failed, or was taken out by its own goroutines |
| `SessionProtocol.StopClearsTheDone` | cmd/poc/main.go:738-768 | a Stop that finds its session Stopped or Failed takes it out of the map and does nothing else, and no later Stop finds it |
| `SessionProtocol.RunKeepsLimit` | cmd/poc/main.go:271-284 | no run takes the number of used slots above a positive limit |
| `SessionProtocol.BootMoves` | cmd/poc/main.go:407-448 | in every run boot's requests are accepted before Ready; its requests for Failed after a claude run are refused |
| `StopRaces.UnsafeStopFreesTwice` | cmd/poc/main.go:685-701 | a Stop accepted at any other moment has a continuation that releases the slot twice |
| `StopRaces.StopSafeExactly` | cmd/poc/main.go:738-784 | an accepted Stop never leads to a second release, in any continuation, if and only if boot is over and the slot still held |
| `StopRaces.FillSlot` | cmd/poc/main.go:271-326 | creating sessions brings any free slot within the limit into some session's hands |
| `StopRaces.UnsafeStopSharesSlot` | cmd/poc/main.go:612-626 | from every state that keeps the invariant and the limit, after an unsafe Stop two other sessions come to own its session's slot, whichever slot that is |
| `StopRaces.NoSharingExactly` | cmd/poc/main.go:738-784 | an accepted Stop is never followed by two sessions on one slot, in any continuation whose own Stops are safe, if and only if boot is over and the slot still held |
| `BootOutcomes.ClaudeOutcomes` | cmd/poc/main.go:593-716 | whatever a Ready session holds when its claude run ends, and boot then runs to its end: a usage limit leaves it Ready with its VM stopped, its snapshot deleted, its slot released and out of the map; an error leaves it Ready with everything it held; a good run leaves it Stopped with everything given back; nothing else changes |
| `BootOutcomes.BootEndsWith` | cmd/poc/main.go:328-716 | for every combination of answers of boot's calls, the state it ends in and what it still holds: each failed call ends in Failed with everything given back, except that a failed mount leaves VM and snapshot |
| `BootOutcomes.CreatedBootEnds` | cmd/poc/main.go:286-716 | from any manager with a free slot, the creation of a session and its boot with these answers is a run; the slot stays in use exactly when every call went well and the session is interactive or claude failed |
| `BootOutcomes.CleanupOutcome` | cmd/poc/main.go:738-806 | an accepted Stop whose cleanup runs to its end by itself leaves the session Stopped, everything given back, its slot free and the session out of the map |
| `Departures.UnsafeStopIsMet` | cmd/poc/main.go:586-600 | from every fresh or recovered manager with a free slot, some run leads to an accepted Stop that is not safe |
| `Departures.StopDuringClaudeSharesSlot` | cmd/poc/main.go:738-784 | and on to two sessions on one slot |
| `Departures.StopDuringClaudeFreesTwice` | cmd/poc/main.go:685-701 | or to a second release |
| `Departures.ClaudeErrorLeavesReady` | cmd/poc/main.go:641-658 | a run in which claude ends with an error that is no usage limit ends with the session Ready, holding its VM, its snapshot and its slot, and nothing left to do |
| `Departures.RestsUntilStopped` | cmd/poc/main.go:641-658 | and so it stays in every run until somebody stops it |
| `Departures.MountFailureSharesSlot` | cmd/poc/main.go:504-512 | some run fails to mount the workspace and gives the slot to another session while the first one's VM runs on with its snapshot |
| `Departures.LimitLeavesTwoReady` | cmd/poc/main.go:606-634 | a run in which claude hits the usage limit, without any Stop, ends with that session and a later one both Ready on one slot |
| `Departures.LimitLeavesReadyAndBooting` | cmd/poc/main.go:606-634 | and one in which it hits the limit ends with it Ready while the later session boots on that slot, its VM launched |
| `Recovery.SessionManager.LoadFromDB` | cmd/poc/main.go:1005-1098 | the loop over the rows and the sweep compute what the functions on values say, for every mix of failed lsof calls, kills, removals and writes; under a positive limit every slot from 0 up to it that is not in use afterwards is swept: its socket is gone unless the removal failed, and its VM is gone if it was alone there and lsof and the kill worked; nothing happens when the rows cannot be listed |
| `Recovery.SessionManager.SlotsForCleanup` | internal/vm/cleanup.go:97-115 | k is scanned if and only if, with a positive limit, 0 <= k < limit, and without one, its socket was found |
| `Recovery.SessionManager.CleanupOrphansExcept` | internal/vm/cleanup.go:52-93 | slot by slot, what the loop leaves: nothing changes on a slot that is spared or not listed; an error for exactly the listed, unspared slots whose socket could not be removed |
| `Recovery.SweepSockets` | internal/vm/cleanup.go:52-93 | exactly which sockets the sweep leaves |
| `Recovery.SweepVms` | internal/vm/cleanup.go:52-93 | exactly which VMs the sweep kills: those alone on a scanned, unspared slot with a socket, when lsof works and they do not withstand the kill |
| `Recovery.ScannedExactly` | internal/vm/cleanup.go:97-115 | which slots a recovery scans, as an equivalence |
| `Recovery.SweepSlotBySlot` | internal/vm/cleanup.go:52-93 | a listed, unspared slot is swept, every other slot is as it was, and no VM appears or moves |
| `RecoveryLaws.RowsRecover` | cmd/poc/main.go:1033-1090 | the recovered and the used slots are exactly those of the ready rows seen alive |
| `RecoveryLaws.RowAgrees` | cmd/poc/main.go:1005-1098 | the final session and row for each stored row, given whether it was seen alive and whether its write went well |
| `RecoveryLaws.SessionSettles` | cmd/poc/main.go:1005-1098 | every session ends Ready, Stopped or Failed, Ready exactly when seen alive; store and map agree on its status if and only if no write was due or its write went well |
| `RecoveryLaws.ContentsSettle` | cmd/poc/main.go:1005-1098 | the whole final record of each session and row: slot and data from the row; a row that is rewritten is failed, with its reason, and loses role, prompt and result |
| `RecoveryLaws.UsedAreReady` | cmd/poc/main.go:1085-1090 | no row is added or removed, and the used slots are exactly those of the recovered Ready sessions |
| `RecoveryLaws.RowsKill` | internal/vm/detached.go:33-43 | exactly which VMs and sockets the rows' stops take: only in-flight rows seen alive stop anything, and only a VM alone on its slot is killed |
| `RecoveryLaws.RowKillsExactly` | internal/vm/detached.go:33-43 | a row's stop kills a VM if and only if the row is in flight on its slot, was seen alive, lsof then finds the VM alone there and it does not withstand the kill |
| `RecoveryLaws.TakerExactly` | internal/vm/detached.go:33-43 | when an in-flight row takes its slot from a later ready row, as an equivalence on host and answers |
| `RecoveryLaws.SurvivorsExactly` | internal/vm/cleanup.go:52-93 | a VM runs after recovery if and only if no row's stop and not the sweep killed it |
| `RecoveryLaws.KeptExactly` | cmd/poc/main.go:1032-1075 | a row is recovered if and only if it is ready, its slot was alive at first, lsof works for it, and no in-flight row listed before it takes the slot |
| `RecoveryLaws.RecoveredSurvive` | internal/vm/cleanup.go:52-93 | a VM on a recovered slot runs on if and only if no row's stop kills it, the socket stays if and only if none removes it, and the slot is still alive if and only if no in-flight row takes it |
| `RecoveryLaws.OrphansExactly` | internal/vm/cleanup.go:52-93 | on a scanned slot without a recovered session, exactly which socket and which VMs stay, a VM whose socket is gone among them |
| `RecoveryLaws.LostForGood` | internal/vm/cleanup.go:28-93 | a VM whose socket is gone survives any number of recoveries, with any rows and answers |
| `RecoveryLaws.WritesDoNotMatter` | cmd/poc/main.go:1049-1073 | whether the writes go well changes nothing but the store |
| `RecoveryLaws.OrderMattersExactly` | cmd/poc/main.go:1005-1098 | with the same answers for the same rows, two orders leave the same sessions, slots and store if and only if each ready row that was alive at first comes, in both or in neither, after an in-flight row that takes its slot |
| `RecoveryAgain.SessionRepeats` | cmd/poc/main.go:1005-1098 | after another restart, with any host and any answers, a session comes out the same if and only if its row, where it still says ready, is seen alive as it was before |
| `RecoveryAgain.StoreRepeats` | cmd/poc/main.go:1049-1073 | the store stays the same if and only if each row is settled, seen alive, or again cannot be written |
| `RecoveryAgain.SecondRecoveryExactly` | cmd/poc/main.go:1005-1098 | a second recovery of the host the first one left, whatever stayed, failed or was lost, changes no session if and only if each row that still says ready fares as before, in terms of answers, host and takers; then it changes no used slot |
| `RecoveryAgain.SecondRecoveryChangesNothing` | cmd/poc/main.go:1005-1098 | so it changes nothing when lsof works again for the recovered rows, for no row it failed for before, and no in-flight row takes a recovered slot |
| `RecoveryAgain.SecondRecoverySockets` | internal/vm/cleanup.go:52-93 | if no in-flight row's write was lost, it removes only sockets without a recovered session that the first sweep could not remove or did not scan |
| `RecoveryHandover.LegalStartExactly` | cmd/poc/main.go:1005-1098 | the manager, with its VMs read off the host after the sweep, is a legal start of the session protocol, with no VM on a free slot, if and only if no two ready rows seen alive share a slot, each recovered slot has a VM no stop kills, and every other VM is killed |
| `RecoveryHandover.OwnershipCarriesExactly` | cmd/poc/main.go:1085-1090 | whatever became of the VMs, slot ownership holds in every disciplined run after the restart if and only if no two ready rows seen alive share a slot |
| `RecoveryHandover.LimitThenRestart` | cmd/poc/main.go:606-634 | a run in which claude hits the usage limit can leave two such rows: a later session on the same slot and a restart recover both sessions on it |
| `RecoveryHandover.LimitThenRestartAtBoot` | cmd/poc/main.go:1033-1075 | after such a limit, a restart while the later session boots, every call going well, leaves a Ready session with neither VM nor socket |
| `RecoveryHandover.FailedLsofLosesVm` | internal/vm/detached.go:33-43 | one failed lsof leaves a VM running on a slot that counts as free, for all later restarts |
| `ThinVolumes.StepKeepsBelow` | internal/compute/firecracker/snapshot.go:43-211 | every step, failed or half done, and every start, whatever it could read and write, keeps the counter file above all volumes and reserved numbers apart |
| `ThinVolumes.RunKeepsBelow` | internal/compute/firecracker/snapshot.go:43-211 | so does every run with crashes and restarts |
| `ThinVolumes.VolumeFreshness` | internal/compute/firecracker/snapshot.go:139-176 | a create_snap about to be sent never names a volume in the pool, nor the base |
| `ThinVolumes.FreshExactly` | internal/compute/firecracker/snapshot.go:43-176 | with no manager up, no run whatever names a volume of the pool or the base in a create_snap if and only if each of them is below 2 or below the number in the counter file |
| `ThinVolumes.StartPutsRightExactly` | internal/compute/firecracker/snapshot.go:122-134 | a start whose last write goes well puts a counter file that fell behind right if and only if each volume at or above the old counter has a volume as high on some device that could be read |
| `ThinVolumes.SetupIsBelow` | scripts/setup-storage.sh:139-147 | the pool that setup leaves, with its base below 2, meets the conditions |
| `ThinVolumes.CounterReaches` | internal/compute/firecracker/snapshot.go:139-160 | a counter at or below a volume gets there by creates that fail |
| `ThinVolumes.BaseSafeExactly` | internal/compute/firecracker/snapshot.go:122-134 | with a manager up, the base is never named in any run if and only if it is below the counter and the file and not already reserved |
| `ThinVolumes.StepKeepsBooks` | internal/compute/firecracker/snapshot.go:139-211 | every step keeps session map, device table and calls under way in agreement, one volume per session |
| `ThinVolumes.RunKeepsBooks` | internal/compute/firecracker/snapshot.go:77-211 | so does every run whose calls on one session do not overlap and whose creates use new IDs |
| `ThinVolumes.SessionMapAgrees` | internal/compute/firecracker/snapshot.go:139-211 | the session map is injective, below the counter, and agrees with the device table |
| `ThinVolumes.RestartRebuilds` | internal/compute/firecracker/snapshot.go:77-137 | with no call under way, a restart rebuilds the same map exactly when no device lies outside it, as when no device was lost; the counter starts where it was, or one further after a failed write that took effect |
| `ThinVolumes.StepKeepsPool` | internal/compute/firecracker/snapshot.go:139-211 | every step leaves each volume but the base with a session or known as leaked, and each device on an existing volume unless that was deleted under it |
| `ThinVolumes.RunKeepsPool` | internal/compute/firecracker/snapshot.go:43-211 | so does every orderly run with crashes and restarts |
| `ThinVolumes.PoolConservation` | internal/compute/firecracker/snapshot.go:139-211 | with no call under way, the pool holds the base, the recorded volumes, and nothing else but what a failed command left; every recorded volume exists |
| `ThinVolumes.SetupIsBooked` | scripts/setup-storage.sh:139-147 | a host on which no session ran yet has its books and its pool in order |
| `ThinVolumes.SnapshotManager.Start` | internal/compute/firecracker/snapshot.go:43-72 | no manager exactly when the pool or the base is missing; otherwise the manager, and the file, with which the system's Start event begins for the devices that could be read |
| `ThinVolumes.SnapshotManager.DiscoverState` | internal/compute/firecracker/snapshot.go:77-137 | the session map rebuilt from the readable devices, the counter reconciled, each write with its own answer; a missing base is the only error and changes nothing |
| `ThinVolumes.RebuildExactly` | internal/compute/firecracker/snapshot.go:104-121 | a session is rebuilt if and only if it has a readable device, on the volume of the last one listed |
| `ThinVolumes.RebuildIsSeen` | internal/compute/firecracker/snapshot.go:77-121 | from a listing that shows each device once, the rebuilt map is the device table on what could be read |
| `ThinVolumes.StartIsTheEvent` | internal/compute/firecracker/snapshot.go:43-134 | a manager made from such a listing is the one of the Start event |
| `ThinVolumes.CreateSucceeds` | internal/compute/firecracker/snapshot.go:139-176 | a create whose commands all go well leaves the volume in the pool, the device on it, the session recorded on it and the counter one further, and changes nothing else |
| `ThinVolumes.CreateIsUndone` | internal/compute/firecracker/snapshot.go:155-173 | one whose size query or device creation fails leaves nothing but a used number |
| `ThinVolumes.DeleteSucceeds` | internal/compute/firecracker/snapshot.go:178-211 | a delete whose commands go well takes away the device, the volume and the entry of that session, and nothing else |
| `ThinVolumes.SnapshotManager.Reconcile` | internal/compute/firecracker/snapshot.go:122-134 | the counter is the same for every order in which the map yields its entries; the file has its old value or one whose write went well, the last one if that did |
| `ThinVolumes.SnapshotManager.ReserveVolume` | internal/compute/firecracker/snapshot.go:139-152 | the number is persisted before it is used; a failed write gives it back |
| `ThinVolumes.ReconciledIsUnique` | internal/compute/firecracker/snapshot.go:122-134 | the reconciled counter is the only value that is least above the volumes |
| `StageNames.DecInjective` | internal/workflow/engine.go:81-87 | decimal printing is injective |
| `StageNames.RenderInjective` | internal/workflow/engine.go:181-188 | within a workflow, different stages have different ID strings |
| `StageNames.TasksHaveOwnBranches` | internal/workflow/engine.go:81-87 | within a workflow, different tasks have different branch names |
| `StageNames.BranchNamesExactly` | internal/workflow/engine.go:81-87 | across workflows, branch names coincide exactly for the same task number and the same first eight characters |
| `StageRun.StageIndex` | internal/workflow/engine.go:691-698 | the place of a stage with the ID, or -1 exactly when there is none |
| `StageRun.RunnerStepOk` | internal/workflow/engine.go:485-568 | every step of a stage's execution keeps all versions good and touches the history of that stage only |
| `StageRun.MarkFailedOk` | internal/workflow/engine.go:572-585 | marking a stage failed from a stale copy keeps every version good |
| `StageAlone.StageSucceedsAlone` | internal/workflow/engine.go:485-568 | a stage whose calls all go well is Done in the stored version, with its prompt, its session and that session's result, and every other stage is as it was |
| `StageAlone.StageFailsAtCreate` | internal/workflow/engine.go:506-521 | one whose session cannot be created is marked Failed with its prompt saved |
| `StageAlone.StageFailsAtWait` | internal/workflow/engine.go:533-551 | so is one whose session fails or reports a usage limit, with the session recorded |
| `StageAlone.UsageLimitExactly` | internal/workflow/engine.go:28-31 | a text is a usage-limit message if and only if it contains one of the two phrases |
| `Workers.OutputIsOwn` | internal/workflow/engine.go:250-262 | an output read from any version, however stale, is empty or that stage's own session's result |
| `Workers.StepWorkerOk` | internal/workflow/engine.go:216-376 | every step of a worker keeps that, and keeps what the worker has established about its two gates |
| `Workers.WorkerStaysOk` | internal/workflow/engine.go:202-378 | a step of one worker does not disturb what another has established |
| `Engine.StepKeepsInv` | internal/workflow/engine.go:140-430 | every step of the pipeline, of any worker, of a save for another workflow, and every crash keeps the invariant |
| `Engine.RunKeepsInv` | internal/workflow/engine.go:140-430 | so does every run |
| `Engine.MergeGate` | internal/workflow/engine.go:209-398 | each branch handed to the merge belongs to a task whose own implement output has a first terminal block that is a commit with a hash and a good build, and whose own verify output decodes to a verdict that says pass; none is handed over twice |
| `Engine.HandedNamesDistinct` | internal/workflow/engine.go:363-398 | the branch names handed over are pairwise distinct |
| `Engine.FanOutConservation` | internal/workflow/engine.go:202-378 | when all workers are back there is no error exactly when every task's branch succeeded; never more than the configured number of workers inside the semaphore |
| `Engine.DoneMeansAllGated` | internal/workflow/engine.go:380-430 | a run ends Done exactly when no worker failed and the merge succeeded, and then every planned task passed both gates and was handed over |
| `EngineRuns.DecidesExactly` | internal/workflow/engine.go:228-376 | where a worker goes after each of its decisions: the first gate opens exactly on a valid output of the task's own implement stage, the second exactly on a passing output of its own verify stage |
| `EngineRuns.WritesExactly` | internal/workflow/engine.go:264-348 | what a worker itself writes: a pending verify stage, the link to its session, the mark of failure, and nothing else of the version it holds |
| `EngineRuns.StagesAdded` | internal/workflow/engine.go:166-196 | an accepted plan adds, in store and file, one pending stage per task, in order, with the task's description for its prompt |
| `EngineRuns.WorkerSucceeds` | internal/workflow/engine.go:216-376 | a worker whose sessions do well hands its branch over and leaves the others' stages alone |
| `EngineRuns.FailureEnds` | internal/workflow/engine.go:140-175 | a failed research or plan stage, or a rejected plan, ends the workflow failed without starting a worker |
| `EngineRuns.MergeEnds` | internal/workflow/engine.go:380-430 | once the workers are gone, the run ends Done exactly when the merge goes well and no worker failed, with the merge stage marked accordingly and written |
| `EngineRuns.GoodRunEndsDone` | internal/workflow/engine.go:140-430 | for every plan and any number of tasks: a run in which every session does well ends Done on disk, with every task's branch handed to the merge in order |
| `Engine.WorkersMatchPlan` | internal/workflow/engine.go:154-215 | from the fan-out on there is exactly one worker per task of the plan session's own validated output, and at least one |
| `Engine.AtMostOnce` | internal/workflow/engine.go:442-521 | over any number of crashes and restarts no stage gets a second session |
| `Engine.StageIdentity` | internal/workflow/engine.go:691-698 | in every version in the store, on disk or in a goroutine's hands, stage ID strings are pairwise distinct and outputs are the stages' own |
| `Engine.RecoveredEndsFailed` | internal/workflow/engine.go:729-740 | once the disk shows research past pending, no session is created after a crash, whatever follows, and a recovered run ends Failed |
| `Engine.SessionsMeanResearchLeft` | internal/workflow/engine.go:486-521 | the disk shows that as soon as any session exists |
| `Resume.ResetForResume` | internal/workflow/engine.go:606-632 | exactly the failed stages with a saved input become pending again, without session and output, and nothing else changes; refused, changing nothing, when there is none |
| `Resume.RerunsExactly` | internal/workflow/engine.go:648-655 | a resume re-runs exactly the failed or pending stages with a saved input |
| `Resume.StepKeepsInv` | internal/workflow/engine.go:636-688 | every step leaves all inputs and every Done stage as they are, and a re-run stage is Done exactly when its re-run ended well |
| `Resume.StepExactly` | internal/workflow/engine.go:485-568 | what each step of a re-run writes: Running, the session with the saved prompt sent, Done with the result, or Failed |
| `Resume.FailedAreResumed` | internal/workflow/engine.go:606-655 | a stage whose session failed in a resume is picked up by the next one, with the same prompt |
| `Resume.RunRespects` | internal/workflow/engine.go:606-688 | so does any number of resumes |
| `Resume.DoneNeverFalls` | internal/workflow/engine.go:606-688 | the set of Done stages, and so their count, only grows |
| `Resume.PromptsAreTheSavedInputs` | internal/workflow/engine.go:495-521 | however often a workflow is resumed, every session gets the input its stage was saved with at the start |
| `Resume.EndsDoneExactly` | internal/workflow/engine.go:672-687 | a resume ends Done exactly when every re-run stage is Done and its last write was saved; none is Done with a usage-limit message for its output |
| `Resume.UnsavedStageEndsFailed` | internal/workflow/engine.go:552-566 | a run in which the only stage is Done, with its output, and the workflow ends Failed because that last write was lost |
| `Merge.Remote.MergeImplementBranches` | internal/gitutil/merge.go:15-84 | for every mix of failures, cancellation, half-done pushes and pushes by others: no commit reachable before the call is lost; the set-up works exactly when its five commands go well and the base was cloned; each turn begins where the one before it ends, fetches exactly when its fetch goes well and finds the branch on the remote, not being the base, and merges exactly when, besides, its merge goes well and no earlier conflict was left unaborted; merged and failed split the tried prefix by that, in order; only merged branches are deleted, never the base; without a push nothing is written; the refs afterwards are given exactly by the push and the deletions, each with what others push before it; an error-free call merged every listed branch if and only if failed is empty and merged is not; and when nothing goes wrong the whole job is done |
| `Merge.Remote.Prepare` | internal/gitutil/merge.go:24-55 | the set-up writes nothing to the remote, works exactly when each of its commands goes well and the base was there when it was cloned, and yields the base as it was cloned |
| `Merge.Remote.MergeAll` | internal/gitutil/merge.go:57-71 | the loop writes nothing to the remote; its turns are exactly those above, one for each branch until the call is cancelled; its head is what the merges made, and has everything in merged |
| `Merge.Remote.MergeOne` | internal/gitutil/merge.go:61-70 | one turn for any answers: fetched, merged, the new head, the next command, and whether a merge is left unaborted |
| `Merge.Remote.MergeTip` | internal/gitutil/merge.go:65-69 | the merge of a fetched branch: merged exactly when it goes well in a clone that is not in the middle of a merge; after a failure the clone is so exactly when it was or the merge had no effect, and the abort had none either |
| `Merge.AbortedConflictsCostNothing` | internal/gitutil/merge.go:57-71 | when the aborts so far went through, a branch is merged if and only if its own fetch finds it and its own merge goes well, whatever became of the others |
| `Merge.UnabortedStep` | internal/gitutil/merge.go:65-69 | how an unaborted conflict passes from one turn to the next, in terms of the answers alone |
| `Merge.ConflictCostsItself` | internal/gitutil/merge.go:57-81 | a call whose first branch conflicts and is aborted: the second is merged, pushed and deleted, and the first stays |
| `Merge.AllGoTurn` | internal/gitutil/merge.go:57-71 | when the call's commands all go well, every branch on the remote from the start is merged |
| `Merge.Remote.Push` | internal/gitutil/merge.go:74-76 | a fast-forward of the base or nothing; a reported success is one |
| `Merge.Remote.DeleteMerged` | internal/gitutil/merge.go:77-80 | only merged branches disappear |
| `Merge.Remote.Publish` | internal/gitutil/merge.go:73-81 | without a successful push nothing is deleted |
| `Merge.PickConserves` | internal/gitutil/merge.go:57-71 | merged and failed together are the tried branches, each as often as it was listed |
| `Merge.PickAt` | internal/gitutil/merge.go:57-71 | each list has its branches in the order given |
| `Merge.Conclude` | internal/gitutil/merge.go:57-81 | pushed first and deleted then, or not deleted at all: nothing is lost either way |
| `Merge.DeleteKeepsExactly` | internal/gitutil/merge.go:77-80 | a deletion loses nothing exactly when another branch reaches the deleted tip |
| `Merge.SurvivorsExactly` | internal/gitutil/merge.go:73-81 | when nobody pushes after the base was pushed, a commit is kept if and only if the head or a branch that was not merged has it, late pushes included |
| `Merge.DeletedHere` | internal/gitutil/merge.go:77-80 | whatever fails and whoever pushes: a merged branch is gone from its own deletion on, if that takes effect, until somebody pushes it anew |
| `Merge.DeletedElsewhere` | internal/gitutil/merge.go:77-80 | every other branch is where the others' pushes have brought it |
| `Merge.LatePushIsLost` | internal/gitutil/merge.go:57-81 | a call in which everything goes well and a commit pushed to a branch between its fetch and its deletion ends out of reach |
| `Merge.AllPicked` | internal/gitutil/merge.go:57-71 | everything listed was merged exactly when nothing was turned down and nothing left untried |
| `Merge.MissingBranchIsNoError` | internal/gitutil/merge.go:57-83 | a call that reports no error although it merged nothing and a branch failed |
| `Merge.CancelledIsNoError` | internal/gitutil/merge.go:57-83 | a call, cancelled before its first merge, that reports no error although it tried nothing |
| `Extraction.FindArray` | internal/workflow/engine.go:706-717 | the two scans find the leftmost longest bracket match, or none exactly when there is none |
| `Extraction.WrappedArray` | internal/workflow/engine.go:708-717 | prose around an array is ignored if and only if it has no opening bracket before and no closing bracket after it |
| `Extraction.Scan` | internal/workflow/validator.go:10-11 | one pass finds the leftmost brace pair without inner braces that holds the keyword |
| `Extraction.FindBlock` | internal/workflow/validator.go:10-11 | the scan's answer is the declarative match, or none exactly when there is none |
| `Extraction.WrappedBlock` | internal/workflow/validator.go:10-23 | prose around a block is ignored if and only if nothing before it matches; what follows never matters |
| `Extraction.ExtractIgnoresTrim` | internal/workflow/validator.go:16-23 | trimming first makes no difference to the block found |
| `Extraction.ValidatePlanOutput` | internal/workflow/validator.go:35-58 | the loop reports the first fault of the decoded task list, or the list |
| `Extraction.FirstFault` | internal/workflow/validator.go:49-56 | accepted exactly when every task has an ID and a description; otherwise the first task that lacks one |
| `Extraction.PlanVerdictExactly` | internal/workflow/validator.go:35-48 | no array is reported exactly when there is none, and otherwise the leftmost longest one is judged |
| `Extraction.JudgeExactly` | internal/workflow/validator.go:43-58 | accepted exactly when it decodes to a non-empty list in which every task has an ID and a description; otherwise bad JSON, an empty list, or the first task that lacks one, is named |
| `Extraction.IssuesExactly` | internal/workflow/validator.go:72-83 | each issue is reported exactly when the block has that fault |
| `Extraction.VerifyPassesExactly` | internal/workflow/engine.go:350-374 | a verification passes if and only if the first block that mentions the verdict, or the trimmed output when there is none, decodes to a verdict that says pass |
| `Extraction.ImplementOkExactly` | internal/workflow/validator.go:63-85 | accepted exactly when the first terminal block decodes to a commit with a hash and a good build |
| `Extraction.WrappingKeepsPlan` | internal/workflow/validator.go:35-58 | prose around the array does not change the verdict on a plan |
| `Extraction.WrappingKeepsImplement` | internal/workflow/validator.go:63-85 | nor, around the block, the verdict on an implement stage |
| `Extraction.WrappingKeepsVerify` | internal/workflow/validator.go:16-23 | nor the verdict of a verification |
| `ShellQuote.LexEscaped` | cmd/poc/main.go:1247-1249 | inside single quotes the escaped text reads back as exactly the text, unless it has a NUL |
| `ShellQuote.LexLine` | cmd/poc/main.go:598-599 | bare words and one quoted text read back as those words and that text |
| `ShellQuote.PromptRoundTrip` | cmd/poc/main.go:598-599 | the login shell sees bash, -lc and one word, and bash reads that word as the fixed arguments and exactly the prompt, for the NUL-free prompts and no others |
| `ShellQuote.CommandsAreDistinct` | cmd/poc/main.go:598-599 | no two prompts are sent as the same command |
| `ShellQuote.ActiveIsRefused` | cmd/poc/main.go:1247-1249 | outside quotes, the reading accepts no character that a shell would act on |
| `ShellQuote.ExpansionIsRefused` | cmd/poc/main.go:1247-1249 | inside double quotes, no expansion |
| `ShellQuote.OpenQuoteIsRefused` | cmd/poc/main.go:1247-1249 | and no open quote and no NUL anywhere |
| `SessionStore.JSONStore.ReloadFile` | internal/sessionstore/jsonstore.go:104-119 | the file's tables where it has them, the old ones otherwise |
| `SessionStore.JSONStore.Get` | internal/sessionstore/jsonstore.go:124-130 | the row of the re-read table, or not found exactly when it has none |
| `SessionStore.JSONStore.List` | internal/sessionstore/jsonstore.go:133-145 | each row of the re-read table exactly once, oldest first |
| `SessionStore.JSONStore.ListFavorites` | internal/sessionstore/jsonstore.go:164-176 | likewise for the favourites |
| `SessionStore.SortedRows` | internal/sessionstore/jsonstore.go:137-144 | collecting in any map order and sorting gives a sorted permutation of the table |
| `SessionStore.DoExactly` | internal/sessionstore/jsonstore.go:88-101 | a write puts its row there or takes it away, and leaves every other entry as it was |
| `SessionStore.ReadsBack` | internal/sessionstore/jsonstore.go:88-130 | a stored row reads back until it is written or deleted again |
| `SessionStore.SingleWriterAgreement` | internal/sessionstore/jsonstore.go:29-176 | one writing process whose saves succeed, any readers and restarts, any file to begin with: every read gives the plain tables the writes make |
| `SessionStore.FavoritesNeverDisturb` | internal/sessionstore/jsonstore.go:148-161 | leaving out all writes to favourites changes no session |
| `SessionStore.WriteIsPlainExactly` | internal/sessionstore/jsonstore.go:88-101 | a saved write acts on the file as the plain write does if and only if the process had everything else of the file in memory |
| `SessionStore.FailedSaveFate` | internal/sessionstore/jsonstore.go:88-130 | what becomes of a write whose save failed |

## Left out

- `Restart`: it applies to sessions loaded as stopped, whose role is not restored, and races with Stop's cleanup.
- Rows inside the session protocol: `persistSession` and the store deletes in `Stop` are not steps of `SessionProtocol`; `Recovery` starts from arbitrary rows instead.
- `boot`'s configuration commands inside the VM and the repository cache: they change neither state nor slots; only the success of the workspace mount is kept.
- A `Launch` that fails and leaves processes behind, and a `Stop` of a VM that does not die: stopping counts as done once it was called.
- Processes other than Firecracker that lsof might print, TAP devices, and a `Stat` that fails without the socket being absent: a working lsof prints exactly the VMs on the slot.
- `ThinVolumes.VolumeFreshness`: assumes that the counter file is written all-or-nothing; nothing is assumed about which devices a start can read or which of its writes go well.
- `SessionProtocol.ResourceOrder`, `SessionProtocol.FreeSlotHasNoVm` and `SessionProtocol.MapHoldsNoLeftovers` after a restart: they need the legal start of `RecoveryHandover.LegalStartExactly`; slot ownership needs only distinct slots, and the limit nothing.
- `RecoveryAgain.SecondRecoveryChangesNothing`: gives conditions that suffice, on answers and rows; the exact ones are in `RecoveryAgain.SecondRecoveryExactly`.
- `Resume.StepKeepsInv`: each Get-to-Upsert update is one step and no other run works on the workflow; the semaphore of `resumeRun` is not modelled, so more interleavings are covered than occur.
- `Merge.Remote.MergeImplementBranches`: others who push create or fast-forward branches only; force pushes and deletions by others, tags, and branch names with special characters are not modelled.
- Git's merge itself: whether a merge conflicts is an outside answer; contents of commits are not modelled.
- JSON: the three decoders of agent output are arbitrary functions, the empty text decoding to no verdict; the stores' encoding is lossless. `Open` of the session store with an unreadable file, which is an error, is not modelled.
- Aliasing of `Stages` slices between copies of a workflow: `Get` and `Upsert` are value copies, as the store's comments intend.
- `List` and the time stamps of the workflow store, error texts, prompts, time-outs other than as failures, logging.
- `SessionProtocol`, `StopRaces`, `Departures`, `ThinVolumes`, `Engine` and `Resume` are step systems on values rather than classes: their goroutines interleave, which methods do not express.
- HTTP handlers, MCP tools, the SSH relay, gRPC, PostgreSQL, profiles and the demo workflow: plumbing, or easy members.
