# A verified model of uperf-linux

uperf-linux is a userspace performance daemon: it writes CPU frequency windows, typed sysfs nodes and task scheduling
state, and it must put everything back, also after it was killed in the middle of a write. This project models the
daemon's core in Dafny and proves what that core is for:

* **The transactional actuator** (`Hardware`, `Batch`, `ScalarBatch`, `Actuator`, `Runs`). Registers, scalar nodes and
  the durable journal cell belong to a `World` in which every operation may fail, with or without effect, and the daemon
  may be killed at each of them. A killed daemon is the flag `dead`: nothing has any effect until the next start, so the
  state a call leaves behind ranges over every kill point inside it. What recovery would leave is a function of the
  durable journal and the machine (`RestoredFreq`, `RestoredScal`), and every call conserves it. The main results are
  `Runs.RunThenRecover` (crash safety over whole runs) and `Runs.FastRefinesDurable`.
* **Task ownership per scheduling field** (`Tasks`, `TaskActuator`, `TaskRuns`), where other programs write the same
  fields and processes exit at any moment. Main result: `TaskRuns.RunThenRecover`.
* **The recovery journal** (`Journal`): whatever the actuator writes the validator accepts, and its manifests rebuild
  the registry it was written from, so that recovery needs no configuration (`Runs.RecoverFromJournalAlone`).
* **Frequency windows and scalar text** (`Frequency`, `Scalar`): snapping, ordered register writes, kernel units, and
  the CPU-list printer and parser.
* **The energy governor** (`EnergyModel`, `Bucket`, `BudgetPath`, `Efficiency`, `Governor`), over real numbers: the
  power curve and sparse control table, the token bucket, the global cap path as one moving boundary, the efficiency
  cascade, and over whole runs of transitions the safety and meaning of every window and what sustained over- and
  under-budget power does to them (`Governor.Run`, `OverloadThrottles`, `HeadroomReleases`).
* **Policy safety** (`Thermal`, `Scheduler`) and **the focus reporter** of the GNOME Shell extension
  (`FocusReporter`).

Large invariants are *folded*: a predicate whose body sits under `forall z | Unfold(z)` is used in a proof only after
that proof asserts `Unfold(true)`. `Unfold`, `UnfoldBatch`, `Inspect`, `InspectAt` and `InspectNode` are all always true.

Assumptions, as the code's own documentation makes them: frequency nodes are written by nobody else while they are
journaled; a failed register or node write leaves the old or the new value; a failed task write leaves each field old
or new; boot id and fingerprint are not empty; task states are well formed.

No result assumes that a failed store leaves the old bytes. `FileStateStore` does not promise it: it can fail after its
rename, and then a commit record may be on disk for a batch that is rolled back. Register pairs are conserved all the
same. A scalar node or task field then loses its original exactly when it was owned, journaled away from its original
and changed by that batch: `ScalarBatch.UndoneCommitKeepsOthers` and `UndoneCommitLosesExactly`,
`Tasks.UndoneCommitKeepsField` and `UndoneCommitLosesField` prove both directions. The theorems over whole runs except
just the nodes and fields some batch put at risk in this way; none is when the store is atomic, or when nothing is
requested twice.

Where the code and its prose differ the model follows the code: the efficiency ceiling is the first *dearer* OPP, one
step above what the prose says (crates/uperf-core/src/energy.rs:1064-1066); a task field written from outside with
another value and then with the journaled one again counts as the daemon's once more, so of several outside writes only
the last decides: it survives exactly when it is not, at that moment, a journaled value of an owned field
(`TaskRuns.LastTouchDecides`; `HandedBackFieldLosesForeignValue` is the smallest case); a package whose budget path is empty keeps its feedback caps unset,
so only its safety caps apply (crates/uperf-core/src/energy.rs:766-781).

Check everything with `dafny verify dfyconfig.toml`.

## Model

| member | source | states |
|---|---|---|
| Frequency.SnapLimitsCorrect | crates/uperf-actuator/src/lib.rs:233-278 | snapping succeeds exactly on valid windows, never raises the maximum, yields the tightest inward OPP window and is idempotent |
| Frequency.FirstAtLeastIsTightest | crates/uperf-actuator/src/lib.rs:233-261 | the upward scan of a sorted table finds its least OPP at or above the request, and none only when there is none |
| Frequency.LastAtMostIsTightest | crates/uperf-actuator/src/lib.rs:233-261 | the downward scan finds the greatest OPP at or below the request, and none only when there is none |
| Frequency.ConstrainAgreesWithSnap | crates/uperf-core/src/policy.rs:327-405 | policy constraining fails only when no OPP fits under the capped maximum; otherwise its result is a fixed point of the actuator's snapping, under every cap at or above the hardware minimum, and the tightest window inside the capped request |
| Frequency.ConstrainOpps | crates/uperf-core/src/policy.rs:327-405 | the same for a target with an OPP table |
| Frequency.ConstrainUnits | crates/uperf-core/src/policy.rs:327-405 | without an OPP table the result is the tightest window of kernel-unit multiples |
| Frequency.EncodeUnitsRoundTrip | crates/uperf-actuator/src/lib.rs:3417-3425 | a frequency survives encoding and reading back exactly when it is a multiple of the kernel unit |
| Frequency.LegalPairsAreVisiblePairs | crates/uperf-actuator/src/lib.rs:3455-3498 | the journaled legal pairs are exactly the register pairs visible while the ordered writes move there or back; none is inverted, invalid or repeated |
| Frequency.OrderedStatesAreVisible | crates/uperf-actuator/src/lib.rs:3373-3397 | the states of one direction are exactly those its writes expose, all valid, ending at the desired window |
| Frequency.SortDedupCorrect | crates/uperf-actuator/src/lib.rs:153-202 | sorting and deduplicating keeps exactly the listed OPPs in strictly increasing order |
| Scalar.FormatCpuList | crates/uperf-actuator/src/lib.rs:3213-3232 | the printing loop renders exactly the maximal runs of the sorted CPU ids |
| Scalar.CpuListRoundTrip | crates/uperf-actuator/src/lib.rs:3213-3285 | parsing the range-compressed rendering of any CPU set with ids up to 4095 returns that set |
| Scalar.ScalarRoundTrip | crates/uperf-actuator/src/lib.rs:3162-3211 | for every canonical domain and valid value, reading back the encoding yields the value |
| Scalar.PrintNatRoundTrip | crates/uperf-actuator/src/lib.rs:3205-3211 | decimal printing and digit parsing are inverse |
| Scalar.CompressCovers | crates/uperf-actuator/src/lib.rs:3213-3232 | run compression of sorted ids covers exactly those ids |
| Scalar.CompressSeparates | crates/uperf-actuator/src/lib.rs:3213-3232 | its ranges are in order with a gap between any two, so each run is maximal |
| Scalar.ParsePartsCovers | crates/uperf-actuator/src/lib.rs:3234-3274 | parsing rendered ranges yields exactly the CPUs they cover |
| Journal.NewTargetIsCanonical | crates/uperf-actuator/src/lib.rs:153-230 | a target that constructs has sorted distinct in-range OPPs, ordered bounds and whole kernel units |
| Journal.NewRegistryIsValid | crates/uperf-actuator/src/lib.rs:453-520 | a registry that builds has canonical targets and claims every id and path once |
| Journal.CanonicalRebuilds | crates/uperf-actuator/src/lib.rs:577-594 | a canonical target is rebuilt unchanged from its own manifest |
| Journal.WrittenEntryIsValid | crates/uperf-actuator/src/lib.rs:3801-3908 | an entry built for a registered target passes every check on frequency entries |
| Journal.WrittenScalarIsValid | crates/uperf-actuator/src/lib.rs:3909-3948 | an entry built for a registered node passes every check on scalar entries |
| Journal.WrittenPathsClaimedOnce | crates/uperf-actuator/src/lib.rs:3801-3948 | no path is claimed by two journal entries |
| Journal.WrittenJournalsValidate | crates/uperf-actuator/src/lib.rs:3801-3948 | every journal whose entries come from a valid registry is accepted by the fail-closed validator |
| Journal.JournalRebuildsRegistry | crates/uperf-actuator/src/lib.rs:659-673 | in whatever order the journal is walked, its manifests rebuild exactly the journaled targets with their definitions |
| Hardware.World.Fate | crates/uperf-actuator/src/lib.rs:4049-4235 | an operation may fail with or without effect or be cut off by a kill; after a kill nothing has any effect |
| Hardware.World.ReadPair | crates/uperf-actuator/src/lib.rs:3129-3147 | a pair that reads is the pair in the registers; a readback may also be torn or fail |
| Hardware.World.WriteMinimum | crates/uperf-actuator/src/lib.rs:3373-3415 | a minimum is only ever written at or below the current maximum; failure leaves the old or the new value |
| Hardware.World.WriteMaximum | crates/uperf-actuator/src/lib.rs:3373-3415 | a maximum is only ever written at or above the current minimum; failure leaves the old or the new value |
| Hardware.World.ReadNode | crates/uperf-actuator/src/lib.rs:3162-3185 | a node reads as its value only when that parses and lies in the domain |
| Hardware.World.WriteNode | crates/uperf-actuator/src/lib.rs:3187-3203 | failure leaves the old or the new value |
| Hardware.World.Store | crates/uperf-actuator/src/lib.rs:95-113 | a failed durable store keeps the previous journal, or unless the store is atomic may leave the new one |
| Hardware.World.Load | crates/uperf-actuator/src/lib.rs:76-93 | a successful load returns the durable journal |
| Hardware.World.Remove | crates/uperf-actuator/src/lib.rs:115-130 | a failed removal may still have unlinked the journal |
| Hardware.ClaimsExchange | crates/uperf-actuator/src/lib.rs:1526-1571 | two journals of one registry lead recovery to the same registers unless they disagree about a pair away from its hardware range |
| Hardware.ClaimedWritesKeepOutcome | crates/uperf-actuator/src/lib.rs:1526-1571 | writing claimed registers does not change what recovery leaves |
| Batch.RejectedPrefix | crates/uperf-actuator/src/lib.rs:1621-1665 | a repeated, unknown, invalid or unclaimable request rejects the whole batch, and an accepted one adds exactly its snapped window |
| Batch.RejectedOwned | crates/uperf-actuator/src/lib.rs:1834-1868 | the same for the fast path, where a target that is not owned is rejected |
| Batch.IntentIsWritten | crates/uperf-actuator/src/lib.rs:1677-1704 | an announced transition between valid windows lists exactly the pairs it can expose |
| Batch.UndoingEnds | crates/uperf-actuator/src/lib.rs:3427-3446 | once every attempted target is reset, all registers are as before the batch |
| Actuator.FrequencyActuator.constructor | crates/uperf-actuator/src/lib.rs:1186-1253 | without faults a daemon starts read-write and requires recovery exactly when a non-empty journal is pending, of whatever boot |
| Actuator.LoadedJournal | crates/uperf-actuator/src/lib.rs:1186-1253 | every journal a daemon left passes validation on load, and an empty one leaves nothing to recover |
| Actuator.FrequencyActuator.WaitForLimits | crates/uperf-actuator/src/lib.rs:3338-3371 | success means the pair was observed as requested; polling is bounded |
| Actuator.FrequencyActuator.WriteOrdered | crates/uperf-actuator/src/lib.rs:3373-3397 | wherever it stops, the pair is one of the ordered write states and never inverted |
| Actuator.FrequencyActuator.ResetRequest | crates/uperf-actuator/src/lib.rs:3399-3415 | from any in-range pair, no inverted or out-of-range pair is ever exposed; success leaves the desired window |
| Actuator.FrequencyActuator.ApplyRequestedLimits | crates/uperf-actuator/src/lib.rs:3316-3326 | wherever it stops the pair is one of the journaled legal pairs; success means it reads back as desired |
| Actuator.FrequencyActuator.RestoreRequest | crates/uperf-actuator/src/lib.rs:3328-3336 | success means the pair reads back as desired; every interruption leaves it in range |
| Actuator.FrequencyActuator.PrepareClaim | crates/uperf-actuator/src/lib.rs:1627-1664 | a request is prepared only if known, snappable and claimable, and without faults exactly then |
| Actuator.FrequencyActuator.PrepareClaims | crates/uperf-actuator/src/lib.rs:1621-1665 | the validation loop accepts exactly the acceptable batches and writes nothing |
| Actuator.FrequencyActuator.RecordIntents | crates/uperf-actuator/src/lib.rs:1676-1704 | every changing target is announced by a valid entry before the first write, and no other entry changes |
| Actuator.FrequencyActuator.AnnounceBatch | crates/uperf-actuator/src/lib.rs:1675-1711 | the announcement is a valid journal that leads recovery to the same registers as the one before, stored or not |
| Actuator.FrequencyActuator.WriteAll | crates/uperf-actuator/src/lib.rs:1713-1739 | success leaves every target at its window with a settled entry; a stop anywhere leaves only batch targets moved, all of them attempted |
| Actuator.FrequencyActuator.RollBack | crates/uperf-actuator/src/lib.rs:3427-3446 | success restores every register; failure touches only the batch's targets |
| Actuator.FrequencyActuator.PersistOrRemove | crates/uperf-actuator/src/lib.rs:3049-3063 | an empty journal is removed, any other stored; failure degrades |
| Actuator.FrequencyActuator.ApplyBatch | crates/uperf-actuator/src/lib.rs:1609-1796 | under any faults and kills what recovery would restore is conserved; success means every snapped window is in the registers, journaled and durable; a read-write error leaves registers and journal unchanged; degraded is absorbing; without faults it succeeds exactly on acceptable batches |
| Actuator.FrequencyActuator.UndoBatch | crates/uperf-actuator/src/lib.rs:1741-1766 | a failed batch ends either exactly where it started or degraded, with recovery's outcome conserved |
| Actuator.FrequencyActuator.StoreCommitted | crates/uperf-actuator/src/lib.rs:1768-1796 | a commit record that cannot be stored rolls the batch back and degrades, whichever record reached the disk |
| Actuator.FrequencyActuator.ApplyOwnedBatchFast | crates/uperf-actuator/src/lib.rs:1822-1954 | the same transition without touching the store: conservation, atomicity, outcome, and acceptance exactly of snappable batches on owned targets |
| Actuator.FrequencyActuator.CommitFast | crates/uperf-actuator/src/lib.rs:1872-1954 | a failed fast batch restores registers, entries and generation, or degrades |
| Actuator.FrequencyActuator.RestoreTargets | crates/uperf-actuator/src/lib.rs:2588-2641 | selected owned targets return to their hardware range and are released, nothing else moves; any failure degrades with recovery's outcome conserved |
| Actuator.FrequencyActuator.RestoreListed | crates/uperf-actuator/src/lib.rs:1526-1571 | intents are durable before the first reset, and only listed registers move |
| ScalarBatch.AnnouncedKeepsOutcome | crates/uperf-actuator/src/lib.rs:2028-2064 | announcing a scalar batch and writing any part of it keeps what recovery would leave in every node |
| ScalarBatch.SettledKeepsOutcome | crates/uperf-actuator/src/lib.rs:2066-2144 | so does the commit record once everything is written |
| ScalarBatch.UndoneCommitKeepsOthers | crates/uperf-actuator/src/lib.rs:2116-2144 | if a commit record reached the disk although its store failed, undoing the batch keeps the outcome of every node not at risk |
| ScalarBatch.UndoneCommitLosesExactly | crates/uperf-actuator/src/lib.rs:2116-2144 | and a node put back loses its original exactly when it was journaled away from it and changed by the batch |
| ScalarBatch.MidwayIsSane | crates/uperf-actuator/src/lib.rs:1984-2092 | wherever a batch stops, a node it changed holds a value of its domain, and a node it newly claims was requested and readable |
| ScalarBatch.PlannedRestoresKeepOutcome | crates/uperf-actuator/src/lib.rs:2971-3011 | a restore may stop anywhere without changing what recovery would leave |
| ScalarBatch.ReleasedNodesKeepOutcome | crates/uperf-actuator/src/lib.rs:2653-2722 | releasing restored nodes changes nothing recovery would leave |
| Actuator.FrequencyActuator.WriteVerified | crates/uperf-actuator/src/lib.rs:3187-3203 | success means the node holds and reads back the value |
| Actuator.FrequencyActuator.PrepareNode | crates/uperf-actuator/src/lib.rs:1991-2024 | a request is prepared only if known, in domain, readable and still owned, and without faults exactly then |
| Actuator.FrequencyActuator.PrepareNodes | crates/uperf-actuator/src/lib.rs:1984-2024 | the validation loop accepts exactly the acceptable batches and writes nothing |
| Actuator.FrequencyActuator.AnnounceNodes | crates/uperf-actuator/src/lib.rs:2037-2064 | a scalar announcement, stored or not, keeps what recovery would leave at every later interruption |
| Actuator.FrequencyActuator.WriteNodes | crates/uperf-actuator/src/lib.rs:2066-2092 | success leaves every node at its value with a settled entry; a stop leaves each node old or new |
| Actuator.FrequencyActuator.RollBackNodes | crates/uperf-actuator/src/lib.rs:3287-3314 | success restores every node; failure leaves each old or new |
| Actuator.FrequencyActuator.ApplyScalars | crates/uperf-actuator/src/lib.rs:1972-2144 | conservation of every node's recovery outcome with an atomic store, and otherwise of every node but those at risk; atomicity, durability and exact acceptance as for frequencies |
| Actuator.FrequencyActuator.RestoreNodes | crates/uperf-actuator/src/lib.rs:2971-3011 | listed nodes still holding a journaled value get their original back, foreign values stay; without faults it succeeds exactly when all are readable |
| Actuator.FrequencyActuator.RestoreScalars | crates/uperf-actuator/src/lib.rs:2653-2722 | selected nodes are restored or left to their foreign writer and released; recovery's outcome is conserved |
| Actuator.FrequencyActuator.RecoverPending | crates/uperf-actuator/src/lib.rs:1465-1593 | recovery leaves exactly what the journal promised and an empty journal; another boot's journal is discarded without touching the machine, another device's degrades; without faults it succeeds exactly when the claimed nodes are readable |
| Actuator.FrequencyActuator.RecoverResources | crates/uperf-actuator/src/lib.rs:1525-1593 | the same for a pending journal of this boot, with every interruption conserving the outcome |
| Runs.Step | crates/uperf-actuator/src/lib.rs:1465-2144 | no command changes what recovery would leave in the registers or nodes, except an outside write where it writes, with the stated outcome, and on a store that is not atomic a scalar batch in the nodes it puts at risk; only requested nodes become claimed, and claimed nodes stay readable |
| Runs.RunAll | crates/uperf-actuator/src/lib.rs:1465-2144 | so over any list of commands with any faults, kills and restarts |
| Runs.RunThenRecover | crates/uperf-actuator/src/lib.rs:1465-2144 | after any run from an unclaimed machine a fault-free restart and recovery put back every register pair nobody wrote from outside, whatever the store did; recovery succeeds if outside writers kept to the domains, and then nothing is claimed and every node is as it was, or as its last outside write decides, unless a batch put it at risk since |
| Runs.HistoryDecides | crates/uperf-actuator/src/lib.rs:1465-2144 | where a node ends follows from its last outside write alone: a foreign value stays, a journaled one brings back the original |
| Runs.RisksAreRequestedTwice | crates/uperf-actuator/src/lib.rs:2116-2144 | no node is at risk on an atomic store, and on another only one requested at least twice |
| Runs.ClaimsStayReadable | crates/uperf-actuator/src/lib.rs:2653-2722 | releasing and recovering never make a claimed node unreadable |
| Runs.RecoverFromJournalAlone | crates/uperf-actuator/src/lib.rs:659-673 | a daemon that knows only the journal rebuilds its registry from the manifests and recovers exactly the registers and nodes the configured one would, without faults exactly when the claimed nodes are readable |
| Runs.OutsideNodeWrite | crates/uperf-actuator/src/lib.rs:2696-2712 | a node written from outside changes only its own recovery outcome |
| Runs.FastRefinesDurable | crates/uperf-actuator/src/lib.rs:1822-1954 | from one state, on owned targets and without faults, both paths accept the same batches and leave the same registers, outcome and entries, and recovery from the stale journal equals recovery from the fresh one |
| Runs.EntriesDetermined | crates/uperf-actuator/src/lib.rs:1885-1954 | with nothing in flight the entries are a function of which targets are owned and where their registers are |
| Tasks.ChangedIsLeast | crates/uperf-actuator/src/lib.rs:888-971 | the changed fields are the least mask whose copy turns one state into the other, class and priority being one field |
| Tasks.OutcomeFieldwise | crates/uperf-actuator/src/lib.rs:933-971 | restoring moves exactly the owned fields that still hold a journaled value, each to its original, and doing so twice is doing so once |
| Tasks.Copy | crates/uperf-actuator/src/lib.rs:954-971 | masked fields come from the source, the others stay |
| Tasks.PlannedEntryIsValid | crates/uperf-actuator/src/lib.rs:3949-3975 | every entry `apply_tasks` writes is accepted by the validator: well-formed states, disjoint masks |
| Tasks.GrantedFields | crates/uperf-actuator/src/lib.rs:2188-2245 | a request is granted on a field exactly when no outside writer took that field, now or earlier |
| Tasks.RenewingKeepsOutcome | crates/uperf-actuator/src/lib.rs:2196-2209 | relinquishing lost fields changes nothing about what restoring leaves |
| Tasks.AnnouncingKeepsOutcome | crates/uperf-actuator/src/lib.rs:2222-2245 | neither does announcing a request and writing any subset of its fields |
| Tasks.SettlingKeepsOutcome | crates/uperf-actuator/src/lib.rs:2262-2296 | nor settling it once written |
| Tasks.UndoneCommitKeepsField | crates/uperf-actuator/src/lib.rs:2337-2357 | if a commit record reached the disk although its store failed, undoing the batch, also in part, keeps the outcome of every field not at risk |
| Tasks.UndoneCommitLosesField | crates/uperf-actuator/src/lib.rs:2337-2357 | and a field put back loses its original exactly when it was owned, journaled away from it and changed by the batch |
| Tasks.RestoringKeepsOutcome | crates/uperf-actuator/src/lib.rs:2752-2818 | restoring may stop between any two fields and be repeated |
| Tasks.RollbackTarget | crates/uperf-actuator/src/lib.rs:3603-3618 | what rollback computes from an interrupted write is exactly the state before it |
| Tasks.RestoreComplete | crates/uperf-actuator/src/lib.rs:2790-2818 | a restore whose changed fields read back as the original is complete |
| TaskActuator.TaskWorld.Identity | crates/uperf-actuator/src/lib.rs:3520-3552 | a check may find the process current, its number reused, or gone, and the process may exit meanwhile |
| TaskActuator.TaskWorld.WriteTask | crates/uperf-actuator/src/lib.rs:4049-4235 | an interrupted write leaves each field old or new, and a readback is what the task holds |
| TaskActuator.TaskActuator.Observe | crates/uperf-actuator/src/lib.rs:2172-2187 | observation rejects repeats and processes that are gone, and writes nothing |
| TaskActuator.TaskActuator.Prepare | crates/uperf-actuator/src/lib.rs:2188-2245 | every request is announced by the entry its state and journal demand, and no other entry changes |
| TaskActuator.TaskActuator.WriteTasks | crates/uperf-actuator/src/lib.rs:2252-2302 | success leaves every surviving task at its granted state; a stop leaves each field old or new and every moved task attempted |
| TaskActuator.TaskActuator.RollBackOneTask | crates/uperf-actuator/src/lib.rs:3584-3645 | success leaves the task, if it still exists, in its state from before |
| TaskActuator.TaskActuator.RollBackTasks | crates/uperf-actuator/src/lib.rs:3576-3655 | success restores every surviving task |
| TaskActuator.TaskActuator.UndoTasks | crates/uperf-actuator/src/lib.rs:2303-2337 | a failed batch ends with tasks as before and its entries withdrawn, or degraded, with the outcome conserved |
| TaskActuator.TaskActuator.ApplyTasks | crates/uperf-actuator/src/lib.rs:2156-2357 | what every field of every surviving task would be restored to is conserved under faults, kills and exits, except on a store that is not atomic in the fields at risk; success grants exactly the fields not lost to outside writers; a read-write error leaves tasks untouched; without faults it succeeds exactly when all tasks live |
| TaskActuator.TaskActuator.RestoreTasks | crates/uperf-actuator/src/lib.rs:2732-2828 | owned fields of the selected tasks go back, fields changed from outside stay, the tasks are released, and whatever the store does the outcome of every surviving task is conserved |
| TaskActuator.TaskActuator.RecoverTasks | crates/uperf-actuator/src/lib.rs:2928-2969 | recovery leaves every surviving task in its promised state and an empty journal |
| TaskRuns.OutsideFieldWrite | crates/uperf-actuator/src/lib.rs:933-971 | an outside value stays unless the field is owned and holds a journaled value again; a value nobody requested stays in any case |
| TaskRuns.Step | crates/uperf-actuator/src/lib.rs:2156-2337 | no command changes what recovery would leave in a field, except an outside write to it, with the exact outcome stated from the table on disk, and a batch in the fields it puts at risk; a newly owned field has its outcome so far as its original |
| TaskRuns.RunThenRecover | crates/uperf-actuator/src/lib.rs:2156-2337 | after any run recovery succeeds, and every field of every surviving task not put at risk ends at its first value if no outside write to it was foreign, at its last outside value if that was foreign, and else at its claim-time value |
| TaskRuns.OriginalIsClaimTime | crates/uperf-actuator/src/lib.rs:2188-2245 | the journaled original of an owned field is what recovery would have left in it when the batch that claimed it began |
| TaskRuns.LastTouchDecides | crates/uperf-actuator/src/lib.rs:933-971 | the last outside write decides: a value that is not journaled at that moment for an owned field stays, a journaled one hands the field back to its claim-time original |
| TaskRuns.NeverForeignKeepsFirst | crates/uperf-actuator/src/lib.rs:933-971 | a field to which no foreign value was ever written ends at its first value, however often it was claimed |
| TaskRuns.HandedBackFieldLosesForeignValue | crates/uperf-actuator/src/lib.rs:933-971 | one concrete field shows a foreign value undone by a later write of the journaled one |
| EnergyModel.SnapIsNearest | crates/uperf-core/src/energy.rs:178-190 | snapping finds a nearest OPP, the lower of two equally near |
| EnergyModel.SnapMonotone | crates/uperf-core/src/energy.rs:178-190 | nearest snapping is monotone and leaves OPPs alone |
| EnergyModel.ControlRequestsRise | crates/uperf-core/src/energy.rs:191-219 | the nine requested control frequencies rise from free over sweet to the maximum |
| EnergyModel.SparseControl | crates/uperf-core/src/energy.rs:191-215 | the control table is a strictly rising sub-table of at most nine OPPs that starts at free, contains plain and sweet and ends at the maximum |
| EnergyModel.TypicalPower | crates/uperf-core/src/energy.rs:131-134 | the curve hits the typical power at the typical frequency |
| EnergyModel.CurveRisesContinuously | crates/uperf-core/src/energy.rs:131-156 | the curve rises strictly and at a bounded rate on every interval, so it is continuous across its pieces |
| EnergyModel.CostNeverFalls | crates/uperf-core/src/energy.rs:131-156 | power per hertz never falls along the curve |
| EnergyModel.CurveCostsRise | crates/uperf-core/src/energy.rs:24-28 | cost per performance never falls from one OPP of the curve to a faster one |
| EnergyModel.ExpandReference | crates/uperf-core/src/energy.rs:63-176 | expansion succeeds exactly on two or more OPPs and an ordered curve, and yields a rising table on the curve with its control table and snapped calibration points |
| EnergyModel.ExpandMeasured | crates/uperf-core/src/energy.rs:221-269 | expansion succeeds exactly when every OPP is measured, all OPPs are control OPPs, and free is one of least cost |
| Bucket.EnergyBucket.Update | crates/uperf-core/src/energy.rs:444-481 | the update computes the specified balance, stays within plus or minus capacity, and selects the fast limit exactly while the balance is positive |
| Bucket.DeltaIsCharge | crates/uperf-core/src/energy.rs:459-466 | scaling the deficit of the whole interval or its rate is the same |
| Bucket.FastStretchIsBounded | crates/uperf-core/src/energy.rs:444-481 | over any stretch of cycles, integrated or not, that all run at the fast limit the net excess energy of the integrated ones stays below the capacity |
| Bucket.SamplingIndependence | crates/uperf-core/src/energy.rs:444-481 | however an interval of constant power is cut into samples, the final balance is that of one sample |
| BudgetPath.BuildPath | crates/uperf-core/src/energy.rs:975-1001 | the path holds exactly the control transitions of every cluster from its plain OPP up, strictly ordered by cost, cluster and frequency |
| BudgetPath.UpperIsNext | crates/uperf-core/src/energy.rs:975-1001 | the upper end of a step is the lower end of its cluster's next step, or its top |
| BudgetPath.InitBudget | crates/uperf-core/src/energy.rs:766-781 | a path of another length puts every cap at its cluster's top |
| BudgetPath.AdjustBudgetCap | crates/uperf-core/src/energy.rs:1004-1037 | the update changes one cap and moves the cursor by one, as over- or under-budget power demands |
| BudgetPath.AdjustMovesBoundary | crates/uperf-core/src/energy.rs:1004-1037 | all caps are given by one boundary at or just past the cursor, and a cycle moves it by at most one: to the cursor when over budget, past it when under |
| BudgetPath.SustainedOverload | crates/uperf-core/src/energy.rs:1004-1037 | sustained over-budget power brings every cap to its bottom within as many cycles as the path is long |
| BudgetPath.SustainedHeadroom | crates/uperf-core/src/energy.rs:1004-1037 | sustained under-budget power brings every cap to its top as fast |
| BudgetPath.BoundaryEnds | crates/uperf-core/src/energy.rs:975-1037 | the bottom is each cluster's first control OPP on the path, the top its last |
| BudgetPath.StepBudget | crates/uperf-core/src/energy.rs:766-809 | every governor cycle keeps the caps on a boundary of the package's path, started from the top, moves it by one adjustment, and a burst freezes it |
| BudgetPath.ChainFolds | crates/uperf-core/src/energy.rs:766-809 | consecutive cycles amount to the fold of their adjustments from where the feedback starts |
| Efficiency.SortByPerformance | crates/uperf-core/src/energy.rs:1043-1051 | the clusters are ordered by performance per hertz, ties by index |
| Efficiency.ApplyEfficiencyLimits | crates/uperf-core/src/energy.rs:1043-1079 | the in-place pass computes the cascade from the top cluster down |
| Efficiency.CascadeLimits | crates/uperf-core/src/energy.rs:1053-1079 | each lower cluster ends at its own plan limited by its next higher cluster's final floor |
| Efficiency.CascadeCorrect | crates/uperf-core/src/energy.rs:1043-1079 | every lower cap respects that bound, the top cluster is untouched, nothing is raised, floors stay below caps and a second pass changes nothing |
| Efficiency.CascadeKeepsSafe | crates/uperf-core/src/energy.rs:1043-1079 | the cascade keeps every plan between the lowest OPP and its safety cap |
| Governor.DemandBounds | crates/uperf-core/src/energy.rs:347-372 | demand lies between the selected and the maximum performance, and a burst only adds to it |
| Governor.PredictionFollowsLoad | crates/uperf-core/src/energy.rs:289-330 | the predicted performance moves towards the capacity-scaled load without passing it |
| Governor.FirstMeetingIsLeast | crates/uperf-core/src/energy.rs:92-97 | the demanded OPP is the least control OPP meeting the demand, or the top one |
| Governor.RampBounds | crates/uperf-core/src/energy.rs:1100-1135 | the ramp goes neither above the cap nor below the lowest OPP |
| Governor.LastAffordableIsGreatest | crates/uperf-core/src/energy.rs:1124-1134 | the scan finds the greatest control OPP up to the limit that is at most the sweet spot or whose share of the power span the progress has reached |
| Governor.RampFollows | crates/uperf-core/src/energy.rs:1100-1135 | without a power span the ramp grants the request, otherwise exactly that greatest OPP, or the base when there is none |
| Governor.PrepareTarget | crates/uperf-core/src/energy.rs:642-728 | a target is governable exactly with a valid policy, a model and an OPP under its safety cap; its demand, bypass and estimated power are those of observation and state |
| Governor.ApplyBurst | crates/uperf-core/src/energy.rs:728-757 | a burst replaces the demand of every cluster but the slowest, and of no other |
| Governor.BudgetPlans | crates/uperf-core/src/energy.rs:810-833 | each cap is the feedback cap under the safety cap, lifted to the latter by a burst, and each floor the least OPP meeting the demand under it |
| Governor.SelectPlan | crates/uperf-core/src/energy.rs:866-913 | ramp and dwell never change the cap; a bypass changes nothing; within the residency the floor does not rise; below the sweet spot nothing is delayed and above it the ramp decides |
| Governor.Step | crates/uperf-core/src/energy.rs:629-961 | a transition succeeds exactly on governable targets; its power is the estimate over all targets; every window lies between the lowest OPP and every cap, its maximum is the cap in force and its minimum the least OPP meeting the demand as ramp, dwell and bypass allow; bucket and budget follow, and the state invariant is kept |
| Governor.Run | crates/uperf-core/src/energy.rs:629-961 | over any run of inputs, also of targets without a model, every emitted window is safe and follows from its observation and the preceding state, and a failed transition changes nothing |
| Governor.StretchFolds | crates/uperf-core/src/energy.rs:766-809 | over any stretch of successful cycles without a burst the budget is the fold of its adjustments |
| Governor.OverloadThrottles | crates/uperf-core/src/energy.rs:766-833 | after as many such cycles over budget as the path is long every cap is at its bottom, and no window reaches above the first control OPP of its path |
| Governor.HeadroomReleases | crates/uperf-core/src/energy.rs:766-833 | after as many under budget every cap is at its top, and without the efficiency ceiling every window reaches to its last control OPP or its safety cap |
| Governor.SnappedWindowIsSafe | crates/uperf-actuator/src/lib.rs:233-261 | what the actuator makes of a safe window stays under the same caps |
| Thermal.ThermalGuard.Update | crates/uperf-core/src/policy.rs:554-600 | the update computes the specified next state and pending candidate |
| Thermal.PendingMeansStretch | crates/uperf-core/src/policy.rs:554-600 | a pending candidate was seen without interruption since it was noted |
| Thermal.ChangesNeedFullDwell | crates/uperf-core/src/policy.rs:554-619 | a change to any state but Critical and Degraded needs an uninterrupted stretch of usable readings pointing there, at least the dwell long and, for a milder state, all below the threshold less the hysteresis |
| Thermal.EmergenciesAreImmediate | crates/uperf-core/src/policy.rs:554-582 | an untrusted reading degrades at once and a critical one is critical at once |
| Thermal.EmergenciesAreReal | crates/uperf-core/src/policy.rs:554-619 | the emergency states are entered only that way |
| Thermal.CoolReadingsRecover | crates/uperf-core/src/policy.rs:583-619 | one dwell of readings below every threshold less the hysteresis brings the guard back to Normal from any state |
| Scheduler.ValidateScheduler | crates/uperf-core/src/config.rs:1770-1945 | the validator reports no issue exactly for the valid policies, although it bounds the work it does on long lists |
| Scheduler.ValidateClasses | crates/uperf-core/src/config.rs:1851-1887 | no issue exactly when the classes within the bound have distinct ids, a weight in range and either a CPU group or CPUs |
| Scheduler.ValidateFocus | crates/uperf-core/src/config.rs:1893-1944 | no issue exactly for a known profile, required when enabled, and lease and debounce times in range |
| Scheduler.ValidateEffective | crates/uperf-core/src/config.rs:2064-2119 | no issue exactly for a plan that is in range and, if FIFO, enabled, prioritised and confined |
| Scheduler.ValidatePlan | crates/uperf-core/src/config.rs:2020-2062 | no issue exactly for a plan whose values are in range |
| Scheduler.ValidateRules | crates/uperf-core/src/config.rs:1941-2018 | the thread-rule budget never hides a broken reference of an otherwise clean policy |
| Scheduler.MaterializedProfile | crates/uperf-core/src/config.rs:1318-1345 | resolving a CPU group keeps a profile valid and resolves every effective plan the same way |
| Scheduler.Materialize | crates/uperf-core/src/config.rs:1232-1345 | materialisation succeeds exactly on valid references and yields a valid policy with the same effective plans and classes, groups resolved, every class with CPUs the device has |
| Scheduler.Evaluate | crates/uperf-core/src/policy.rs:1043-1104 | the first matching rule decides, exactly for the tasks it selects and with the profiles it selects and its cgroup class; without one only a focused workload is planned; no profile or class is ever missing |
| Scheduler.EvaluateRule | crates/uperf-core/src/policy.rs:1063-1104 | a thread rule takes precedence over the rule's own profile, and only tasks of the same user are planned |
| Scheduler.FocusDefault | crates/uperf-core/src/policy.rs:1113-1148 | the focused workload and its user's tasks all get the focus profile's plan |
| Scheduler.DecideSafely | crates/uperf-core/src/config.rs:1770-1893 | for every device and policy that validate, every FIFO plan any decision emits has a non-empty affinity off the housekeeping CPUs and a priority in 1 to max_priority, at most 50, and any cgroup class it names allows some CPUs, all of the device |
| FocusReporter.Reporter.Enable | extensions/focus@uperflinux.org/extension.js:59-120 | a fresh start with one idle update queued and nothing else |
| FocusReporter.Reporter.Disable | extensions/focus@uperflinux.org/extension.js:122-158 | nothing stays active, and a last Clear is sent exactly when the daemon may hold a lease |
| FocusReporter.Reporter.AdvanceGeneration | extensions/focus@uperflinux.org/extension.js:200-206 | no timer or call survives a change of generation |
| FocusReporter.Reporter.OnDaemonAppeared | extensions/focus@uperflinux.org/extension.js:208-220 | a forced update is pending once the daemon appears |
| FocusReporter.Reporter.OnDaemonVanished | extensions/focus@uperflinux.org/extension.js:222-233 | nothing is active without the daemon |
| FocusReporter.Reporter.OnIdle | extensions/focus@uperflinux.org/extension.js:255-266 | the desired focus becomes the one read at that moment, null outside a user session, and the reporter is not stuck |
| FocusReporter.Reporter.SetDesired | extensions/focus@uperflinux.org/extension.js:289-308 | with the daemon present exactly one activity follows, or a cleared focus stays acknowledged |
| FocusReporter.Reporter.OnCallFinished | extensions/focus@uperflinux.org/extension.js:356-394 | an abandoned call changes nothing; a reply leaves the daemon's view at the desired focus and schedules its renewal; a failure schedules a retry with doubled, bounded delay |
| FocusReporter.Reporter.OnRenewal | extensions/focus@uperflinux.org/extension.js:396-406 | a due renewal starts exactly one call |
| FocusReporter.Reporter.OnRetry | extensions/focus@uperflinux.org/extension.js:409-422 | a due retry starts exactly one call for the current focus |
| FocusReporter.Reporter.Settle | extensions/focus@uperflinux.org/extension.js:255-422 | from any reachable state with the daemon present, the pending idle, timer and call, once each without fault, bring the daemon's view to the focus |
| FocusReporter.Run | extensions/focus@uperflinux.org/extension.js:59-422 | over any sequence of events at most one of debounce, call, retry and renewal is active, a call carries the current generation, and the reporter is never stuck |

## Left out

- Systemd units (`apply_units`, `restore_units`, `recover_units_locked`): the shape of tasks with two fields, so they would only add easy members.
- One journal for everything: tasks have a model and a journal cell of their own, so a batch of one kind is not interleaved with the records of another; `restore_all` and the startup-failure bookkeeping only compose modelled calls.
- `FileStateStore`, JSON bytes, CRC32 and size limits: the store is a cell holding a journal value.
- Wall-clock time in `wait_for_limits`: polling is a bounded number of attempts.
- Names and paths: target ids and process identities are compared only; a sysfs path is checked for its components, configuration names not at all.
- Races between an identity check and the write after it: a write to a process that is gone has no effect on the others.
- TaskActuator.TaskActuator.RollBackTasks: rolls back in reverse request order, where the code walks identities in reverse key order; the tasks are distinct, so the order is not observable in the result.
- Runs.RunThenRecover: a run stays within one boot; a journal of another boot is covered by the contract of `RecoverPending`.
- Floating point: powers, loads and energies are reals, so rounding, NaN and infinity are out, and so is u64 overflow of frequencies at or above 2^62 Hz.
- Governor.Step: `time_weighted_ema`, the heavy-load detector, the adaptive sampler and the diagnostics are out, and so is a change of the target set during a run.
- Any claim that the ramp converges: its shared timer restarts once no increase is pending, so only bounds are stated.
- Scheduler.ValidateScheduler: the text of names, matchers and regular expressions is not checked, and issues are not told apart; matchers are arbitrary predicates.
- Scheduler.Materialize: the cross-reference checks on thermal zones, energy models and scalar settings are out.
- Policy evaluation above these parts (profiles, hints, scenes, session state), D-Bus, observers, configuration watching, logging and startup: plumbing around the modelled core.
- Compositor paint and display-power reporting of the extension: user-interface signals outside the lease protocol.
