# Verified model of Momo's memory stack

Momo keeps a companion's long-term memory in Spaces: directories of plain files with a journal and SQL
tables around them. This project models the parts of Momo that are hard to get right and proves what
they promise. Everything is Dafny; `dafny verify dfyconfig.toml` checks the whole project.

## What is modelled

**Durable memory.** `Files` and `PreparedCommit` hold the bottom layer: a workspace that is changed one
file at a time, where any write or removal can fail, and prepared before/after plans with conflict
detection, replay and reverse rollback. `SpaceJournal` is the worker of one Space: preserve, admit a full
after-image into the journal, materialize it file by file, mark the row. `SpaceRuns` is the transition
system over it, with process death, external edits and pending clears at every point. `PlanRecovery` is
the protocol above, across two stores: prepare a plan, record it in SQL, apply it, acknowledge it, with
recovery ordered before admission; `RecoveringCore` holds the procedures themselves, each proved to move
only by steps of that system.

**Spaces.** `WorkerRegistry` is the supervisor that starts, shares and evicts workers. `SpaceRemoval` is
what one removal does to memory, settings, vectors and rows, stage by stage, and `SpaceTransitions` is the
machine around it: requests, fencing, startup recovery and crashes. `MigrationMerge` merges the files of
a removed Space into its target's.

**Aging.** `ActivityAging` is decay, archiving and forgetting by per-context clocks of completed turns;
`AgingPlans` joins it to the recovery protocol, so that those clocks are counts of acknowledged turns.

**Algorithms.** `ContextBudget` fits a prompt into a context window (weighted water-filling, middle
truncation, record fitting, suffix selection). `Text` and `NsgText` are the semantic graph's text format,
`NsgPatch` its patches and pending candidates, `NsgRetrieval` budgeted retrieval. `LsbCarrier` hides a
payload in image samples, `SseDecoder` frames an event stream, `Ddm` bands and selects dispositions, on
the orders in `Sorting`.

Operations that change state step by step are methods over fields or arrays, proved against functions or
relations on values; what the system promises is proved about those. Calls that can fail take their
outcomes from a sequence given at construction, so every method contract covers every pattern of failures.
In the transition systems a death of the process is a step that is enabled everywhere.

## Where the code falls short of a plain statement of its promise

Each comes with its exact condition, proved for all inputs, and with a case that fails. The item on reopening
is a condition of robustness only: its failing case is a command that the repository does not have.

- A node of the semantic graph survives printing exactly when its fields are tidy and no edge target ends
  in a carriage return (`NsgText.ReadsBackExactly`, `NsgText.ReprintingIsStable`). A file whose last line
  ends in a lone carriage return parses to a node that printing changes (`NsgText.LastReturnIsLost`,
  `NsgText.ReturnedFileChanges`), so an automatic patch that names such a Canon node alters it by merely
  writing it anew (`NsgPatch.CanonSurvivesExactly`).
- Approving parked changes in order follows authorized application exactly when every node on the way
  reads back from its own text; a change that puts a line break into a field is accepted with
  authorization and cannot be followed (`NsgPatch.DeferralFollowsExactly`, `NsgPatch.DeferralAgreesExactly`,
  `NsgPatch.BrokenLineBreaksDeferral`).
- A compressed carrier can be embedded and then refused by extraction: it is extracted exactly when its
  compressed size is within the payload limit (`LsbCarrier.EmbeddedExtracts`, `LsbCarrier.LongestPayloadIsLost`).
  Only the functions over raw sample buffers can meet this: images are limited to MAX_LSB_IMAGE_PIXELS
  (crates/momo-core/src/lsb.rs:20, 297), about 24 MiB of capacity.
- A stream of server-sent events that the decoder accepts, with events somewhat shorter than the limit, is
  framed alike in every division exactly when no blank line in carriage returns is followed by one in line
  feeds. Every stream of one style qualifies, and so does one that changes from line feeds to carriage
  returns (`SseDecoder.IndependentExactlyWhenOrderly`). Two events that end in different styles are two when
  they arrive apart and one event of two lines when they arrive together (`SseDecoder.TwoStylesMergeEvents`,
  `SseDecoder.MixedStylesDiffer`).
- A worker reopens, without faults, exactly when its newest image, alone and with the bootstrap files
  added, has admissible provenance (`SpaceJournal.SpaceWorker.Restore`). This is a condition of robustness: no
  command of the repository is known to break it, since the writers of the ledgers (trace_commit,
  add_ledger_to_plan, set_record_policy, imported_ledger and merge_snapshots) start from a ledger they parsed
  and write a chained one. Admission to the journal does not check this: a command that left inadmissible
  provenance would be journaled, answered as interrupted, and no reopening would ever succeed again
  (`SpaceJournal.SpaceWorker.ExecuteWithClear`, `SpaceRuns.InadmissibleImageShuts`,
  `SpaceRuns.ShutForGood`, `SpaceRuns.GarblingShuts`). A run whose commands and bootstrap files keep
  provenance admissible can always be reopened (`SpaceRuns.CarefulRunsReopen`).
- After a migration the target's memory can be aged exactly when one of the two Spaces had no lifecycle
  ledger or both had the same text. Otherwise the merge writes `indexes/lifecycle_activity.json` as YAML
  (crates/momo-core/src/space_lifecycle.rs:772-778) and every later aging, which reads JSON
  (crates/momo-memory/src/lifecycle.rs:112-116), fails (`MigrationMerge.AgingSurvivesExactly`,
  `MigrationMerge.TwoLedgersEndAging`).
- Recording a plan in its event row marks the Space only after the reply (crates/momo-core/src/recovery.rs:284-287).
  As long as no such reply is lost no replay ever conflicts (`PlanRecovery.HeardRecordingsStayFenced`). When one
  is lost, the plan stays in the row and the Space unmarked, and an edit admitted before the next recovery can
  make it conflict exactly when it writes more than the ledger (`PlanRecovery.EditsSpareExactlyLedgers`,
  `PlanRecovery.LostRecordingCanConflict`, `PlanRecovery.LedgerPlansNeverConflict`). Plans of enabled activities
  always do: they also write the index and audit/memory.log (crates/momo-memory/src/lifecycle.rs:340-369). Its
  turn counts at most once either way (`PlanRecovery.ExactlyOnceAging`), and a plan in conflict is never
  counted: once recovery meets it or the process has died, the Space is fenced for good
  (`PlanRecovery.DeathAfterConflict`, `PlanRecovery.ConflictFencesForGood`).
- Likewise a removal fences memory and settings only after the reply to storing its intent
  (crates/momo-core/src/space_lifecycle.rs:427-439); rows are fenced by the triggers of the database
  (crates/momo-storage/migrations/0029_space_removals.sql:11-49) from the stored intent on. A serving process
  refuses the source exactly when it heard that reply or was started later
  (`SpaceTransitions.RefusedExactlyWhenHeard`). What is written while an intent is open survives its finish
  exactly when the intent does not touch the Space or stores that very image, and likewise for settings
  (`SpaceRemoval.WriteSurvivesExactly`, `SpaceRemoval.SettingsSurviveExactly`); rows always do
  (`SpaceRemoval.RowsSurvive`). So a heard intent loses nothing, and an unheard one loses what a migration's
  target takes meanwhile and lets a removed Space be filled again until the next restart
  (`SpaceTransitions.HeardRunsLoseNothing`, `SpaceTransitions.UnheardMigrationLosesWork`,
  `SpaceTransitions.UnheardSpaceIsRefilled`).

## Model

| member | source | states |
|---|---|---|
| PreparedCommit.Workspace.CommitMutations | crates/momo-memory/src/lib.rs:456-501 | a successful transaction does every mutation in order; a repeated target is refused untouched; a failure whose rollback works leaves every file as it was; a failed rollback names the targets that alone may differ, no more of them than calls that failed, and no other path ever changes; without faults it fails only for a repeated target |
| PreparedCommit.Workspace.RollBack | crates/momo-memory/src/lib.rs:477-499 | undoing from the failed mutation backwards restores the starting files, or reports every target it could not restore: at most one for each call that failed, so every target is tried |
| PreparedCommit.Workspace.RecordImages | crates/momo-memory/src/lib.rs:460-470 | before-images are read for every target, and refused exactly when a target repeats |
| PreparedCommit.Workspace.RestoreFile | crates/momo-memory/src/lib.rs:514-534 | a restored path holds its recorded image, absence included, and nothing else changes |
| PreparedCommit.Workspace.Prepare | crates/momo-memory/src/commit.rs:32-56 | a plan exists exactly for distinct safe targets, freezes their current contents as before-images and changes no file |
| PreparedCommit.Workspace.ApplyPreparedCommit | crates/momo-memory/src/commit.rs:132-171 | success leaves exactly the after-images; a target that holds neither image is reported as a conflict and nothing is written; any failure short of a failed rollback leaves the files alone; without faults success is exactly a well-formed plan meeting replayable files |
| PreparedCommit.PendingReachesAfter | crates/momo-memory/src/commit.rs:143-171 | doing what a replay still finds pending lands on the after-images at the targets and leaves every other path |
| PreparedCommit.PartialStaysBetween | crates/momo-memory/src/commit.rs:143-171 | an application cut off after any number of files leaves each target at its starting content or its after-image |
| PreparedCommit.AfterImagesUnique | crates/momo-memory/src/commit.rs:129-171 | whichever partial state a replay starts from, the final files are the same |
| PreparedCommit.ReplayEqualsOneApplication | crates/momo-memory/src/commit.rs:129-171 | after any series of interrupted applications the plan still meets no conflict, and completing it gives what one uninterrupted application gives |
| PreparedCommit.Workspace.PrepareSnapshotCommit | crates/momo-memory/src/commit.rs:72-111 | exactly an admissible snapshot yields a plan, and it names precisely the files in which the workspace and the snapshot differ |
| PreparedCommit.SnapshotPlanRestores | crates/momo-memory/src/commit.rs:70-111 | applying a snapshot plan from any interrupted state of itself makes the files equal the snapshot |
| PreparedCommit.Workspace.ImportSnapshot | crates/momo-memory/src/workspace.rs:123-148 | an import that succeeds leaves exactly the snapshot; an inadmissible one changes nothing; it is not atomic when it fails midway |
| PreparedCommit.Workspace.InitializeLayout | crates/momo-memory/src/workspace.rs:21-91 | bootstrapping adds only files that are missing, never changes one that exists, and is idle on a complete layout |
| PreparedCommit.Workspace.Materialize | crates/momo-core/src/space_worker.rs:561-575 | materializing makes the files equal the image exactly when its provenance is admissible and nothing fails, and uses up no later fault |
| SpaceJournal.AdmitShape | crates/momo-core/src/space_worker.rs:530-557 | admitting onto a settled journal leaves the new unapplied row and at most the previous one |
| SpaceJournal.SpaceWorker.InsertRow | crates/momo-core/src/space_worker.rs:532-557 | one transaction stores the image, the clear intent and the pruning, or nothing; a second pending clear is refused |
| SpaceJournal.SpaceWorker.Publish | crates/momo-core/src/space_worker.rs:515-586 | a publication is settled, or never reached the journal, or left its image as the newest row for replay, marked or not; divergent files are preserved before they are replaced, and unchanged content is not journaled again; without faults it succeeds exactly for skipped or admissible images, and any other is in the journal all the same |
| SpaceJournal.SpaceWorker.PreserveMaterializedChanges | crates/momo-core/src/space_worker.rs:588-621 | files that differ from what was expected are in the backups before anything overwrites them |
| SpaceJournal.SpaceWorker.ReplayNewest | crates/momo-core/src/space_worker.rs:409-425 | reopening replaces the files by the newest image, applied or not, and settles its row |
| SpaceJournal.SpaceWorker.Restore | crates/momo-core/src/space_worker.rs:362-460 | a reopened worker serves the newest image plus only the bootstrap files it lacked; without faults it reopens exactly when that image has admissible provenance with and without them, and with faults never otherwise |
| SpaceJournal.SpaceWorker.ExecuteWithClear | crates/momo-core/src/space_worker.rs:469-503 | acknowledged means journaled, materialized and still serving; rejected means nothing durable changed; otherwise the incarnation ends with the image wholly in the journal or not at all; without faults a finished command is acknowledged exactly when nothing is to be journaled or its image is admissible, and interrupted with the image journaled otherwise, a refused one rejected, one behind a pending clear unavailable, and the incarnation lives on exactly when it was served |
| SpaceJournal.SpaceWorker.CommitCache | crates/momo-core/src/space_worker.rs:487-503 | a failed export or publication ends the incarnation with the journal unchanged or holding the command's image; without faults it fails exactly for an inadmissible image, and a changed image is the newest row either way, served by files and cache exactly when it is admissible |
| SpaceJournal.SpaceWorker.Submit | crates/momo-core/src/space_worker.rs:240-264 | a command after a failure is served by a reopened incarnation or not at all; without faults a discarded incarnation is reopened exactly when its newest image, alone and with the bootstrap files, is admissible, and the command is then acknowledged, rejected or interrupted as by a worker that never stopped |
| SpaceJournal.SpaceWorker.AcknowledgeClear | crates/momo-core/src/space_worker/clear.rs:40-51 | acknowledging drops only the pending intent, and without faults it does |
| SpaceRuns.StepKeepsInv | crates/momo-core/src/space_worker.rs:350-622 | openings, commands, deaths, external edits and acknowledgements each keep the run invariant |
| SpaceRuns.EveryRunIsSafe | crates/momo-core/src/space_worker.rs:362-586 | in every reachable state the newest image is the admitted commands replayed in submission order, holding every acknowledged one and no rejected one; only the newest of at most two rows can be unapplied; every overwritten copy is in a backup or was journaled |
| SpaceRuns.ReopenRestoresNewest | crates/momo-core/src/space_worker.rs:362-460 | after any run, reopening makes files, cache and newest image one: the replayed commands plus missing bootstrap files |
| SpaceRuns.AcknowledgedSurvives | crates/momo-core/src/space_worker.rs:469-503 | an acknowledged command stays in the log for good, and only later commands follow it |
| SpaceRuns.OpenShape | crates/momo-core/src/space_worker.rs:362-460 | a reopening that fails anywhere has changed nothing, settled the newest row, or bootstrapped one more image, and keeps a pending clear |
| SpaceRuns.AdmittedKeepsLog | crates/momo-core/src/space_worker.rs:469-586 | a command that reached the journal extends the log by exactly itself, even when its reply was lost |
| SpaceRuns.CarefulRunsReopen | crates/momo-core/src/space_worker.rs:362-586 | in every run whose commands and bootstrap files keep provenance admissible, the exact condition for reopening holds in every reachable state |
| SpaceRuns.InadmissibleImageShuts | crates/momo-core/src/space_worker.rs:487-575 | a journaled image with inadmissible provenance leaves no incarnation serving and none that could be reopened |
| SpaceRuns.ShutForGood | crates/momo-core/src/space_worker.rs:362-460 | a Space shut that way stays shut over any later events: no defaults let it reopen and its newest image never changes |
| SpaceRuns.GarblingShuts | crates/momo-core/src/space_worker.rs:469-503 | the concrete command that overwrites a ledger by text that does not parse shuts the Space when it is journaled |
| PlanRecovery.ExactlyOnceAging | crates/momo-core/src/recovery.rs:73-301 | over every schedule of two-store steps, lost replies and deaths: at most one recorded plan is outstanding, an admitted holder sees each context's turn counter equal its acknowledged events, so a turn counts at most once, and a replay never conflicts unless the reply to recording its plan was lost |
| PlanRecovery.StepKeepsInv | crates/momo-core/src/recovery.rs:73-301 | accepting, recovering, recording, losing that reply, marking, applying, acknowledging, clearing and dying keep plans exact, every event counted once, and unfinished work fenced except for a plan whose recording was lost |
| PlanRecovery.EveryRunIsSafe | crates/momo-core/src/recovery.rs:73-301 | the plan, fence and count invariants hold after every run |
| PlanRecovery.HeardRecordingsStayFenced | crates/momo-core/src/recovery.rs:284-287 | a schedule in which no reply to recording is lost never leaves a plan unfenced |
| PlanRecovery.EditsSpareExactlyLedgers | crates/momo-core/src/recovery.rs:258-301 | an outstanding plan that meets no conflict meets none after any one admitted edit exactly when it writes only the ledger |
| PlanRecovery.LostRecordingCanConflict | crates/momo-core/src/recovery.rs:258-301 | every plan of an event that also writes another file is exposed: recording it, losing the reply, admitting again and one edit leave it outstanding and in conflict |
| PlanRecovery.LedgerPlansNeverConflict | crates/momo-core/src/recovery.rs:128-177 | an outstanding plan that writes only the ledger can be replayed in every reachable state that recovery may find |
| PlanRecovery.ConflictFencesForGood | crates/momo-core/src/recovery.rs:128-177 | over any later schedule, restarts included, a Space whose oldest open plan conflicts under recovery admits nobody, keeps its memory as it is and never completes that event |
| PlanRecovery.DeathAfterConflict | crates/momo-core/src/recovery.rs:11-48 | the death of the process in an admitted state with a conflicting plan leads there |
| PlanRecovery.AgingCountsOnce | crates/momo-memory/src/lifecycle.rs:112-123 | a plan that ages a memory once rewrites the ledger file by one more turn of its context, whatever else the memory holds later |
| PlanRecovery.ApplyingMoves | crates/momo-core/src/recovery.rs:238-254 | applying such a plan to any memory whose ledger is at either of its images adds the turn exactly when it was missing |
| PlanRecovery.NothingPreparedMeansNone | crates/momo-core/src/recovery.rs:134-145 | finding no plan in one bounded batch of open events means there is none at all, since a recorded plan belongs to the oldest open event |
| PlanRecovery.OnlyOnePlan | crates/momo-core/src/recovery.rs:258-301 | two outstanding plans of a Space are the same plan |
| PlanRecovery.CountTurnAgesOnce | crates/momo-memory/src/lifecycle.rs:97-123 | every memory and activity has a plan that counts its turn once, so the assumption on preparing can be met |
| PlanRecovery.CreatingAgesOnce | crates/momo-core/src/recovery.rs:258-301 | a plan that counts the turn and creates a file satisfies the assumption on preparing and writes more than the ledger, so exposed plans exist |
| PlanRecovery.ClearKeepsExactly | crates/momo-core/src/space_worker/clear.rs:12-27 | the semantic graph is what lies under lore and rules, archived or not; clearing it takes exactly that, clearing the memory exactly the rest, and what is kept keeps its content |
| RecoveringCore.Core.ReserveSpace | crates/momo-core/src/recovery.rs:73-97 | a reservation is granted only when nothing earlier is unfinished, and a refused one leaves the Space free; an unmarked Space is granted as it is, and without outages a marked one exactly when no recorded plan is in conflict |
| RecoveringCore.Core.RecoverSpaceCommits | crates/momo-core/src/recovery.rs:128-177 | success means no pending clear and no recorded plan remain and the mark is off; failure leaves the Space marked; without outages it succeeds exactly when no recorded plan is in conflict |
| RecoveringCore.Core.ReplayPlans | crates/momo-core/src/recovery.rs:130-145 | the clear is finished before any plan is looked at, and at the end no open event carries a plan; without outages that is reached exactly when no plan is in conflict |
| RecoveringCore.Core.FinishMemoryClear | crates/momo-core/src/recovery.rs:199-211 | the intent is dropped only after the SQL cleanup, which takes the events of a cleared memory and no others; without outages it is dropped |
| RecoveringCore.Core.ApplyJournaledMemoryCommit | crates/momo-core/src/recovery.rs:238-254 | a reply means the after-images are in memory; an error means they are there or nothing changed, and it is a conflict only for a plan whose recording was lost; without outages the plan is applied exactly when it is replayable |
| RecoveringCore.Core.ProcessMemoryLifecycle | crates/momo-core/src/recovery.rs:258-301 | a batch that succeeds has completed every row of the oldest open ones, aged the memory by their activities one after the other, added to each context the turns of its enabled ones, and left all counters equal to the acknowledged events; without outages an unmarked Space succeeds exactly when no plan is outstanding and every activity of the batch can be prepared |
| RecoveringCore.Core.ProcessEvent | crates/momo-core/src/recovery.rs:258-301 | one processed event ages the memory by its plan, advances its own context's counter by one if it is enabled and completes only its own row; a row that holds a plan already takes no other, and a recording whose reply is lost leaves the Space unmarked; without outages it succeeds exactly when the row holds no plan and preparing succeeds |
| RecoveringCore.Core.CompleteLifecycleEvent | crates/momo-storage/src/local/lifecycle.rs:69-79 | acknowledging completes its own row and drops its plan, or changes no row; a lost reply is reported as failure although the row is completed; without outages the row is completed |
| RecoveringCore.Core.ClearSpaceMemory | crates/momo-core/src/recovery.rs:180-197 | a clear that succeeds leaves the retained partition plus defaults and no intent, and no event when it took the memory; a failed one is left to recovery; without outages it succeeds |
| RecoveringCore.Core.Startup | crates/momo-core/src/recovery.rs:11-48 | startup ends with the Space published; when its recovery failed it is marked, and an unmarked one has exact counters; without outages it is unmarked exactly when no recorded plan is in conflict |
| RecoveringCore.OpenRowsShape | crates/momo-storage/src/local/lifecycle.rs:29-46 | a batch is the oldest open events in order, and leaves out an open one only when it is full of older ones |
| RecoveringCore.BatchMovesOn | crates/momo-storage/src/local/lifecycle.rs:29-46 | as events are completed and added, a row of a batch is completed or in the next batch |
| RecoveringCore.AgedByCounts | crates/momo-core/src/recovery.rs:265-288 | ageing by one activity after the other adds to each context exactly the enabled activities that name it |
| AgingPlans.AgingAgesOnce | crates/momo-memory/src/lifecycle.rs:88-123 | every plan that moves the files from a memory to the aged memory, ledger included, is one that recovery counts exactly once |
| AgingPlans.CountTurnHolds | crates/momo-memory/src/lifecycle.rs:112-123 | every accepted turn of every memory has such a plan: the smallest one recovery counts by writes exactly the ledger that aging advances to |
| AgingPlans.ReplayCannotAgeTwice | crates/momo-memory/src/lifecycle.rs:88-91 | however often applying such a plan is interrupted, replaying it ends in the memory aged once |
| AgingPlans.ClocksCountEvents | crates/momo-core/src/recovery.rs:258-301 | over every schedule of the recovery protocol, the clock by which a context ages documents is the number of its acknowledged turns |
| AgingPlans.KeysSeparate | crates/momo-memory/src/lifecycle.rs:104-108 | two contexts never share a ledger key |
| SpaceRemoval.AttemptThenFinish | crates/momo-core/src/space_lifecycle.rs:491-547 | a finish cut off after any stage, then finished, gives what one finish gives |
| SpaceRemoval.RedoIsIdle | crates/momo-core/src/space_lifecycle.rs:491-547 | doing the stages of an interrupted finish again changes nothing |
| SpaceRemoval.FinishCloses | crates/momo-core/src/space_lifecycle.rs:491-666 | a finish leaves the target's after-image, the settings image, an empty source, no vectors of either Space, and the rows and assistants of the final transaction |
| SpaceRemoval.RemovalIsCrashTransparent | crates/momo-core/src/space_lifecycle.rs:427-666 | from a stored intent, any interrupted attempts, restarts, writes, rows and settings, then finishing, equal finishing at once followed by the surviving work: everything but memory given to the two Spaces and settings that the intent has an image of |
| SpaceRemoval.WorkThenFinish | crates/momo-core/src/space_lifecycle.rs:491-666 | work elsewhere, settings without an image and rows the database lets through commute with the finish |
| SpaceRemoval.OverwrittenByFinish | crates/momo-core/src/space_lifecycle.rs:491-547 | restarts and writes of the two Spaces and settings that the intent has an image of leave no trace in what the finish leaves |
| SpaceRemoval.FinishConservesRows | crates/momo-core/src/space_lifecycle.rs:549-666 | migration moves every row of the source to the target and loses none, deletion removes exactly the source's rows, and no assistant of another Space loses its row |
| SpaceRemoval.FinishConservesAssistants | crates/momo-core/src/space_lifecycle.rs:591-598 | a deletion keeps a default assistant, unchanged, exactly when neither its Space nor its character is the source's; a migration leaves every other Space's, and the target has its own if it had one, else the source's |
| SpaceRemoval.FinishLeavesOthers | crates/momo-core/src/space_lifecycle.rs:491-547 | memory and vectors of every other Space stay, the source ends empty, a target has the merged image, and neither has vectors |
| SpaceRemoval.WriteSurvivesExactly | crates/momo-core/src/space_lifecycle.rs:427-547 | memory given to a Space while an intent is open outlives the finish exactly when the intent does not touch the Space or stores that very memory for it |
| SpaceRemoval.SettingsSurviveExactly | crates/momo-core/src/space_lifecycle.rs:427-547 | settings changed while an intent is open outlive the finish exactly when the intent has no image of them or the same one |
| SpaceRemoval.RowsSurvive | crates/momo-storage/migrations/0029_space_removals.sql:11-49 | a row that the database lets in while an intent is open is where it was put after the finish |
| SpaceTransitions.StepKeepsInv | crates/momo-core/src/space_lifecycle.rs:252-547 | every request, heard or not, every restart, bootstrap, write and settings change keeps at most one open removal, removed sources without rows, exactly the heard intents fenced and no stored intent altered |
| SpaceTransitions.EveryRunIsSafe | crates/momo-core/src/space_lifecycle.rs:290-547 | in every run, replies to the intent lost or not, at most one removal is open and a removed Space never has a row again; it stays refused and empty for good across any number of restarts unless the reply to its intent was lost |
| SpaceTransitions.RefusedExactlyWhenHeard | crates/momo-core/src/space_lifecycle.rs:427-489 | in every run a serving process refuses the source of a removal exactly when it heard the reply to storing the intent or was started after it |
| SpaceTransitions.EveryRunIsCrashTransparent | crates/momo-core/src/space_lifecycle.rs:427-547 | however a whole run treats an open removal, its reply heard or not, finishing it at the end gives memory, settings and rows as if finished at the start and followed by the surviving work |
| SpaceTransitions.HeardIntentLosesNothing | crates/momo-core/src/space_lifecycle.rs:427-440 | whatever the fence of a heard intent lets through is work that survives its finish |
| SpaceTransitions.HeardRunsLoseNothing | crates/momo-core/src/space_lifecycle.rs:427-440 | over any run while a heard intent is open, restarts included, everything but failed attempts and bootstraps is surviving work |
| SpaceTransitions.UnheardMigrationLosesWork | crates/momo-core/src/space_lifecycle.rs:427-440 | from any state that admits a migration: with the reply to its intent lost, the target takes memory other than the merged one, and the finish loses it |
| SpaceTransitions.UnheardSpaceIsRefilled | crates/momo-core/src/space_lifecycle.rs:294-318 | from any state that admits a removal: with the reply lost and the removal finished by asking again, the removed Space takes memory |
| SpaceTransitions.FinishedIsOnlyReported | crates/momo-core/src/space_lifecycle.rs:290-321 | asking again with a finished operation id, or with a used id for another request, changes no store and no fence |
| SpaceTransitions.OthersLeaveOpen | crates/momo-core/src/space_lifecycle.rs:320-330 | while a removal is open no other request changes any store |
| SpaceTransitions.MigrationTargetLivesAgain | crates/momo-core/src/space_lifecycle.rs:427-547 | once the closing step is reported the target is live and no transition is pending, and the source is refused exactly when the intent was heard or a restart closed it |
| SpaceTransitions.RunIsPlay | crates/momo-core/src/space_lifecycle.rs:252-489 | a run in which an intent is open, heard or not, is exactly a schedule of attempts, restarts and work that the database lets through |
| SpaceTransitions.SpaceLifecycle.RemoveSpaceAssets | crates/momo-core/src/space_lifecycle.rs:252-442 | a request takes one step of the machine, one whose intent is stored and whose reply is lost included, and succeeds without faults exactly when it is a known operation with the same request or an acceptable new one |
| SpaceTransitions.AdmitsExactly | crates/momo-core/src/space_lifecycle.rs:290-426 | a new request is admitted exactly when every earlier removal is completed and took neither its source nor its target, neither is retired, the target is another Space, its after-image is there exactly for a migration, and the two do not have different default assistants |
| SpaceTransitions.SpaceLifecycle.StoreIntent | crates/momo-core/src/space_lifecycle.rs:427-439 | the intent is stored and fenced, stored and not fenced because the reply was lost, or not stored |
| SpaceTransitions.SpaceLifecycle.FinishSpaceRemoval | crates/momo-core/src/space_lifecycle.rs:491-547 | the stores hold what some number of stages leaves, all of them on success, and only then is a target released |
| SpaceTransitions.SpaceLifecycle.FinishSpaceSql | crates/momo-core/src/space_lifecycle.rs:549-666 | rows, default assistants and the intent change together or not at all |
| SpaceTransitions.SpaceLifecycle.RecoverSpaceRemovals | crates/momo-core/src/space_lifecycle.rs:445-489 | serving starts only when every removed source is fenced and no intent is open |
| WorkerRegistry.EveryRunIsSafe | crates/momo-core/src/space_worker.rs:74-155 | in every interleaving each Space has at most one live worker and the registry stays within its limit |
| WorkerRegistry.StepKeepsInv | crates/momo-core/src/space_worker.rs:74-209 | lookups, announcements, clones, drops, departures and evictions keep reservations, reference counts and waiting callers consistent |
| WorkerRegistry.OnlyIdleWorkersEnd | crates/momo-core/src/space_worker.rs:109-118 | a worker ends only by eviction, and only when the registry holds its last reference |
| WorkerRegistry.NobodyIsForgotten | crates/momo-core/src/space_worker.rs:84-142 | a caller's request is never lost or answered twice, and a handle it gets is a live worker of the Space it asked for |
| WorkerRegistry.AnnouncementTellsAll | crates/momo-core/src/space_worker.rs:89-107 | an announcement gives every waiter its outcome, counts a reference for each one still there, makes the address ready with that handle, and frees the reservation when opening failed |
| WorkerRegistry.AnnouncementSparesOthers | crates/momo-core/src/space_worker.rs:89-107 | an announcement tells nobody who does not wait for its address, and changes no other address |
| WorkerRegistry.ReadyIsShared | crates/momo-core/src/space_worker.rs:119-121 | a lookup of a ready Space tells its caller that very handle, adds one outside reference when the caller is still there, and changes no address and no other worker |
| WorkerRegistry.StartingIsJoined | crates/momo-core/src/space_worker.rs:122-129 | a lookup of a starting Space joins its waiters, and is refused for a full queue exactly when there are 64 |
| WorkerRegistry.AbsentIsOpened | crates/momo-core/src/space_worker.rs:109-141 | a lookup of an absent Space makes its caller the initializer, and is refused for capacity exactly when the registry is full and every worker in use, or when the caller is gone; at most one worker makes room, one that nobody outside references |
| WorkerRegistry.Supervisor.Serve | crates/momo-core/src/space_worker.rs:84-142 | handling one request is one step of the registry |
| WorkerRegistry.Supervisor.HandleLookup | crates/momo-core/src/space_worker.rs:109-141 | a lookup joins, shares, opens or refuses, after evicting one idle worker only when the registry is full and the Space absent |
| WorkerRegistry.Supervisor.HandleInitialized | crates/momo-core/src/space_worker.rs:89-107 | every waiter gets the outcome; an announcement for an address that is not starting is dropped, and so is whatever entry was there |
| WorkerRegistry.Supervisor.FindIdle | crates/momo-core/src/space_worker.rs:109-118 | an idle worker is found exactly when there is one |
| ActivityAging.PrepareLifecycleActivity | crates/momo-memory/src/lifecycle.rs:97-384 | whatever order the documents are read in, the loop ages each of them by itself and counts the turn once, or refuses the whole turn |
| ActivityAging.AgeDocument | crates/momo-memory/src/lifecycle.rs:168-336 | one pass decides eligibility, enrolment, decay, archiving and forgetting of a single document |
| ActivityAging.TurnsCountOnce | crates/momo-memory/src/lifecycle.rs:119-123 | an accepted turn advances its own context by one and no other clock; a refused one advances none |
| ActivityAging.DecaysAreEarned | crates/momo-memory/src/lifecycle.rs:219-279 | over any run with fixed settings and no edits, d decays of a document mean every context enrolled throughout has advanced d decay intervals, and cost exactly factor to the d |
| ActivityAging.IdleContextProtects | crates/momo-memory/src/lifecycle.rs:261-279 | while one enrolled context is idle and not ripe, no activity elsewhere decays the document |
| ActivityAging.EditRestartsRetention | crates/momo-memory/src/lifecycle.rs:219-254 | the first turn after an edit starts every enrolled clock at its context's present and ages nothing |
| ActivityAging.ArchivingStartsTheClock | crates/momo-memory/src/lifecycle.rs:309-327 | aging archives only by a decay below 0.2, and starts every enrolled archive clock there |
| ActivityAging.ForgettingTakesItsTime | crates/momo-memory/src/lifecycle.rs:279-308 | a document archived at the start of a run is forgotten only after the whole forgetting interval in every context enrolled for it, only if allowed and only if unimportant, and then its record goes too |
| ActivityAging.OnlyTheArchiveForgets | crates/momo-memory/src/lifecycle.rs:279-308 | nothing outside the archive and nothing protected is ever forgotten |
| ActivityAging.MentionProtects | crates/momo-memory/src/lifecycle.rs:245-254 | on the turn that mentions it a document keeps its weight and its place, whatever its clocks said, and its clock in that context is the turn itself |
| ActivityAging.MentionLasts | crates/momo-memory/src/lifecycle.rs:219-279 | after a mention a document does not decay over any run in which that context completes fewer turns than the decay interval |
| ActivityAging.OneTurnExactly | crates/momo-memory/src/lifecycle.rs:168-336 | for a document that the turn concerns and its context is enrolled for: one factor is lost exactly when it is neither protected nor mentioned and every enrolled clock is ripe, it is archived exactly when that takes it below 0.2, forgotten exactly when its time in the archive is over in every context, and every clock is given |
| ActivityAging.EnrollingExactly | crates/momo-memory/src/lifecycle.rs:168-254 | a document that the context is not enrolled for does not age, and is enrolled exactly when the turn mentions it or it belongs to the conversation or character |
| ActivityAging.OthersStay | crates/momo-memory/src/lifecycle.rs:168-218 | a document that the turn does not concern keeps everything, its record included |
| ActivityAging.RefusedExactly | crates/momo-memory/src/lifecycle.rs:97-167 | a turn is refused exactly for settings out of range, a full turn counter or an archive place that is taken, and as that; with aging off it changes nothing |
| ActivityAging.BlockedExactly | crates/momo-memory/src/lifecycle.rs:309-336 | a document blocks the turn exactly when it would be archived onto a place that is taken |
| ContextBudget.EstimateTextTokens | crates/momo-core/src/context.rs:196-207 | the counting loop gives a quarter token per ASCII character, rounded up, and one for each other |
| ContextBudget.EstimateIsTame | crates/momo-core/src/context.rs:196-207 | the conservative estimate charges every nonempty text, never charges a joined text more than its parts, and never less for more text |
| ContextBudget.EstimateExactly | crates/momo-core/src/context.rs:196-207 | with n ASCII characters the estimate is n/4, rounded up, plus one for each other character |
| ContextBudget.TruncateMessageContent | crates/momo-core/src/context.rs:248-290 | a text that fits is kept; otherwise the search ends in the best clip, or in nothing when not even the marker fits |
| ContextBudget.SearchClip | crates/momo-core/src/context.rs:262-289 | the binary search ends at a clip that fits while one more character would not |
| ContextBudget.SearchIsBest | crates/momo-core/src/context.rs:248-290 | with a monotone counter no clip that keeps more characters fits, and head and tail never overlap |
| ContextBudget.ClippingKeepsBothEnds | crates/momo-core/src/context.rs:262-289 | a shortened text is a beginning and an end of the text around one ellipsis, as many characters in front as behind or one more, and no longer pair of ends fits |
| ContextBudget.WaterFill | crates/momo-core/src/context.rs:371-388 | the rounds end, no quota exceeds its cost, the quotas spend exactly the smaller of budget and total cost, and the division is fair |
| ContextBudget.RoundsAreFair | crates/momo-core/src/context.rs:371-388 | for an unsatisfied section i and any j, q_j*w_i is at most (q_i + w_i)*w_j |
| ContextBudget.AllIsSpent | crates/momo-core/src/context.rs:365-388 | an over-budget prompt spends the whole content budget except the reserve for separators |
| ContextBudget.NothingDropped | crates/momo-core/src/context.rs:402-415 | with a tame counter the sections cut to their quotas always fit together |
| ContextBudget.DropUntilFit | crates/momo-core/src/context.rs:402-415 | dropping ends with sections that fit or with none, touches nothing of what fits, touches a section only when everything behind it is gone, cuts none that holds records, and one drop earlier it did not fit |
| ContextBudget.FitMemoryRecords | crates/momo-core/src/context.rs:430-447 | the result is the heading with the greedy choice of complete records, none of them cut, within the quota |
| ContextBudget.RecordsStayWhole | crates/momo-core/src/context.rs:430-447 | of a text written as a heading and tagged records, each record is kept, unchanged and between its tags, exactly when it fits behind those kept ahead of it; with none the heading goes too |
| ContextBudget.FitSystemSections | crates/momo-core/src/context.rs:347-428 | a prompt that fits is kept whole; otherwise each section is cut to a fair quota and the joined prompt is within the budget |
| ContextBudget.JoinSeparates | crates/momo-core/src/context.rs:352-359 | joined sections have one blank line between those that are not empty |
| ContextBudget.RetainHistory | crates/momo-core/src/context.rs:148-179 | the kept messages are the longest suffix that fits, and only a newest message that stands alone may be shortened |
| ContextBudget.PrepareSections | crates/momo-core/src/context.rs:105-193 | the prompt is at most one system message, made of the sections kept by fair quotas, and a retained suffix; the audit, the token estimate and the counts of omitted and shortened messages are those of exactly these |
| ContextBudget.PrepareContext | crates/momo-core/src/context.rs:72-193 | the same for the sections that the prompt's parts give |
| ContextBudget.SectionsExactly | crates/momo-core/src/context.rs:292-345 | the system message has exactly a section for each part that says something, of its trimmed text under its own heading and weight, in one order with the director last |
| ContextBudget.NoSectionIsCutExactly | crates/momo-core/src/context.rs:105-143 | no section is cut exactly when all of them, joined, fit beside the newest message or half the limit, whichever is less; the system message is then all of them |
| ContextBudget.NoMessageIsLostExactly | crates/momo-core/src/context.rs:146-181 | the whole history is kept as it is exactly when it fits in what the system message leaves |
| ContextBudget.PromptWithinLimit | crates/momo-core/src/context.rs:105-193 | what the prompt's own messages cost is its reported estimate and at most max(1, window - reserve - 128); at most one of them is a system message, in front; and a newest message of at most half the limit, rounded up, is kept whole whatever the sections weigh |
| ContextBudget.WholePromptWithinLimit | crates/momo-core/src/context.rs:105-193 | when messages are priced by the counter, the sum over all messages of the prompt is its reported estimate and within the limit |
| ContextBudget.AuditTellsCuts | crates/momo-core/src/context.rs:116-193 | the audit has one entry per section with its name, its full price, the price of what is kept of it and whether it was cut or omitted; the system message is exactly what is kept; the count of shortened messages follows from the audit and the newest message |
| NsgText.ReadsBackExactly | crates/momo-memory/src/nsg.rs:157-315 | a valid node reads back from its text exactly when its fields are trimmed single lines, its lists clean and no edge target ends in a carriage return; colons and arrows in targets do no harm |
| NsgText.ReprintingIsStable | crates/momo-memory/src/nsg.rs:157-315 | what a text parses to is valid, and survives printing exactly when no edge target ends in a carriage return, so always when the text has none |
| NsgText.LastReturnIsLost | crates/momo-memory/src/nsg.rs:157-315 | the text of any tidy node with edges, its last line ended by a lone carriage return, parses to a node that loses the return when it is printed |
| NsgText.ReturnedFileChanges | crates/momo-memory/src/nsg.rs:157-315 | a concrete such file, whose last target is Ann and a carriage return |
| NsgText.ModeCannotBeForged | crates/momo-memory/src/nsg.rs:157-315 | whatever a node's fields hold, line breaks included, its text never parses to another mode, status or zone |
| NsgText.EdgeReads | crates/momo-memory/src/nsg.rs:1258-1279 | a valid edge reads back from its own line |
| NsgText.SplitJoined | crates/momo-memory/src/nsg.rs:1476-1489 | a joined list of trimmed, nonempty, comma-free entries splits into the same entries |
| NsgText.ParsedIsTidy | crates/momo-memory/src/nsg.rs:157-279 | every parsed node is valid and tidy |
| NsgText.PrintedReads | crates/momo-memory/src/nsg.rs:157-315 | a tidy node reads back with only the carriage returns at the end of edge targets gone, or is refused when that empties one |
| NsgText.SampleIsFaithful | crates/momo-memory/src/nsg.rs:157-315 | the assumptions on number formatting and normalisation can be met |
| NsgPatch.PreparePatch | crates/momo-memory/src/nsg.rs:454-555 | preparing the files of a patch in turn gives the mutations of each, and is refused as a whole when one is or when a target repeats |
| NsgPatch.PrepareOne | crates/momo-memory/src/nsg.rs:466-552 | the operations on one file are performed in order and end in one rewritten node, or the file's patch is refused |
| NsgPatch.PatchIsHarmless | crates/momo-memory/src/nsg.rs:454-555 | an accepted patch without authorization writes a Canon node only as it was, makes no node Canon, and otherwise touches parked candidates |
| NsgPatch.PatchSparesCanon | crates/momo-memory/src/nsg.rs:454-555 | committed, such a patch leaves what a Canon node parses to and adds no Canon node |
| NsgPatch.CanonIsProtected | crates/momo-memory/src/nsg.rs:454-555 | over any sequence of accepted unauthorized patches a Canon node keeps its parsed content and no other node becomes Canon |
| NsgPatch.CanonSurvivesExactly | crates/momo-memory/src/nsg.rs:454-555 | an accepted unauthorized patch that names a Canon node leaves what its file parses to exactly when no edge target ends in a carriage return |
| NsgPatch.WrittenReads | crates/momo-memory/src/nsg.rs:281-315 | a written node reads back as the Canon node it was and never as a new one |
| NsgPatch.TextPrinterIsTrusty | crates/momo-memory/src/nsg.rs:157-315 | the text format meets what patching needs of a printer |
| NsgPatch.DeferralFollowsExactly | crates/momo-memory/src/nsg.rs:819-860 | approving changes one by one agrees with authorized application at every step exactly when each intermediate node reads back from its own text |
| NsgPatch.BrokenLineBreaksDeferral | crates/momo-memory/src/nsg.rs:1097-1213 | the concrete change that breaks a line is authorized for every valid node and never followed by deferral |
| NsgPatch.DeferralMatchesAuthorization | crates/momo-memory/src/nsg.rs:454-555 | when a patch of one Canon node is blocked, whatever changes and proposals it mixes, approving its parked changes in order gives every file what authorization gives and leaves none of them parked |
| NsgPatch.DeferralAgreesExactly | crates/momo-memory/src/nsg.rs:819-860 | after such a blocked patch the approvals agree with authorization at every step exactly when every node on the way, the first and the last included, reads back from its own text |
| NsgPatch.ApprovePendingCandidate | crates/momo-memory/src/nsg.rs:819-860 | a candidate is approved exactly when one node, and only one, is what its name means |
| NsgPatch.ApplyKeepsIdentity | crates/momo-memory/src/nsg.rs:1097-1177 | no change alters a node's id or makes it invalid |
| NsgPatch.AddsExactly | crates/momo-memory/src/nsg.rs:1097-1177 | adding an edge is idle when the node has it, refused when it is invalid or another has its category, relation and target, and otherwise puts it last |
| NsgPatch.RemovesExactly | crates/momo-memory/src/nsg.rs:1097-1177 | removing takes out the edge of that category, relation and target, if any, and keeps the others in order |
| NsgPatch.ArchivesExactly | crates/momo-memory/src/nsg.rs:1097-1177 | archiving needs a reason that is not blank and changes the status alone |
| NsgPatch.UpdatesExactly | crates/momo-memory/src/nsg.rs:1097-1177 | an update gives each field it names its value, leaves every other, and is refused exactly when the result is no valid node |
| NsgPatch.FrontmatterExactly | crates/momo-memory/src/nsg.rs:1097-1177 | a frontmatter update changes exactly the fields it names, and is refused exactly when the result is no valid node |
| NsgPatch.OperationsExactly | crates/momo-memory/src/nsg.rs:466-552 | the operations on a file are performed exactly when each is performed on what the one before left; the file ends in the last node, and exactly the blocked ones are parked |
| NsgPatch.FileExactly | crates/momo-memory/src/nsg.rs:466-552 | a file's patch is refused exactly when it neither creates a node nor has such a course; accepted, it writes the last node behind what it parks |
| NsgPatch.RefusesExactly | crates/momo-memory/src/nsg.rs:454-556 | a patch is refused exactly when one of its files is, or two name one target |
| NsgPatch.FilesExactly | crates/momo-memory/src/nsg.rs:454-556 | an accepted patch's mutations are those of its files in turn |
| NsgPatch.ApprovesExactly | crates/momo-memory/src/nsg.rs:819-860 | an approval writes the one node its name can mean with all the changes, drops the candidate and touches no other file |
| NsgRetrieval.RetrievalIsBounded | crates/momo-memory/src/nsg.rs:557-744 | the returned tokens are within the budget, no node comes twice, results are ranked by zone and then by score, and every direct candidate left out would not fit in what remains |
| NsgRetrieval.NeighboursAreBounded | crates/momo-memory/src/nsg.rs:616-706 | what is returned beyond the direct candidates takes at most its 30% share, is at most twelve nodes, and each was reached from one of the three foremost by a strong enough edge |
| NsgRetrieval.SpendingIsBounded | crates/momo-memory/src/nsg.rs:675-717 | the three passes select nothing twice, stay within budget and share, and leave out only what neither would admit |
| NsgRetrieval.ReserveIsKept | crates/momo-memory/src/nsg.rs:681-697 | while there are neighbours, only a single paying direct candidate can exceed the 70% reserve, and one waits only when it would exceed it |
| NsgRetrieval.CandidatesHold | crates/momo-memory/src/nsg.rs:593-668 | every direct node is a candidate, every other candidate was reached by a strong edge and carries its damped score, and ids are unique |
| NsgRetrieval.NoNeighbourIsPassedOver | crates/momo-memory/src/nsg.rs:616-667 | a followed edge leads to a candidate unless twelve neighbours were found already |
| NsgRetrieval.HeaviestAreFollowed | crates/momo-memory/src/nsg.rs:624-648 | a strong edge is passed over only for a full set of edges none of which it outweighs |
| NsgRetrieval.RaisedAreForemost | crates/momo-memory/src/nsg.rs:1434-1458 | at most two automatic nodes are raised to zone 3, all of them near the top anchor score, and one is passed over only for two that are ahead of it |
| NsgRetrieval.SelectedHold | crates/momo-memory/src/nsg.rs:675-718 | the selection is ordered, and a neighbour left out fits neither the budget nor the share |
| NsgRetrieval.SpendBudget | crates/momo-memory/src/nsg.rs:675-717 | the loops over direct, neighbouring and waiting candidates spend exactly what the three passes do |
| NsgRetrieval.ExpandNeighbours | crates/momo-memory/src/nsg.rs:616-667 | the loop over sources and edges finds each new target once |
| NsgRetrieval.RetrieveNodes | crates/momo-memory/src/nsg.rs:557-744 | the whole procedure returns the specified retrieval |
| NsgRetrieval.ResultsExactly | crates/momo-memory/src/nsg.rs:675-744 | every result shows a candidate, with its own price, anchor score and zone |
| NsgRetrieval.OrderExactly | crates/momo-memory/src/nsg.rs:718-744 | results come by zone and inside a zone by fused score, anchor score, importance and id |
| NsgRetrieval.DirectsExactly | crates/momo-memory/src/nsg.rs:593-615 | the direct candidates are exactly the nodes hit by an anchor or the vector search and those of zone 0, with their own scores |
| NsgRetrieval.RaisedExactly | crates/momo-memory/src/nsg.rs:1434-1458 | zone 3 holds exactly the two foremost automatic nodes near the top anchor score, or all of them when there are no more, and every other node its own zone |
| NsgRetrieval.SourcesAreForemost | crates/momo-memory/src/nsg.rs:616-623 | edges are followed from exactly the three foremost direct candidates, or all when there are no more |
| NsgRetrieval.FollowedExactly | crates/momo-memory/src/nsg.rs:624-648 | a source with more than twelve known links is followed along its four heaviest of at least 0.7, any other along its six heaviest of at least 0.4 |
| NsgRetrieval.BudgetIsSpentInOrder | crates/momo-memory/src/nsg.rs:675-717 | each candidate in turn is taken exactly when it fits with what was taken ahead of it, a neighbour also into the 30% share, and a direct one waits exactly when it would pass 70% behind another while there are neighbours |
| LsbCarrier.EmbedLsbCarrier | crates/momo-core/src/lsb.rs:119-168 | a refused payload leaves every sample; an accepted one is in the specified samples and reported with its sizes, within the capacity |
| LsbCarrier.ExtractLsbCarrier | crates/momo-core/src/lsb.rs:170-219 | extraction applies every header, length, checksum and size check before it returns the bytes |
| LsbCarrier.EmbeddedExtracts | crates/momo-core/src/lsb.rs:119-219 | an embedded payload is extracted with its type, flag and bytes exactly when it is uncompressed or its compressed size is within the limit |
| LsbCarrier.EmbedsExactly | crates/momo-core/src/lsb.rs:119-168 | a payload is embedded exactly when it is of 1 byte to 64 MiB, compresses if asked to, and fits three bits a pixel behind 24 bytes; the buffer then reads as the header, byte for byte, and what is stored |
| LsbCarrier.ExtractsExactly | crates/momo-core/src/lsb.rs:170-219 | a payload is extracted exactly when the buffer holds such a header, its numbers are within the limits and the buffer, and the bytes have the length and the checksum that it tells |
| LsbCarrier.LongestPayloadIsLost | crates/momo-core/src/lsb.rs:119-219 | the longest payload, a lossless compressor that lengthens it and a buffer that holds the result: embedded, then refused for its length |
| LsbCarrier.OnlyLowBitsChange | crates/momo-core/src/lsb.rs:437-460 | embedding keeps the length, changes a byte in its lowest bit only, and leaves every fourth of four samples and all samples past the carrier |
| LsbCarrier.ExtractionSeesLowBits | crates/momo-core/src/lsb.rs:447-471 | buffers that agree in the low bits of their colour samples extract alike |
| LsbCarrier.WriteBits | crates/momo-core/src/lsb.rs:452-460 | the loop writes the bits of the carrier, most significant first, into the colour samples in place |
| LsbCarrier.ReadBytes | crates/momo-core/src/lsb.rs:462-471 | the loop collects eight low bits for each byte |
| LsbCarrier.ReadsExactly | crates/momo-core/src/lsb.rs:462-471 | a byte is the low bits of eight colour samples, worth 128, 64 and so on down to 1 |
| LsbCarrier.WrittenReads | crates/momo-core/src/lsb.rs:447-471 | reading any prefix of what was written gives that prefix |
| LsbCarrier.NthRanks | crates/momo-core/src/lsb.rs:447-450 | the n-th colour sample is a colour sample with n before it |
| LsbCarrier.RankNths | crates/momo-core/src/lsb.rs:447-450 | a colour sample is the one numbered by the colour samples before it, so numbering and counting are inverse |
| LsbCarrier.FitsInside | crates/momo-core/src/lsb.rs:111-117 | what fits the capacity has all its samples inside the buffer |
| LsbCarrier.BigEndianReads | crates/momo-core/src/lsb.rs:141-200 | header numbers read back |
| MigrationMerge.MergeMaps | crates/momo-core/src/space_lifecycle.rs:803-818 | the recursive merge in place gives the union or refuses |
| MigrationMerge.MergesExactlyWhenCompatible | crates/momo-core/src/space_lifecycle.rs:803-818 | two trees merge exactly when no path holds different values in them |
| MigrationMerge.MergeIsUnion | crates/momo-core/src/space_lifecycle.rs:803-818 | a merged tree holds a value at a path exactly when one of the two does, and has no other paths |
| MigrationMerge.RebindActivity | crates/momo-core/src/space_lifecycle.rs:820-835 | rebinding succeeds exactly when no two keys become one, at any depth |
| MigrationMerge.RebindKeeps | crates/momo-core/src/space_lifecycle.rs:820-835 | every value is kept at its renamed path |
| MigrationMerge.RebindInvents | crates/momo-core/src/space_lifecycle.rs:820-835 | everything in the result comes from a path renamed to it |
| MigrationMerge.RebindSeparates | crates/momo-core/src/space_lifecycle.rs:820-835 | two entries never become one |
| MigrationMerge.RebindExactly | crates/momo-core/src/space_lifecycle.rs:820-835 | a value stays under its keys, except that each key that starts with the source's prefix starts with the target's |
| MigrationMerge.MoveRecords | crates/momo-core/src/space_lifecycle.rs:699-733 | records move exactly when no id is on both sides and each policy names the source; both sides' records are then there |
| MigrationMerge.MoveScenes | crates/momo-core/src/space_lifecycle.rs:734-742 | scenes move exactly when no identity collides after rehoming, none is lost and none invented |
| MigrationMerge.MergeLedgers | crates/momo-core/src/space_lifecycle.rs:690-747 | two ledgers merge exactly when their records and scenes move |
| MigrationMerge.LedgersStayChained | crates/momo-core/src/space_lifecycle.rs:713-732 | every moved history is its former self plus one revision linked to its former last, and well-chained ledgers stay so |
| MigrationMerge.RecordsMoveExactly | crates/momo-core/src/space_lifecycle.rs:699-733 | records move exactly when they are new to the target and their policies name the source; a moved one keeps its revisions and the rest, its policy names the target one revision on, and one more revision of the same content tells of the operation and both Spaces |
| MigrationMerge.ScenesMoveExactly | crates/momo-core/src/space_lifecycle.rs:734-742 | a moved scene keeps documents, character and continuity under the new personal Space, where the target had none |
| MigrationMerge.MergeSnapshots | crates/momo-core/src/space_lifecycle.rs:676-801 | a merge succeeds only when every file merges by its kind and the result is importable, and is refused only when some file does not merge or the merged snapshot is not importable; it combines every source file with the target's by its kind |
| MigrationMerge.OneMerge | crates/momo-core/src/space_lifecycle.rs:676-801 | two snapshots have one merge: whatever order the files are taken in, the result is the same |
| MigrationMerge.MergeKeepsFiles | crates/momo-core/src/space_lifecycle.rs:676-801 | the merged snapshot has every path of both sides and no other, keeps the target's unmergeable files and the source's own, and appends the log |
| MigrationMerge.ConflictsExactly | crates/momo-core/src/space_lifecycle.rs:748-801 | two ordinary files of one path merge exactly when they are equal, current documents of one body and metadata, or indexes that clash nowhere; anything else stops the migration |
| MigrationMerge.MergeKeepsIndexes | crates/momo-core/src/space_lifecycle.rs:770-780 | a merged index other than the retrieval history, read as YAML, has an entry exactly when one of the two had it |
| MigrationMerge.MergeKeepsActivity | crates/momo-core/src/space_lifecycle.rs:748-780 | the merged retrieval history has an entry exactly when the target had it or the source had it under the key that is renamed to it |
| MigrationMerge.AgingSurvivesExactly | crates/momo-core/src/space_lifecycle.rs:770-780 | after a merge of Spaces whose ledgers aging wrote, the target's lifecycle ledger is readable as JSON exactly when one of them had none or both had the same text |
| MigrationMerge.TwoLedgersEndAging | crates/momo-core/src/space_lifecycle.rs:770-780 | a concrete case: one turn each in two conversations merge into a ledger that has both when read as YAML and that aging cannot read |
| MigrationMerge.MergeKeepsLedgers | crates/momo-core/src/space_lifecycle.rs:690-747 | a merged ledger is the disjoint union of both, moved histories extended |
| SseDecoder.SseDecoder.PushBytes | crates/momo-core/src/gateway.rs:754-777 | a push drains the buffer and the chunk as one text, keeps what no delimiter ends, and fails on an oversized or undecodable event |
| SseDecoder.ChunksAgreeWithWhole | crates/momo-core/src/gateway.rs:743-791 | for a stream that meets the condition, any division that decodes gives the events and the leftover of one push of the whole stream |
| SseDecoder.WholeAgreesWithChunks | crates/momo-core/src/gateway.rs:743-791 | when one push of the whole decodes and its events are shorter than the limit by the delimiter less one, every division decodes alike |
| SseDecoder.IndependentExactlyWhenOrderly | crates/momo-core/src/gateway.rs:743-791 | with a decoder that tells frames apart, a stream that one push accepts, with events that short, gives the same frames and leftover in every division exactly when no blank line in carriage returns is followed by one in line feeds |
| SseDecoder.WithinTheLimit | crates/momo-core/src/gateway.rs:743-791 | the same exact condition for every stream of at most one event's limit, which is always accepted |
| SseDecoder.VerbatimTells | crates/momo-core/src/gateway.rs:754-777 | a decoder that shows every byte tells frames apart, so the assumption of the exact condition can be met |
| SseDecoder.DisorderIsSeen | crates/momo-core/src/gateway.rs:780-791 | a stream that breaks the condition is framed differently when it is cut behind its first blank line in carriage returns |
| SseDecoder.LeftoverIsBounded | crates/momo-core/src/gateway.rs:754-777 | what a successful push keeps back is within the limit and holds no complete event |
| SseDecoder.OneStyleIsOrderly | crates/momo-core/src/gateway.rs:780-791 | a stream with one newline style meets the condition |
| SseDecoder.BoundaryStays | crates/momo-core/src/gateway.rs:780-791 | in such a stream later bytes never move a boundary that was found |
| SseDecoder.MixedStylesDiffer | crates/momo-core/src/gateway.rs:780-791 | a concrete stream with both styles leaves different bytes over when it is divided, for every decoder that accepts its two frames |
| SseDecoder.TwoStylesMergeEvents | crates/momo-core/src/gateway.rs:754-791 | an event ended by carriage returns and one ended by line feeds are two events when they arrive apart and one event of two lines when they arrive together |
| SseDecoder.StreamReadsBack | crates/momo-core/src/gateway.rs:743-791 | a stream of events of one style reads back as those events in order, with nothing left over; only events without data are dropped |
| SseDecoder.DataReadsBack | crates/momo-core/src/gateway.rs:743-777 | the data of an event is its data lines, without field name and padding, one below the other; other lines are passed over |
| Ddm.BandsLagWithinMargin | crates/momo-memory/src/ddm.rs:446-486 | a band differs from the raw one only upwards, never beyond the previous band, and only within the margin of its threshold |
| Ddm.BandsExactly | crates/momo-memory/src/ddm.rs:446-486 | the band is dominant or at least salient from that threshold on, and for who was there already from the margin below it on |
| Ddm.BandsDoNotFlap | crates/momo-memory/src/ddm.rs:446-486 | over any run of activations in a window no wider than the margin the band moves one way and changes at most twice |
| Ddm.EvaluateWithPrevious | crates/momo-memory/src/ddm.rs:308-395 | the loop over sorted dispositions keeps group bests, truncates to the limit and sorts the suppressed ids as specified |
| Ddm.SelectionPartitions | crates/momo-memory/src/ddm.rs:320-381 | every disposition is selected or suppressed, none is both, and at most top_k are selected |
| Ddm.SelectionIsStrongest | crates/momo-memory/src/ddm.rs:320-381 | the selected are ordered, each the best of its exclusive group, and whoever is not selected is shadowed by its group or weaker than a full selection |
| Ddm.SelectionExactly | crates/momo-memory/src/ddm.rs:320-381 | the selected come by falling activation, equal ones by id, the suppressed ids in order, and one is left out only behind a better one of its group or behind a full selection of better ones |
| Ddm.NoSharedGroup | crates/momo-memory/src/ddm.rs:340-381 | no two selected dispositions share an exclusive group |
| Ddm.SelectionIgnoresOrder | crates/momo-memory/src/ddm.rs:320-381 | the order of the dispositions in the profile does not matter |

## Left out

Assumptions about the world:

- Files are texts under paths; symbolic links, special files, directories, text that is not UTF-8, temporary files and synchronisation to disk are not modelled.
- SQL statements and transactions are atomic updates of their tables whose replies can be lost; after the process dies every later call of that incarnation fails.
- A change made to the files from outside is atomic with respect to one publication.
- Threads, channels and reservations are steps and locks; the bounded channel's blocking and an initializer that dies before it announces are not modelled.
- JSON, YAML and TOML formats, SHA-256, CRC-32, zstd, PNG, WebP, NFKC and UTF-8 decoding are parameters with the round-trip facts they need; a content fingerprint stands for the content itself.
- Floating point is arithmetic over reals; the retrieval shares 0.70 and 0.30 are exact tenths, and relevance scores and activations are given.

Parts of the components:

- PlanRecovery.Step: one Space at a time, lifecycle events only; maintenance batches and review commits follow the same order and are left out, and applying a plan is one journaled command of the worker, so it happens wholly or not at all.
- PlanRecovery.AgesOnce: other writers never touch the activity ledger.
- PlanRecovery.ExactlyOnceAging: writers that replace the ledger, import and migration, are not steps; what a migration does to it is MigrationMerge.AgingSurvivesExactly.
- AgingPlans.AgesBy: of the files of an aged memory the ledger's turn counters alone are read back; how documents and their clocks are written is not modelled.
- RecoveringCore.Core.ProcessMemoryLifecycle: the accumulated report is left out.
- SpaceRemoval.FinishSql: message state, portable metadata and tombstone tables, which follow the moved rows.
- SpaceTransitions.Admitted: inventory, revision and response checks are one yes or no, given as an absent plan; reads that fail only return an error; appointing default assistants while a removal is open is left out. A migration into a removed Space is taken as refused, also where the code would admit it: when that removal was stored without a reply and finished by asking again, until the next restart.
- SpaceTransitions.Permitted: new rows of an open target are let in, though the triggers refuse most of them.
- WorkerRegistry.Step: joining a worker's thread when its last handle goes.
- ActivityAging.Prepared: permissions, query hits, references and ownership are given; index, audit and tombstone files are derived from what is modelled.
- ContextBudget.PrepareSections: unbounded numbers instead of saturating machine words; what the gateway charges for a message is a parameter; texts are sequences of characters.
- NsgPatch.PreparePatch: the provenance trace and the patch file's own format; file and segment naming is a parameter that must not confuse parked candidates with nodes.
- NsgPatch.DeferralMatchesAuthorization: the patch of one node's file; the files of a patch that names several nodes are parked apart from each other. The converse, and the step by step form, is NsgPatch.DeferralAgreesExactly.
- NsgRetrieval.Retrieve: the text of the results and reading the node files; prices are a parameter.
- LsbCarrier.Extracted: the image containers around the sample buffer.
- MigrationMerge.MergeSnapshots: the staging workspace that validates a merged snapshot is one predicate.
- MigrationMerge.AgingSurvivesExactly: readable means parsed as JSON; the fields that aging then expects are not modelled.
- SseDecoder.SseDecoder.PushBytes: folding tool-call deltas into calls, and the network client.
- Ddm.EvaluateWithPrevious: the logistic activation, rules, cues and the audit's fingerprints.

Components that would only add easy members: request validation, runtime settings, prompt registries, character cards, portable archives, embeddings transport, vision and capability discovery, and the benchmarks.
