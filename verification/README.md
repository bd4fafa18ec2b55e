# Verified model of the Stalwart migrator

This project models the parts of the Stalwart migrator whose failure would lose
mail, lose a binary or mislead an operator, and proves what they promise. It is
checked with `dafny verify dfyconfig.toml`. Five groups of modules:

**The checkpointed migration.** `AtomicFile` is the temp-sync-rename idiom with a
fault at any system call. `Checkpoint` holds the run's records and the methods that
update them in place; `CheckpointStore` has `Create`, `Load`, `Save` and `RunStep` as
methods over the directory, proved to be runs of `Engine`, a transition system of
one run id across any number of processes, failed saves, recorded artifacts and kills.
`History` tells what `state.json` holds from the events of a run alone. `Pipeline` puts a
fixed list of steps on that engine, with an abstract world, tolerant steps, steps a
process may pass over, saves and gates; `Driver` is the loop of one process, proved
to be a run of the pipeline; `Reachability` constructs runs. `Resume` proves that
interrupted and resumed runs end like uninterrupted ones. `HostFiles` holds the three
steps that move the operator's own files, `Migration` proves that nothing is lost over
whole runs, `RunPlan` is the real list of 42 items of `run` for each kind of deployment,
`RunSteps` tells its order and its finished runs by the steps' names,
`ResumedRun` applies resume equivalence to it, `CleanRun` constructs finishing runs, and
`MigratedFiles` tells when a run can finish and what it has then made of the files.

**The unit file.** `Text` has the Go string functions, `UnitFile` the rewriter as
loops, `UnitProperties` its frame, refusal, argument and idempotence theorems, and
`UnitText` what it does to lines written out from their parts.

**Tenants.** `ApplyPlan` reads a plan, `Reconcile` repairs it in place,
`ReconcileProperties` proves the repair least, exact and framed, and `PlanMeaning` says
the same of the JSON itself; `TenantLayout` is the preflight predictor, `LayoutMeaning`
its forecast in the layout's own terms, and `TenantAgreement` proves predictor and repair
one rule; `TwoSpellings` is a plan that is reported as a conflict though its tenants fit,
and `AliasDomain` one whose second domain is adopted through an alias.

**Honest accounting.** `ContentIntegrity`, `ContentProperties` and `ContentMeaning` (the
comparison after the migration), `PlanBuild`, `ListenerGenerator`, `ListenerOrder` and
`CoverageMeaning` (plan coverage), `Roles` (admin roles), `Tasks` (waiting for quota
tasks), `OutputBuffer` (bounded capture).

**Shared.** `Prelude`, and `Order` for Go's string order and sorted map keys. Iterating
a Go map is modelled by taking elements of a set in an arbitrary order, so whatever is
proved holds for every iteration order.

## Where the code does less than it promises

Each of these is a theorem with the exact condition, or a witness beside a theorem
for the other cases.

- A container's three checks after `container-inspect` are passed over by a process
  whose `docker inspect` fails (`internal/preflight/container.go:338-341`), and what is
  passed over is not in that process's report. So a refusal by a preflight check is
  final for the run exactly when the check is not one of those three
  (`RunPlan.RefusalIsFinalExactly`); `RunPlan.PassedOverRefusalDoesNotBlock` is the run
  of the real list that gets past each of them.
- The quota step can be left "running", not only done or failed, behind later steps. It
  is running in `state.json` exactly when the last event on it to reach the disk is a
  begin (`Pipeline.TolerantStatus`, `RunPlan.RecordedInOrder`), which comes about in four
  ways (`History.WhyRunning`): its begin was saved only by a later save; its body
  was killed; its reply never reached the disk; or its body executes now.
  `RunPlan.QuotaMayStayRunning` has two such runs of every list with a step after the
  quota step, in one of which every save landed.
- An artifact recorded in memory is lost when no save lands before its process ends:
  the next process loads it exactly when one did (`History.ArtifactSurvives`), so one
  recorded by a body that is killed is gone (`History.KilledBodyForgets`). The comment
  at `internal/cutover/cutover.go:316-317` says the record survives.
- An `ExecStart` line that ends in a bare `--config` or `-c`, with no other config
  argument, gets the flag twice, and a second rewrite changes it again:
  `UnitProperties.ExecStartArguments` and `UnitProperties.Idempotent` hold exactly for
  the lines that do not (`UnitProperties.DanglingExample`).
- A finished run has kept the old binary's bytes exactly when, at its start, nothing
  different was at the preserved path, or the new binary is the same
  (`MigratedFiles.OldBinarySurvivesExactly`; `Migration.OldBytesSurviveExactly` is about
  the two steps alone).
- Reconciliation compares tenant references as written, so one tenant spelled two ways
  is reported as a conflict: an assignment exists and spellings are uniform, if and only
  if no conflict is reported (`ReconcileProperties.ReconcileExact`).
  `TwoSpellings.TwoSpellingsConflict` is such a plan.
- Without distinct local parts the content comparison's verdict may depend on map order:
  exactly when nothing is missing, every account has a migrated account that may be read
  for it and agrees, and some account has one that may be read for it and does not
  (`ContentProperties.OrderMattersExactly`, with `SomeOutcomeOK` and `EveryOutcomeOK` for
  the two halves). `ContentProperties.AmbiguousLocalPart` is such a migration.
- Plan coverage adds up exactly when no generator claims a key outside the unmigrated
  ones (`PlanBuild.CoverageConserves`; `PlanBuild.OverclaimBreaksTheSum` is a claim that
  breaks the sum).
- On keys without its prefix, which `Build` never hands it, `ListenerGenerator` can read
  two keys as one setting, and the last one read counts. What is generated is the same in
  every order of reading exactly when every listener with an address has one protocol
  and, unless that is one v0.16 does not know, one TLS mode
  (`ListenerOrder.OrderIsIrrelevantExactly`). That is so of prefixed keys
  (`ListenerOrder.GenerateIsAFunction`), but not of the settings in
  `ListenerOrder.TwoProtocols`.
- "Done" means that a step completed: preflight records a failing check as done with the
  verdict "fail", and nothing here reads "done" as "passed".

## Model

| member | source | states |
|---|---|---|
| `AtomicFile.Dir.WriteAtomic` | internal/checkpoint/store.go:79-112 | Whatever call fails and wherever the process is killed, the target holds its old content or all of the new; an error or a kill before the rename means the old. |
| `AtomicFile.Dir.RenameTemp` | internal/checkpoint/store.go:107-110 | A rename of content not written in full and synced leaves a torn file, which the idiom has to rule out. |
| `Checkpoint.IndexOf` | internal/checkpoint/step.go:11-18 | The first record of a (phase, name) pair, and -1 exactly when there is none. |
| `Checkpoint.PutFrame` | internal/checkpoint/step.go:47-91 | Updating a step changes what is known of that step only, keeps one record per step, and never moves or forgets a record. |
| `Checkpoint.PutError` | internal/checkpoint/step.go:47-91 | The same of the error a record holds. |
| `Checkpoint.RunState.StepIndex` | internal/checkpoint/step.go:11-18 | The loop finds the first record of the step. |
| `Checkpoint.RunState.GetStatus` | internal/checkpoint/step.go:22-27 | The recorded status, pending when the step has no record. |
| `Checkpoint.RunState.GetOutcome` | internal/checkpoint/step.go:38-43 | The recorded outcome, empty when the step has no record. |
| `Checkpoint.RunState.Begin` | internal/checkpoint/step.go:47-61 | The step is running with no outcome or error, whether its record is new or reset. |
| `Checkpoint.RunState.Complete` | internal/checkpoint/step.go:66-77 | The step is done with the outcome and no error; callable only when a record exists, the case where the source does not panic. |
| `Checkpoint.RunState.Fail` | internal/checkpoint/step.go:81-91 | The step is failed with the error, its outcome kept; callable only when a record exists. |
| `Checkpoint.RunState.RecordArtifact` | internal/checkpoint/types.go:122-127 | The named artifact is set and no other changes. |
| `CheckpointStore.Store.Create` | internal/checkpoint/store.go:39-57 | On success the run's file holds the fresh state; on failure nothing readable was left. |
| `CheckpointStore.Store.Load` | internal/checkpoint/store.go:60-70 | Loading succeeds exactly when the file is whole and can be read, and gives back what it holds. |
| `CheckpointStore.Store.Save` | internal/checkpoint/store.go:79-112 | The file becomes the whole in-memory state or stays as it was. |
| `CheckpointStore.Store.RecordArtifacts` | internal/checkpoint/types.go:122-127 | What a body does to the state in memory: its recordings, in order, and nothing else. |
| `CheckpointStore.RecordedLast` | internal/checkpoint/types.go:122-127 | After a body's recordings an artifact is what the last one of its name gave. |
| `CheckpointStore.NotRecorded` | internal/checkpoint/types.go:122-127 | And otherwise what it was. |
| `CheckpointStore.Store.Settle` | internal/checkpoint/store.go:161-173 | The second half of RunStep, for every reply and every fault of its save: which of the returns is taken, with the reply's own outcome or error; the reply is in memory always and on disk exactly when the save lands. |
| `CheckpointStore.Store.RunStep` | internal/checkpoint/store.go:153-174 | For every fault, one call takes (disk, memory) along engine events and no other way, and which return it takes, with which outcome or error, and the step's record then in memory and on disk are told for each fault and reply; the file stays whole. |
| `CheckpointStore.RunStepIsARun` | internal/checkpoint/store.go:153-174 | The events of one call lead from (disk, memory) to where the call leaves them. |
| `CheckpointStore.BegunIsRunning` | internal/checkpoint/step.go:47-61 | After Begin the step has a record and it is running, so Complete and Fail cannot panic. |
| `Engine.StepKeepsInv` | internal/checkpoint/store.go:146-174 | Every begin, save, failed save, recording, return, kill and reload keeps records unique, memory at least as done as disk, and "running" on disk while a body executes. |
| `Engine.RunKeepsInv` | internal/checkpoint/store.go:146-174 | The same over any sequence of events, and what was done on disk stays done with its outcome. |
| `Engine.ReachableInv` | internal/checkpoint/store.go:146-174 | The invariant holds in every reachable state of a run id. |
| `Engine.Accounting` | internal/checkpoint/store.go:153-174 | Executions of a body are conserved: each ended in a failure, a kill, a lost result or the one kept result, or is under way. |
| `Engine.DoneIsAbsorbing` | internal/checkpoint/store.go:153-157 | Once done is on disk, through any further crashes and resumes the outcome never changes and the body never runs again. |
| `Engine.ExecutionBound` | internal/checkpoint/store.go:153-174 | A body executes at most once more than it failed, was killed, or lost its result to a failed final save. |
| `History.SourcesAreLast` | internal/checkpoint/store.go:79-112 | Over any run, what the disk holds comes from the last event on it that was followed by a landed save of its own process, and memory from the last it made or loaded. |
| `History.StatusOnDisk` | internal/checkpoint/store.go:153-174 | A step is in state.json exactly when an event on it reached the disk, with the status and the outcome or error the last such event gave. |
| `History.RunningExactly` | internal/checkpoint/store.go:153-174 | A recorded step is running, done or failed, and running exactly when the last event on it to reach the disk is a begin. |
| `History.WhyRunning` | internal/checkpoint/store.go:153-174 | A step shown as running had its begin saved only later, or its body was killed, or its reply never reached the disk, or its body executes now. |
| `History.ArtifactsOnDisk` | internal/checkpoint/types.go:122-127 | An artifact is in state.json exactly when a recording of it reached the disk, and it is what the last such recording gave. |
| `History.ArtifactSurvives` | internal/checkpoint/types.go:122-127 | The process after the one that recorded an artifact, last under its name and not on disk before, loads it if and only if some save landed between the recording and the end of that process. |
| `History.KilledBodyForgets` | internal/cutover/cutover.go:316-318 | An artifact recorded by a body that is then killed is not what the next process loads. |
| `Pipeline.PutKeepsOrdered` | internal/checkpoint/step.go:47-91 | Updating the record of the step a process stands at records nothing out of order and changes no earlier gate. |
| `Pipeline.NextKeepsInv` | cmd/stalwart-migrate/run.go:172-525 | Every move of a process through a fixed list keeps the records ordered and the process aware of every refusal it came by. |
| `Pipeline.RunKeepsInv` | cmd/stalwart-migrate/run.go:172-525 | The same over all runs with kills, failed saves and resumes. |
| `Pipeline.RunIsExec` | internal/checkpoint/store.go:153-174 | A run of the list is a run of the engine: nothing touches state.json but RunStep, saves and recordings. |
| `Pipeline.PipelinePrefix` | cmd/stalwart-migrate/run.go:172-525 | In every reachable state.json a recorded step has every earlier step done and no refusal before a gate behind it; a tolerant one is recorded, as the last event on it to reach the disk said. |
| `Pipeline.BlockedForever` | cmd/stalwart-migrate/run.go:183-185 | A refusal before a gate stays, and no step after the gate is ever recorded, however often the run is resumed. |
| `Pipeline.TolerantStatus` | internal/cutover/cutover.go:398-417 | Over every run, a tolerant step behind a recorded one is running, done or failed, and running exactly when the last event on it to reach the disk is a begin. |
| `Pipeline.RecordedIsListed` | cmd/stalwart-migrate/run.go:172-525 | No reachable state.json records anything but steps of the list. |
| `Pipeline.FinishedHasDone` | cmd/stalwart-migrate/run.go:172-525 | In the state.json of a run that went past every item every step that must succeed is done. |
| `Driver.StepIsARun` | cmd/stalwart-migrate/run.go:275-340 | One RunStep call and the driver's reaction to it are a run of the pipeline, for every fault and reply. |
| `Driver.LeaveStep` | cmd/stalwart-migrate/run.go:275-340 | From inside a body, the process's death or the recording of its reply leads where the driver goes next. |
| `Driver.EndStep` | cmd/stalwart-migrate/run.go:275-340 | The same after the body recorded its artifacts. |
| `Driver.GoesOnWhen` | internal/cutover/cutover.go:234-246 | The process goes on exactly when RunStep returned no error, or the step is tolerant and the process is alive. |
| `Driver.RefusedAfter` | internal/preflight/checks.go:87-97 | The verdict a process reads off RunStep is the one then on record, for a step skipped as done as much as for one just run. |
| `Driver.DriveStep` | internal/cutover/cutover.go:234-246 | One step of the list: past it or ended, with memory, disk and report as the pipeline says. |
| `Driver.DriveItem` | cmd/stalwart-migrate/run.go:172-525 | One item of the list, including saves between steps, gates and checks passed over. |
| `Driver.Drive` | cmd/stalwart-migrate/run.go:172-525 | A process that works through its list, recording artifacts between steps and with the facts for every check it may pass over or for none, whatever happens to it, has made a run of the pipeline; finishing means every item was gone past. |
| `Reachability.Walk` | cmd/stalwart-migrate/run.go:172-525 | From any item a process, with the facts for what it may pass over or without them, can come to any later one with every step it takes on the way done, unless one of those was refused, and leaves all others as they were. |
| `Reachability.UnsavedStart` | internal/cutover/cutover.go:398-417 | On every list with a tolerant step: a run whose state.json ends with it running and a later step done, its start not saved. |
| `Reachability.KilledOnResume` | internal/cutover/cutover.go:398-417 | And one in which every save landed: it failed, later steps were done, and a later process was killed in its body. |
| `Reachability.RefusalPassedOver` | internal/preflight/container.go:329-341 | On every list with a check that can be passed over and a gate: a run that gets past the check's refusal, in a process that passes over every such check. |
| `Resume.FrontierMoves` | internal/checkpoint/store.go:146-174 | When the first undone step gets done, its canonical effect is what the next step finds. |
| `Resume.NextKeepsFits` | internal/checkpoint/store.go:146-174 | After every move the world is one from which the first undone step still has its uninterrupted effect. |
| `Resume.FinishedIsCanonical` | internal/checkpoint/store.go:146-174 | A run that finishes leaves the uninterrupted run's world, with every step that must succeed done under its outcome. |
| `Resume.ResumeEquivalence` | internal/checkpoint/store.go:146-174 | With deterministic, re-runnable steps any two finishing runs from one world, interrupted or not, end in one world with the same recorded outcomes. |
| `HostFiles.PreserveBinary` | internal/backup/binary.go:19-35 | For every fault the files are as before or as the completed move leaves them, an error leaves them alone, and success means the copy is at the preserved path. |
| `HostFiles.InstallBinary` | internal/cutover/cutover.go:493-510 | The binary path holds its old content or the staged content; success means the staged content. |
| `HostFiles.PreserveUnit` | internal/cutover/cutover.go:517-536 | An existing preserved copy is never overwritten; otherwise the copy is the live unit or nothing. |
| `HostFiles.UpdateServiceDefinition` | internal/cutover/cutover.go:307-337 | The unit is rewritten from the preserved copy; an interruption leaves the files at one of three stages. |
| `HostFiles.StepsAreRetrySafe` | internal/backup/binary.go:11-18 | Run again from whatever a failed, killed or completed attempt left, each of the three steps has its first effect. |
| `Migration.BodyKeepsSafe` | internal/cutover/cutover.go:280-337 | No single body, successful or not, loses the binary or the unit, if installing follows preserving. |
| `Migration.NothingIsLost` | internal/cutover/cutover.go:493-565 | Over every run: the old binary's bytes are at one of its two paths, a preserved unit is the original, the live unit is the original or its rewrite, and done records tell the truth about both. |
| `Migration.FinishedKeepsPromises` | internal/cutover/cutover.go:280-337 | A finished run has both originals preserved and the live unit rewritten. |
| `Migration.OldBytesSurviveExactly` | internal/backup/binary.go:19-35 | Preserve then install keeps the old bytes if and only if nothing different was at the preserved path. |
| `RunPlan.RunIsWellFormed` | cmd/stalwart-migrate/run.go:172-525 | For every deployment the real step list has distinct steps, its gate before its tolerant step, and installs only after preserving. |
| `RunPlan.ItemsInOrder` | cmd/stalwart-migrate/run.go:172-525 | The steps of each configuration keep the order of the full list. |
| `RunPlan.RecordedInOrder` | cmd/stalwart-migrate/run.go:172-525 | In every reachable state.json of a run, a recorded step has every earlier one of its configuration done, but for the three container checks and the quota step, which is running exactly when the last event on it to reach the disk is a begin and else done or failed as its last reply there says. |
| `RunPlan.QuotaMayStayRunning` | internal/cutover/cutover.go:398-417 | For every configuration with a step after the quota step (the comparison), two runs of its list that leave the quota step running behind a done step, in one of which every save landed. |
| `RunPlan.FailedPreflightIsFinal` | cmd/stalwart-migrate/run.go:180-185 | A preflight refusal is permanent for its run id and no later step is ever recorded, but for those three checks. |
| `RunPlan.PassedOverRefusalDoesNotBlock` | internal/preflight/container.go:329-341 | For each container check after the inspection and each step after the gate, a run of the real list with the refusal on record and that step recorded after it. |
| `RunPlan.RefusalIsFinalExactly` | cmd/stalwart-migrate/run.go:180-185 | A preflight refusal is final in all runs of the list if and only if every process comes by its check. |
| `RunPlan.RunLosesNothing` | cmd/stalwart-migrate/run.go:293-321 | The file safety theorem for the real list of a binary deployment. |
| `RunPlan.FinishedRunIsMigrated` | cmd/stalwart-migrate/run.go:493-525 | However often it was interrupted, a finished binary run has the old binary and unit preserved and the unit rewritten. |
| `RunSteps.FirstSoftware` | internal/preflight/checks.go:106-253 | The list of a run begins with the checks on the software, by name and by deployment. |
| `RunSteps.ThenTheContainer` | internal/preflight/container.go:329-341 | Then come the checks on the container. |
| `RunSteps.ThenTheStore` | internal/preflight/checks.go:254-455 | Then those on the store and the accounts, a save and the gate. |
| `RunSteps.ThenThePreparation` | cmd/stalwart-migrate/run.go:220-485 | Then staging, the dump, preserving, the stop, the conversion and the recovery cycle. |
| `RunSteps.ThenTheContainerCutover` | internal/cutover/container.go:79-170 | Then the steps that replace a container. |
| `RunSteps.OrTheBinaryCutover` | internal/cutover/cutover.go:258-366 | Or those that replace a binary, by name. |
| `RunSteps.AndLast` | internal/cutover/cutover.go:366-417 | And last health, quotas and the comparison. |
| `RunSteps.NothingBeforeTheChecks` | cmd/stalwart-migrate/run.go:172-190 | In every reachable state.json with a step after the gate, every check the deployment goes through is done with another verdict than "fail". |
| `RunSteps.StopsPrepared` | cmd/stalwart-migrate/run.go:220-345 | With stop-service recorded, preserve-binary is done, and where the deployment has them settings-dump and the staging step. |
| `RunSteps.ConvertsStopped` | cmd/stalwart-migrate/run.go:330-445 | convert-settings is recorded only across the boundary with stop-service and settings-dump done, preserve-plan only with convert-settings done. |
| `RunSteps.MigratesStopped` | cmd/stalwart-migrate/run.go:330-485 | With recovery-cycle recorded, stop-service, convert-settings and preserve-plan are done. |
| `RunSteps.InstallsPreserved` | internal/cutover/cutover.go:258-287 | With install-binary recorded, preserve-binary, verify-staged-binary and stop-service are done and, across the boundary, recovery-cycle. |
| `RunSteps.RetiresPreserved` | internal/cutover/container.go:79-157 | With retire-old-container recorded, the definition is preserved and found recreatable, the service stopped and, across the boundary, the store migrated. |
| `RunSteps.CreatesRetired` | internal/cutover/container.go:79-170 | The container steps follow one another, in container deployments only. |
| `RunSteps.ReplacesInOrder` | internal/cutover/cutover.go:280-349 | install-config, update-service-definition and reload-service-definition follow one another after install-binary. |
| `RunSteps.StartsReplaced` | internal/cutover/cutover.go:280-366 | With start-service recorded, binary, config and service definition are replaced and the definition is reloaded. |
| `RunSteps.ChecksStarted` | internal/cutover/cutover.go:349-417 | wait-healthy is recorded only with start-service done (wait-running for a container), the quota step and the comparison only with wait-healthy done. |
| `RunSteps.FinishedPreparation` | cmd/stalwart-migrate/run.go:220-485 | A finished run has each of staging, dump, preserving, stop, conversion and migration done exactly where its deployment has it. |
| `RunSteps.FinishedContainer` | internal/cutover/container.go:79-170 | And the container steps exactly for a container. |
| `RunSteps.FinishedBinary` | internal/cutover/cutover.go:258-366 | And the binary's exactly otherwise. |
| `RunSteps.FinishedChecks` | internal/cutover/cutover.go:366-417 | And wait-healthy always, the comparison exactly with a snapshot. |
| `ResumedRun.FileRunIsResumable` | internal/backup/binary.go:11-18 | The real list with its four file steps (staging, preserving, installing, the unit) meets the premises of resume equivalence: nothing before the quota step is tolerant, and each file step can be repeated. |
| `ResumedRun.InterruptedRunEndsTheSame` | cmd/stalwart-migrate/run.go:172-525 | However a binary run is interrupted, once finished its files and recorded outcomes are those of any other finished run from the same files. |
| `CleanRun.ComesTo` | internal/checkpoint/store.go:153-174 | As far as every step can have its effect and none before a gate is refused, one process, every save landing, comes there with the world the effects make. |
| `CleanRun.FinishesWhen` | internal/checkpoint/store.go:153-174 | So a run finishes where every effect is defined. |
| `MigratedFiles.FinishedRunIs` | cmd/stalwart-migrate/run.go:172-525 | However often it was interrupted, a binary run that finishes has made of the files exactly what staging, preserving, installing and rewriting make of them one after another. |
| `MigratedFiles.ARunFinishes` | cmd/stalwart-migrate/run.go:172-525 | Where those four can be done in turn and no check before the gate says "fail", some run of the real list finishes. |
| `MigratedFiles.FinishedChecksPass` | cmd/stalwart-migrate/run.go:180-185 | A run that finished has no check before the gate that says "fail". |
| `MigratedFiles.CanFinishExactly` | cmd/stalwart-migrate/run.go:172-525 | A run can finish from given files if and only if both hold. |
| `MigratedFiles.Installed` | internal/cutover/cutover.go:280-337 | The four steps can be done if and only if the files at the start have what each needs; then the new binary is at its path, and at the preserved one what was there or else the old binary. |
| `MigratedFiles.OldBinarySurvivesExactly` | internal/backup/binary.go:19-35 | A finished run has kept the old binary's bytes if and only if the preserved path was free or held them at its start, or the new binary is the same. |
| `MigratedFiles.FileProgramRespects` | internal/stage/stage.go:104-160 | With the staged file apart from the operator's own, every run of these file steps is one of those in which nothing is lost. |
| `MigratedFiles.SomeRunMigrates` | cmd/stalwart-migrate/run.go:172-525 | From the original files, with what the steps need, some run finishes with both originals preserved, the new binary installed and the unit rewritten. |
| `Text.FieldsOfJoin` | internal/cutover/unit.go:92 | Words joined by single spaces split back into the same words. |
| `Text.LinesOfJoin` | internal/cutover/unit.go:38 | Lines joined by newlines split back into the same lines. |
| `Text.JoinOfLines` | internal/cutover/unit.go:73 | Splitting a text into lines and joining it again is the identity. |
| `UnitFile.RewriteExecStart` | internal/cutover/unit.go:79-121 | The loop's line is the specified one, refused exactly when the line names no executable. |
| `UnitFile.SetConfig` | internal/cutover/unit.go:98-119 | Overwriting fields while scanning retargets every config argument, or appends one when there is none. |
| `UnitFile.StripPrefixes` | internal/cutover/unit.go:86-90 | All systemd prefix characters and nothing else are split off. |
| `UnitFile.CountNames` | internal/cutover/unit.go:133-139 | No assignment counts for both recovery variables. |
| `UnitFile.ClassifyEnvironmentLine` | internal/cutover/unit.go:125-141 | "Mentions" is some, and "only" is all, of at least one assignment setting a recovery variable. |
| `UnitFile.RewriteLine` | internal/cutover/unit.go:42-68 | A line is refused, dropped, rewritten or kept, in the source's order of tests. |
| `UnitFile.RewriteUnit` | internal/cutover/unit.go:37-74 | One pass over the lines gives the specified unit, or the refusal of the first line that has one. |
| `UnitProperties.RefusesExactly` | internal/cutover/unit.go:37-74 | The rewrite fails exactly on no ExecStart, an empty ExecStart, or a mixed Environment line. |
| `UnitProperties.RewriteFrame` | internal/cutover/unit.go:37-74 | The output lines are the kept input lines in order, byte for byte except ExecStart lines, and no output line mentions recovery. |
| `UnitProperties.RetargetEffect` | internal/cutover/unit.go:98-115 | Every config value becomes the new one, their number and every other argument stay, and doing it twice is doing it once. |
| `UnitProperties.ReadBack` | internal/cutover/unit.go:79-121 | A rewritten line reads back as the same indentation, the same prefix characters and the new arguments. |
| `UnitProperties.ArgsCarryConfig` | internal/cutover/unit.go:96-119 | Every config argument carries the new path, at least one does, and the others survive in order, if and only if the old arguments do not dangle. |
| `UnitProperties.ExecStartArguments` | internal/cutover/unit.go:79-121 | The same of whole lines, and the systemd prefix always survives. |
| `UnitProperties.DanglingExample` | internal/cutover/unit.go:110-118 | A line ending in a bare flag whose reader then takes "--config" for the config path. |
| `UnitProperties.ArgsSettle` | internal/cutover/unit.go:96-119 | Rewriting arguments twice is rewriting them once, if and only if they do not dangle. |
| `UnitProperties.LineSettles` | internal/cutover/unit.go:79-121 | The same of a line. |
| `UnitProperties.Idempotent` | internal/cutover/unit.go:37-74 | A rewritten unit is accepted again, and returned unchanged if and only if no ExecStart line of the original dangles. |
| `UnitText.RecoveryExactly` | internal/cutover/unit.go:133-139 | A word counts exactly when it is, behind any quotes, STALWART_RECOVERY_MODE= or STALWART_RECOVERY_ADMIN= and any value. |
| `UnitText.LineReads` | internal/cutover/unit.go:125-127 | An Environment line written out from indentation, head and words reads back as its words. |
| `UnitText.EnvironmentLineRewritten` | internal/cutover/unit.go:54-68 | Such a line is dropped exactly when it has words and all assign recovery variables, refused exactly when some but not all do, and else kept byte for byte. |
| `UnitText.RecoveryIsGone` | internal/cutover/unit.go:22-37 | No line of a rewritten unit assigns a recovery variable. |
| `UnitText.MixedIsRefused` | internal/cutover/unit.go:56-62 | A unit with a line that assigns one among others is refused. |
| `UnitText.OtherLineKept` | internal/cutover/unit.go:68-70 | A line that starts with none of ExecStart=, Environment= and Environment is kept as it is. |
| `UnitText.RefusalSays` | internal/cutover/unit.go:37-74 | The refusal is that of the first line that has one; without one a unit is refused exactly for having no ExecStart line. |
| `UnitText.StartRewritten` | internal/cutover/unit.go:79-121 | An ExecStart line written out from its parts keeps indentation and prefix and gets the new arguments. |
| `UnitText.EmptyStartRefused` | internal/cutover/unit.go:92-95 | One that names no executable is refused as such. |
| `UnitText.OnlyTheBinary` | internal/cutover/unit.go:96-97 | Without a config path the executable changes and no argument does. |
| `UnitText.ConfigAppended` | internal/cutover/unit.go:116-118 | Where no argument is a config argument, in any of the four spellings, one is appended. |
| `UnitText.ConfigReplaced` | internal/cutover/unit.go:107-109 | Where one is, in one word, it gets the new value and the others stay. |
| `UnitText.NextConfigReplaced` | internal/cutover/unit.go:110-113 | And so where flag and value are two words. |
| `ApplyPlan.SetTenantFrame` | internal/applyplan/tenants.go:349 | Writing one domain's tenant changes that body's tenant and reads of nothing else. |
| `ApplyPlan.SameShapeReads` | internal/applyplan/tenants.go:252-300 | Tenants, wants and domains are read the same off plans that differ in domain tenants only. |
| `ApplyPlan.DomainOpOf` | internal/applyplan/tenants.go:255-269 | The operation that last creates a domain is the one that counts. |
| `Reconcile.Plan.ReconcileDomainTenants` | internal/applyplan/tenants.go:252-356 | In place and for every map order: the plan becomes the specified repair, and the adoptions and conflicts are those of the specified domains in order, each with a true example. |
| `Reconcile.Decide` | internal/applyplan/tenants.go:305-353 | The verdict on one domain: keep, adopt, or report with what the report must say. |
| `Reconcile.Collect` | internal/applyplan/tenants.go:281-303 | Every tenant wanted for a domain is collected, with a principal that wants it. |
| `Reconcile.Index` | internal/applyplan/tenants.go:255-272 | The indexed domains and tenant names are those of the plan, the later operation winning. |
| `Reconcile.RepairedFrame` | internal/applyplan/tenants.go:305-353 | Repairing keeps the plan's shape, gives each adopter its tenant and leaves every other domain's tenant alone. |
| `ReconcileProperties.VerdictMeans` | internal/applyplan/tenants.go:305-353 | Each verdict, in terms of the assignments v0.16 accepts for that domain. |
| `ReconcileProperties.LeastRepair` | internal/applyplan/tenants.go:240-356 | Without a conflict the plan left behind is accepted, and every accepted assignment agrees with it wherever it assigns a tenant. |
| `ReconcileProperties.ReconcileExact` | internal/applyplan/tenants.go:240-356 | No conflict if and only if an accepted assignment keeping the declared owners exists and no tenant is spelled two ways for one domain. |
| `TwoSpellings.TwoSpellingsConflict` | internal/applyplan/tenants.go:317-333 | A plan whose accounts name one tenant in two spellings: an accepted assignment exists and a conflict is reported. |
| `ReconcileProperties.UniformIsOneSpelling` | internal/applyplan/tenants.go:202-208 | References all written "#" and a client-id are spelled one way. |
| `ReconcileProperties.RepairFrame` | internal/applyplan/tenants.go:281-356 | Only a missing tenant of a Domain body is ever written, and only with the tenant adopted. |
| `ReconcileProperties.SecondPass` | internal/applyplan/tenants.go:252-356 | A second pass adopts nothing, reports the same conflicts and changes nothing. |
| `ReconcileProperties.PlanFile.ReconcileFile` | internal/applyplan/tenants.go:141-171 | The file is replaced only with adoptions and no conflict; wherever the write fails or is killed it holds the old plan or the whole repaired one; each of the six ends is taken exactly when its cause is there, and success means the repaired plan. |
| `PlanMeaning.RefersExactly` | internal/applyplan/tenants.go:210-233 | A body refers to exactly the domains that its domainId, or the domainId of an object under its aliases, names with "#" or without. |
| `PlanMeaning.WantedExactly` | internal/applyplan/tenants.go:281-303 | A tenant is wanted for a domain exactly when an Account or MailingList with that memberTenantId refers to it. |
| `PlanMeaning.DomainExactly` | internal/applyplan/tenants.go:255-269 | A domain and its tenant are what the last Domain operation that creates it says. |
| `PlanMeaning.AcceptsExactly` | internal/applyplan/tenants.go:240-251 | Acceptance, said of the JSON: every tenant-scoped body is on domains of its own tenant, and declared tenants stay. |
| `PlanMeaning.ReconcileMeans` | internal/applyplan/tenants.go:240-356 | On a plan that creates a tenant, no conflict if and only if v0.16 accepts it under some tenants and no tenant is spelled two ways on one domain. |
| `PlanMeaning.RepairedMeans` | internal/applyplan/tenants.go:240-356 | Without a conflict the plan left behind gives every domain the tenant of all principals on it, with the same principals, domains and owners. |
| `PlanMeaning.RepairIsLeast` | internal/applyplan/tenants.go:245-247 | Every accepted assignment gives a domain the tenant the repair leaves it with. |
| `PlanMeaning.DecidedExactly` | internal/applyplan/tenants.go:305-353 | A domain is adopted exactly when it has no tenant and all principals on it write one; it conflicts exactly when they write two, or another than its own. |
| `PlanMeaning.NothingWithoutTenants` | internal/applyplan/tenants.go:270-272 | A plan that creates no tenant is left alone. |
| `PlanMeaning.AdoptionSays` | internal/applyplan/tenants.go:349-353 | An adoption names its domain and tenant as the plan does, and a principal that wants it. |
| `PlanMeaning.ConflictSays` | internal/applyplan/tenants.go:315-347 | A conflict names every tenant on the domain with a principal each, or owner, other tenant and a principal. |
| `PlanMeaning.PickedAscending` | internal/applyplan/tenants.go:305 | Adoptions and conflicts come in the order of the client-ids. |
| `AliasDomain.AliasIsAdopted` | internal/applyplan/tenants.go:210-233 | A plan whose account is on a second domain through an alias only: that domain is adopted and nothing is reported. |
| `TenantLayout.DomainsOf` | internal/stalwartapi/tenantlayout.go:127-148 | The domains a principal touches, once each, sorted. |
| `TenantLayout.Analyze` | internal/stalwartapi/tenantlayout.go:225-291 | The adoptions and problems are those of the forecast, in order, each problem with its tenants and true examples. |
| `TenantLayout.Foresee` | internal/stalwartapi/tenantlayout.go:253-289 | The forecast for one domain. |
| `LayoutMeaning.AnalyzeMeans` | internal/stalwartapi/tenantlayout.go:225-291 | A domain is an adoption exactly when one tenant's principals use it and it declares none, a problem exactly when two tenants' do or one other than it declares; each problem tells all of that. |
| `LayoutMeaning.ForeseenAscending` | internal/stalwartapi/tenantlayout.go:247-251 | And both come in the order of the domains' names. |
| `LayoutMeaning.ForecastExactly` | internal/stalwartapi/tenantlayout.go:253-289 | The forecast for one domain in those terms. |
| `LayoutMeaning.DomainsAre` | internal/stalwartapi/tenantlayout.go:127-148 | A principal's domains are those behind the last "@" of its name and emails, lower-case and without white space around them. |
| `LayoutMeaning.ForecastComesTrue` | internal/stalwartapi/tenantlayout.go:223-291 | What the layout makes an adoption or a problem is what the plan that represents it makes reconciliation adopt or report. |
| `TenantAgreement.WantedAgree` | internal/stalwartapi/tenantlayout.go:231-245 | The tenants wanted by name in the layout are those wanted by client-id in the plan that represents it. |
| `TenantAgreement.VerdictAgrees` | internal/stalwartapi/tenantlayout.go:253-289 | A domain's forecast is its verdict. |
| `TenantAgreement.PredictorAgrees` | internal/stalwartapi/tenantlayout.go:223-291 | On every layout and every plan representing it, Analyze's adoptions and problems are exactly the domains reconciliation adopts and reports in conflict. |
| `TenantAgreement.PreflightDecides` | internal/preflight/checks.go:409-455 | Preflight finds no problem if and only if reconciliation will report no conflict. |
| `ContentIntegrity.AccountPresent` | internal/validate/content_integrity.go:211-222 | True exactly when some migrated account has the local part, whatever the order of the map. |
| `ContentIntegrity.FindByLocalPart` | internal/validate/content_integrity.go:235-243 | Finds an account of that local part exactly when there is one. |
| `ContentIntegrity.SortMailboxes` | internal/validate/content_integrity.go:193-194 | A permutation of the mailboxes in name order. |
| `ContentIntegrity.CompareMailboxes` | internal/validate/content_integrity.go:188-203 | Every before-mailbox is counted, and reported exactly when its count differs from the last of its name. |
| `ContentIntegrity.CheckAccount` | internal/validate/content_integrity.go:170-204 | One more before-account is counted, and is missing, passed or compared with an account of its local part, its own name first. |
| `ContentIntegrity.Compare` | internal/validate/content_integrity.go:123-206 | The report on all before-accounts in order: the missing ones, the counts, the mismatches against the accounts read. |
| `ContentProperties.OKMeansReadAccountsAgree` | internal/validate/content_integrity.go:62-64 | OK exactly when every before-account is there and the account read for it has every before-count. |
| `ContentProperties.OKIsExact` | internal/validate/content_integrity.go:62-64 | With distinct migrated local parts and mailbox names, OK if and only if every account, and every count the source could report, survived. |
| `ContentProperties.EachAccountOnce` | internal/validate/content_integrity.go:170-186 | Each before-account is checked once and is missing, at most once, or read, never both. |
| `ContentProperties.SomeOutcomeOK` | internal/validate/content_integrity.go:170-204 | For some map order the verdict is OK if and only if nothing is missing and each account has an agreeing account that may be read for it. |
| `ContentProperties.EveryOutcomeOK` | internal/validate/content_integrity.go:170-204 | For every map order it is OK if and only if nothing is missing and all accounts that may be read agree. |
| `ContentProperties.OrderMattersExactly` | internal/validate/content_integrity.go:235-243 | The verdict depends on map order exactly in the gap between the two. |
| `ContentProperties.InconclusiveIsFewerVisible` | internal/validate/content_integrity.go:82-84 | With distinct local parts before, Inconclusive is exactly "fewer visible than checked". |
| `ContentProperties.DomainsOKIsExact` | internal/validate/content_integrity.go:68-70 | DomainsOK if and only if every domain seen before is listed after. |
| `ContentProperties.AmbiguousLocalPart` | internal/validate/content_integrity.go:235-243 | A migration for which the comparison may say OK and may say not. |
| `ContentMeaning.SameLocalExactly` | internal/validate/content_integrity.go:211-243 | Two names have one local part exactly when both are it or start with it and "@". |
| `ContentMeaning.OKMeans` | internal/validate/content_integrity.go:62-64 | OK exactly when every account survived, said of names and mailbox lists. |
| `ContentMeaning.MissingMeans` | internal/validate/content_integrity.go:172-186 | Which accounts are reported missing, said the same way. |
| `ContentMeaning.MismatchMeans` | internal/validate/content_integrity.go:193-203 | A mailbox is reported, with its counts before and after, exactly when the account read lacks it with the count before. |
| `ContentMeaning.InconclusiveMeans` | internal/validate/content_integrity.go:82-84 | Inconclusive exactly when an account is missing and fewer are visible than were checked. |
| `ContentMeaning.ReportedInTurn` | internal/validate/content_integrity.go:170-204 | Accounts are reported in turn, and their mailboxes add up. |
| `ContentMeaning.ReportedOfOne` | internal/validate/content_integrity.go:193-203 | Of an account that is read every mailbox is counted, and those reported come in name order. |
| `PlanBuild.GroupPrefix` | internal/applyplan/plan.go:195-201 | A prefix of the key with at most one dot, the whole key or up to its second dot. |
| `Order.LessExactly` | internal/applyplan/plan.go:183-188 | Go's string order: where two strings first differ, or as a prefix. |
| `PlanBuild.CountGroups` | internal/applyplan/plan.go:173-179 | The counts are the sizes of the groups, in whatever order the keys come. |
| `PlanBuild.Histogram` | internal/applyplan/plan.go:173-188 | The remaining groups, each once with its size, largest first and then by prefix. |
| `PlanBuild.Build` | internal/applyplan/plan.go:137-190 | The first generator error, or the joined operations, the sorted claims, the object counts and the histogram of what is left. |
| `PlanBuild.SumCountsKeys` | internal/applyplan/plan.go:173-182 | The groups are disjoint, so the counts add up to the keys they cover. |
| `PlanBuild.CoverageConserves` | internal/applyplan/plan.go:139-189 | Covered plus remaining equals the total if and only if every claim is an unmigrated key. |
| `PlanBuild.OverclaimBreaksTheSum` | internal/applyplan/plan.go:137-190 | One key, and a generator that claims another: covered and remaining add up to two of one. |
| `PlanBuild.HonestClaims` | internal/applyplan/plan.go:61-71 | Generators that claim only keys they were given claim only unmigrated settings under their prefixes. |
| `PlanBuild.HonestCoverage` | internal/applyplan/plan.go:137-190 | With such generators no key is lost or counted twice. |
| `PlanBuild.OnlyUnmigratedMatters` | internal/applyplan/plan.go:130-136 | Settings the official conversion handles cannot change the plan. |
| `CoverageMeaning.BuiltFromAll` | internal/applyplan/plan.go:142-165 | Each generator gets exactly the unmigrated settings under its prefix, and operations, warnings and claims are all they made, in turn. |
| `CoverageMeaning.FirstErrorEnds` | internal/applyplan/plan.go:152-155 | The error is that of the first generator that fails on what it is given. |
| `CoverageMeaning.ObjectsAddUp` | internal/applyplan/plan.go:159-161 | Object counts of operations add up. |
| `CoverageMeaning.RankedLargestFirst` | internal/applyplan/plan.go:183-188 | The remaining groups come largest first, equal ones by prefix. |
| `ListenerGenerator.Parse` | internal/applyplan/listener.go:66-70 | A key that names a listener and a field is exactly listener, dot, field, after the prefix if it has it. |
| `ListenerGenerator.ParseOfKey` | internal/applyplan/listener.go:66-70 | And every such key parses to them, with the prefix and without. |
| `ListenerGenerator.CollectDrafts` | internal/applyplan/listener.go:64-93 | In any order of any settings, each listener's record holds what the settings say of it, the last key read counting where two name one setting. |
| `ListenerGenerator.EmitOne` | internal/applyplan/listener.go:103-141 | An object, a reason for none, or an object with a caution. |
| `ListenerGenerator.Generate` | internal/applyplan/listener.go:48-144 | On any settings the operations, covered keys and warnings are a function of the settings and of which keys count, each emitted listener with all its keys covered. |
| `ListenerOrder.SameListeners` | internal/applyplan/listener.go:103-143 | If every listener with an address has one protocol and, if that can be used, one TLS mode, what is generated does not depend on which keys count. |
| `ListenerOrder.OrderIsIrrelevantExactly` | internal/applyplan/listener.go:48-144 | What is generated is the same whichever keys count if and only if that holds of every listener. |
| `ListenerOrder.EveryPickIsRead` | internal/applyplan/listener.go:65-93 | Every choice of the keys that count comes of some order of reading all the settings. |
| `ListenerOrder.GenerateIsAFunction` | internal/applyplan/listener.go:48-144 | So on keys under its prefix there is one result, whatever the map order. |
| `ListenerOrder.TwoProtocols` | internal/applyplan/listener.go:65-93 | Settings with two protocols for one listener, from which two results can come. |
| `ListenerGenerator.CoveredIsConsumed` | internal/applyplan/listener.go:140-143 | A key is covered exactly when an emitted listener is made from it. |
| `ListenerGenerator.BindsAreServed` | internal/applyplan/listener.go:73-79 | The addresses bound are exactly those of covered bind keys. |
| `ListenerGenerator.NoSilentSkip` | internal/applyplan/listener.go:103-118 | A named listener is emitted, or reported as skipped, and never both. |
| `ListenerGenerator.ListenerGeneratorIsHonest` | internal/applyplan/listener.go:48-144 | As a generator it claims only keys it was given. |
| `CoverageMeaning.ListenerMade` | internal/applyplan/listener.go:64-143 | From settings under server.listener., a listener that is bound and whose protocol is known or not said gets an object with its addresses, the protocol's new name and its TLS mode. |
| `CoverageMeaning.ListenerSkipped` | internal/applyplan/listener.go:103-118 | One that is not bound or whose protocol is not known gets none and is reported. |
| `CoverageMeaning.ListenersInTurn` | internal/applyplan/listener.go:95-143 | Objects and warnings come listener by listener. |
| `CoverageMeaning.TrueExactly` | internal/applyplan/listener.go:84-87 | TLS is implicit exactly when the value is "true" in any case, with white space around it or not. |
| `CoverageMeaning.CoveredExactly` | internal/applyplan/listener.go:73-93 | A key is covered exactly when its listener has an object and it is an address, the protocol or the TLS mode. |
| `Roles.RoleVariant` | internal/applyplan/roles.go:138-168 | Admin if any role is an admin role, else User if any is user, else none; the note names every unknown role and says when roles were collapsed. |
| `Roles.Consider` | internal/applyplan/roles.go:56-83 | One principal gives a change exactly when its admin role can be restored, and its warnings. |
| `Roles.AccountRoleOperations` | internal/applyplan/roles.go:33-103 | The operations are the restorable changes sorted by local part, the covered entries theirs, the warnings those of every individual in order. |
| `Roles.SharedIsAmbiguous` | internal/applyplan/roles.go:49-54 | Two individuals of one local part are counted as sharing it. |
| `Roles.RolesReachTheRightAccounts` | internal/applyplan/roles.go:33-103 | Applying the upserts makes an individual's account Admin exactly when it held an admin role and its local part is its own, and leaves its role otherwise. |
| `Roles.NoAccountIsCreated` | internal/applyplan/roles.go:86-102 | Each operation names exactly one individual. |
| `Roles.EveryAmbiguousAdminIsReported` | internal/applyplan/roles.go:69-82 | An ambiguity warning for exactly the admins whose role was not restored. |
| `Roles.NameExactly` | internal/applyplan/roles.go:105-118 | The account name is what stands before the first "@" of the name, or of the first email where there is no name, if anything does. |
| `Roles.AdminExactly` | internal/applyplan/roles.go:138-168 | A role is an admin's exactly when it is admin or administrator in any case, with white space around it or not. |
| `Roles.AdminsKeepTheirRole` | internal/applyplan/roles.go:33-103 | Said of the names: applying the plan makes an individual's account Admin exactly when it held an admin role and no other individual becomes an account of that name. |
| `Roles.NoteMeans` | internal/applyplan/roles.go:138-168 | What the note on an account's roles names, and when it says roles were collapsed. |
| `Roles.CoveredMeans` | internal/applyplan/roles.go:99-102 | The covered entries are those of the individuals that keep their admin role. |
| `Roles.OperationsMean` | internal/applyplan/roles.go:86-98 | The operations are one upsert, on the name alone, per individual that keeps its admin role. |
| `Roles.WarningsInTurn` | internal/applyplan/roles.go:56-83 | Warnings come in the order of the principals. |
| `Tasks.Apply` | internal/stalwartapi/task.go:202-212 | One answer keeps the asked ids the disjoint union of waiting, failed and left, each by its first settling answer; an id still waited on was never seen to fail. |
| `Tasks.WaitForTasks` | internal/stalwartapi/task.go:180-228 | Over any replies the partition holds, the queue is asked only while something is waited on, no error means nothing remains and failures are sorted and distinct, and each error return says what stopped it. |
| `Tasks.FateIsFirstSettled` | internal/stalwartapi/task.go:202-212 | The first answer that settles a task decides it. |
| `Tasks.WhatWaitingSays` | internal/stalwartapi/task.go:196-212 | In terms of the answers: waited on is queued in all, left is queued until not there, and failed is queued until shown failed for the reason reported. |
| `OutputBuffer.Buffer.Write` | internal/recovery/process.go:32-41 | The buffer stays the last 64 KiB of everything written, and truncated exactly when more was written. |
| `OutputBuffer.Buffer.String` | internal/recovery/process.go:43-50 | Everything written, or the notice and the last 64 KiB. |
| `OutputBuffer.KeepTail` | internal/recovery/process.go:35-39 | Forgetting early what would be forgotten later changes nothing. |

## Left out

- Two processes on one run id at once: nothing in the program prevents them; one process at a time is modelled.
- Power loss that reorders or drops a rename: kills of the process are modelled, an fsync of the directory is not.
- Clocks, run ids, `List`, and the topology, version and snapshot fields of the run state: they carry no protocol.
- Preflight facts that a process reads again on resume (the inspected container) beyond their effect on which checks run.
- The file effects of a container cutover, `install-config`, recovery mode and the backup of file trees: each is a body that leaves the operator's binary and unit alone.
- File ownership and modes, and hashing: equal hashes stand for equal content.
- The deferred restart and clean-up of a failed run, and any claim across resumes that the service is stopped.
- The check of the validation report at the end of `run`, after the last step.
- JSON, HTTP, JMAP, docker, systemctl and python: replies are arbitrary inputs; an unreadable plan or state file is one error.
- `migrate_v016.py` is not part of this model; its output enters `TenantAgreement` only as the relation between a layout and a plan that represents it.
- Case folding and trimming beyond the letters A to Z and Unicode white space; strings are sequences of characters, not bytes.
- The wording of messages: conflicts, problems and warnings keep their data.
- `TenantLayout.DomainsOf`: lower-cases the letters A to Z only.
- `ReconcileProperties.PlanFile.ReconcileFile`: the change of mode between close and rename is one with the close.
- `ResumedRun.InterruptedRunEndsTheSame`: the four file steps are the only ones that change the modelled world; what the steps say, and the release that is staged, are fixed.
- `MigratedFiles.FinishedRunIs`: as above; the archive that staging downloads and deletes is not one of the files.
- `Roles.RolesReachTheRightAccounts`: speaks of accounts named by individuals; whether a group of the same name also matches an upsert is the server's affair.
- `PlanBuild.Build`: the set of unmigrated keys is a set, so a key mapped to false, which no caller makes, is not modelled.
- `Tasks.WaitForTasks`: the polls are a finite sequence, at whose end the loop is reported as still waiting.
- `OutputBuffer.Buffer.Write`: the mutex is not modelled; writes come one after another.
- `Resume.ResumeEquivalence`: steps that go past a failure, or can be passed over, must leave the world alone, since nothing makes their outcome the same twice.
