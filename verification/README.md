# Verified model of Adaptive Harness

This project models the parts of Adaptive Harness whose promises quantify over whole runs, crash points or
arbitrary text, and proves those promises. It stands beside the Python sources; paths and lines below refer to them.

## What is modelled

**The task kernel.** `TaskModel`, `Records`, `Gateway`, `Execution` and `Verifier` are the values and decisions of
envelopes, the record store, the Capability Gateway, the Executor and the Completion Gate. `Kernel` is the task
lifecycle as a state machine over one canonical record: authorize, take the lease, start, end, amend, cancel, approve
and verify, in any order, with a crash possible between any two writes; the Verifier's report and its write are two
steps, and each step is made under the declarations and policy in force then. `Service` composes those steps into the
operations that run under the clone lock. `Components` and `TaskServices` hold the objects that change state (the store,
the Gateway, the Executor, the Verifier with its shared issue list, the service); their methods are tied to the record
functions. `GateProof`, `Completion`, `Budgets` and `Histories` hold the theorems: the gate equals a declarative
condition, when a completed task has fresh evidence, each authorization is used once, budgets and approvals hold in
every session, and boundaries only grow. `Witnesses` runs a concrete task where two of these need the lock.
`JsonValues`, `EventPayload` and `Payload` are the stored form of a record and read back what was written.

**Repository transactions.** `Transaction` and `RepositoryTransactions` are the write-ahead protocol (journal, stage,
commit, clean up, restore) over a disk on which every operation may raise, before or after its effect, or lose the
process. `TransactionRuns` proves atomicity over any sequence of applies, crashes and recoveries, and
`TransactionDrivers` that the object's own calls are such a sequence.

**The standalone installation.** `Installation`, `SelfManagers` and `Uninstallation` run update, rollback and uninstall
step by step under faults that strike before or after a step's effect; `InstallationRuns` composes them.

**Storage placement.** `Storage` is the lock-and-recheck protocol of bound writers and migrations as small steps of any
interleaving; `StorageMigrators` runs the migrator's own loops and failure handling through those steps.

**Text and output.** `ManagedBlocks` and `ManagedProjections` scan, render, remove and inspect the managed block inside
arbitrary user text. `Utf8`, `Capture`, `Redaction` and `Secrecy` are the bounded capture of a command's output,
the UTF-8 limit (section 3 of RFC 3629), sequential redaction and the Verifier's secret check.

**Trials, upgrades and versions.** `Trials`, `TrialRuns` and `ModuleManagers` are the module lock and its trials;
`Upgrades` and `UpgradeManagers` the recovery points of configuration upgrades; `SemanticVersion` the version grammar
(items 2, 9 and 10 of Semantic Versioning 2.0.0) and the installer's recogniser.

SHA-256 is an injective constructor (`Sha256`), or a function given to the projection; JSON is a value datatype; clocks,
Git probes, the registry and process results are inputs. Module names are plural where a class has the file's name.

## Where code and promise differ

- The retry limit on starts holds for every service session (`Budgets.SessionBudgets`). Between components all that is
  authorized can start, and nothing else can: the starts stay within a limit exactly when the authorizations do
  (`Histories.StartsStayWithinExactly`). The Gateway counts starts, so it can authorize more than the retries and one
  (`Witnesses.RetryLimitIsPassed`); it does not when no declaration allows more executions
  (`Histories.ExecutionsBoundStarts`), or no request is made over an unused authorization
  (`Histories.CarefulRunsStayWithinRetries`).
- The Verifier loads a record, judges it and then has the store load it again to close it. An amendment without the
  service lock in between completes a stale task (`Witnesses.StaleTaskIsCompleted`); `Completion.CompletedIsFresh` says
  exactly when a completed task is fresh, and under the lock it always is (`Budgets.SessionCompletedIsFresh`).
- No acceptance that expects a non-zero exit code can pass on evidence the Executor wrote (`Completion.OnlyZeroExitPasses`).
- A rollback of the runtime sets its flags after acting, so a failed one leaves the pointers unchanged exactly when the
  failing step had no effect and the restoring step had one (`SelfManagers.SelfManager.Rollback`,
  `InstallationRuns.LateSwitchIsNotUndone`). Update and uninstall set theirs before acting and need no such condition.
- A failed uninstall restores the profile bytes except when the profile had already, since the review, come to look the
  way the edit would leave it; then recovery writes the reviewed bytes (`Uninstallation.Uninstaller.Uninstall` states
  both directions).
- Rendering writes any version and body, but a projection whose version or body holds marker lines, or leaves one open,
  is a conflict or invalid in some text (`ManagedProjections.RendersValidExactly`).
- "A valid block is what rendering would write" fails for an empty body and only there
  (`ManagedProjections.EmptyBodyIsRewritten`).
- Redaction misses exactly the secrets that overlap the mask in a way `Redaction.Leaks` spells out: "x[" comes back
  from "xx[" (`Redaction.OneSecretIsSafe`, `Redaction.LeakingText`). Beside others, replaced after it, a secret is safe
  exactly when it cannot overlap the mask at all (`Redaction.SafeBesideOthers`).
- The Verifier reads artifacts with universal newlines: a secret that spans lines is read back when its line break was
  printed as a carriage return (`Redaction.OneSecretCanBeRead`).
- An upgrade that creates a file has a recovery point that cannot be rolled back; planned upgrades never create one
  (`Upgrades.PlannedFromFiles`).

## Model

| member | source | states |
|---|---|---|
| Records.AmendmentIsMonotone | src/adaptive_harness/core/envelope.py:256-330 | an accepted amendment is valid, is the next revision of the same task, keeps the immutable fields, and removes no required acceptance, capability or scope |
| Records.CreatedIsLoadable | src/adaptive_harness/core/store.py:211-223 | a record created from a valid first revision passes every load check |
| Records.AmendedIsLoadable | src/adaptive_harness/core/store.py:248-267 | an amendment is written exactly when the task is open and the envelope accepts it; what is written passes every load check and only extends the record |
| Records.AppendedIsLoadable | src/adaptive_harness/core/store.py:291-314 | an event is appended exactly when the task is open; the result loads and extends the record |
| Records.CancelledIsLoadable | src/adaptive_harness/core/store.py:269-289 | a cancellation needs an open task and a reason; the result loads and extends the record |
| Records.FinalizedIsLoadable | src/adaptive_harness/core/store.py:316-351 | only an open task is finalized, only as completed or accepted with risk; the result loads and extends the record |
| Records.RevisionsOnlyExtend | src/adaptive_harness/core/store.py:133-151 | required acceptances, capabilities and scope of any revision are contained in every later one |
| Records.ScopeIsMonotone | src/adaptive_harness/core/gateway.py:495-505 | a path inside a scope list stays inside every list that contains it |
| Payload.RecordReadsBack | src/adaptive_harness/core/store.py:160-196 | every record that passes the load checks survives its payload form, events and their data included |
| Payload.EnvelopeReadsBack | src/adaptive_harness/core/envelope.py:332-384 | a valid envelope survives its external representation with all nineteen fields |
| Payload.ReadIsLoadable | src/adaptive_harness/core/store.py:172-196 | whatever payload is read, the record it gives passes every load check |
| Payload.WrittenLoads | src/adaptive_harness/core/store.py:225-246 | loading what was written gives the record back |
| Payload.TamperedIsRefused | src/adaptive_harness/core/store.py:237-246 | under the digest of one record only that record's own payload loads |
| EventPayload.ApprovalReadsBack | src/adaptive_harness/core/task_service.py:454-489 | an approval survives the event data it is recorded in |
| EventPayload.AuthorizationReadsBack | src/adaptive_harness/core/gateway.py:380-398 | so do all thirteen facts of an authorization |
| EventPayload.FinishReadsBack | src/adaptive_harness/core/executor.py:377-398 | so do the facts of a finish, with its missing exit code or artifacts |
| EventPayload.VerificationReadsBack | src/adaptive_harness/core/verifier.py:144-163 | so does a verification with its results, issue codes and risk reason |
| EventPayload.DataReadsBack | src/adaptive_harness/core/store.py:67-86 | whatever event a component writes, its type and data give the same facts back |
| Components.TaskStore.Create | src/adaptive_harness/core/store.py:211-223 | unsafe ids and existing tasks are refused; otherwise exactly one record is added |
| Components.TaskStore.Amend | src/adaptive_harness/core/store.py:248-267 | the stored record becomes the amended one, or nothing changes and the error says why |
| Components.TaskStore.Cancel | src/adaptive_harness/core/store.py:269-289 | the stored record becomes the cancelled one, or nothing changes |
| Components.TaskStore.AppendEvent | src/adaptive_harness/core/store.py:291-314 | the stored record gains one event, or nothing changes |
| Components.TaskStore.Finalize | src/adaptive_harness/core/store.py:316-351 | the stored record is closed with a legal outcome, or nothing changes |
| Gateway.DecisionMeaning | src/adaptive_harness/core/gateway.py:320-412 | a command is authorized exactly when it is declared and requested, the workspace is the same, its writes are in scope, policy denies nothing, all three budgets have room, and an offered approval fits if one is needed; the fact names the first that fits |
| Components.CapabilityGateway.SearchApprovals | src/adaptive_harness/core/gateway.py:449-481 | the first approval in the given order that fits is found, and none when none fits |
| Components.CapabilityGateway.Authorize | src/adaptive_harness/core/gateway.py:320-412 | a command is issued exactly when one authorization event was appended, and it is the command of that event; otherwise the record is unchanged |
| Components.CommandExecutor.Execute | src/adaptive_harness/core/executor.py:136-199 | a held lease or a mismatched authorization leaves the store unchanged; otherwise the record gains what the lease, start and end steps write, and the lease is free again |
| Components.CommandExecutor.Finish | src/adaptive_harness/core/executor.py:361-413 | one terminal event is appended unless the task was closed meanwhile |
| Components.CompletionVerifier.CheckDiff | src/adaptive_harness/core/verifier.py:185-210 | the shared list gains one issue for each changed path outside the scope, in order |
| Components.CompletionVerifier.CheckIncompleteCommands | src/adaptive_harness/core/verifier.py:212-231 | the shared list gains one issue for each start without a finish |
| Components.CompletionVerifier.CheckHighRiskApprovals | src/adaptive_harness/core/verifier.py:233-252 | the shared list gains one issue for each high-risk authorization without an approval |
| Components.CompletionVerifier.CheckArtifacts | src/adaptive_harness/core/verifier.py:368-427 | both artifacts are examined and the result is valid exactly when they give no issue |
| Components.CompletionVerifier.CheckFinish | src/adaptive_harness/core/verifier.py:270-347 | the checks of one finish run in the source's order and stop at the first that decides |
| Components.CompletionVerifier.CheckRequirementCoverage | src/adaptive_harness/core/verifier.py:429-462 | one issue for each requirement without an acceptance, or else without a passing one |
| Components.CompletionVerifier.DeduplicateIssues | src/adaptive_harness/core/verifier.py:492-502 | the first issue of each code and message is kept |
| Components.CompletionVerifier.Verify | src/adaptive_harness/core/verifier.py:65-164 | a held lease rejects and writes nothing; otherwise the report is the evaluation of the stored record, a rejection leaves the record unchanged, and a legal outcome closes it |
| GateProof.AllIssuesMeaning | src/adaptive_harness/core/verifier.py:101-127 | no issue is found exactly when workspace, scope, commands, approvals, acceptances and requirements all meet the gate |
| GateProof.VerdictMeaning | src/adaptive_harness/core/verifier.py:254-347 | an acceptance passes exactly through an authorization, start and finish of the current revision by the Executor with sound artifacts |
| GateProof.DeduplicateKeepsIssues | src/adaptive_harness/core/verifier.py:492-502 | deduplication keeps every code and message and adds none |
| GateProof.DeduplicateLeavesNoRepeat | src/adaptive_harness/core/verifier.py:492-502 | no code and message occurs twice afterwards |
| GateProof.DeduplicateKeepsDecision | src/adaptive_harness/core/verifier.py:124-134 | the outcome is the same with and without deduplication, because the code fixes waivability |
| GateProof.OutcomeIsTheGate | src/adaptive_harness/core/verifier.py:101-164 | the outcome is completed exactly when the declarative gate holds, accepted with risk exactly when issues exist, a non-blank reason is given and all are waivable, and rejected otherwise |
| Kernel.NextKeeps | src/adaptive_harness/core/store.py:98-154 | every component step, accepted or refused, keeps the record loadable, the history lawful, the revision one more than the amendments, and all authorized writes in scope, and only extends the record |
| Kernel.RunKeeps | src/adaptive_harness/core/store.py:98-154 | in every interleaving of component steps and crashes, each under the declarations in force when it is made, that invariant holds and the record only extends |
| Kernel.DecisionIsLawful | src/adaptive_harness/core/gateway.py:320-412 | an accepted decision carries the current revision, an approval when it is high-risk, and only write paths inside the scope |
| Kernel.StartKeeps | src/adaptive_harness/core/executor.py:153-188 | the start step keeps the run invariant, in which a start follows an unconsumed authorization of its capability and takes the next attempt number, and only extends the record |
| Kernel.EndKeeps | src/adaptive_harness/core/executor.py:361-413 | the end step keeps the run invariant, in which a finish follows the latest start of its command and a success has exit code 0, and only extends the record |
| Kernel.AmendKeeps | src/adaptive_harness/core/store.py:248-267 | an amendment keeps the run invariant in every phase, even while a command runs: the revision stays one more than the amendments, and all authorized writes stay in scope |
| Completion.StartedOnce | src/adaptive_harness/core/executor.py:429-443 | no two starts share an authorization |
| Completion.FinishedOnce | src/adaptive_harness/core/executor.py:361-413 | no two finishes share an authorization |
| Completion.StartIsAuthorized | src/adaptive_harness/core/executor.py:429-458 | each start follows an authorization of its capability |
| Completion.FinishFollowsItsStart | src/adaptive_harness/core/executor.py:361-413 | each finish follows exactly one start, of its own authorization, capability and attempt, with no start between |
| Completion.AttemptsAreNumbered | src/adaptive_harness/core/executor.py:153-188 | attempts of a capability are numbered from 1 in the order they start |
| Completion.TrustIssuesNeverFire | src/adaptive_harness/core/verifier.py:233-309 | on every history Gateway and Executor made, untrusted evidence and unapproved high-risk operations are never reported |
| Completion.OnlyZeroExitPasses | src/adaptive_harness/core/executor.py:254-263 | an acceptance that passes on Executor evidence expects exit code 0 |
| Completion.GateIsFresh | src/adaptive_harness/core/verifier.py:254-347 | the gate holds only when every required command's last start succeeded with exit code 0, authorized after the last amendment |
| Completion.OnlyCloseCompletes | src/adaptive_harness/core/verifier.py:136-164 | only the Verifier's write of a report it holds completes a task |
| Completion.CompletedIsFresh | src/adaptive_harness/core/verifier.py:101-164 | in every interleaving, with amendments and crashes between the Verifier's load and its write too, a completed task has fresh evidence for every required acceptance exactly when the revision its verification names is the current one, or nothing is required |
| Completion.UndisturbedIsFresh | src/adaptive_harness/core/verifier.py:101-164 | a run without an amendment between a report and its write completes a task only with fresh evidence for every required acceptance |
| Witnesses.StaleTaskIsCompleted | src/adaptive_harness/core/store.py:316-351 | a run from a new task that amends it between report and write completes it without fresh evidence |
| Service.PerformIsARun | src/adaptive_harness/core/task_service.py:365-384 | every locked operation, however far it got, is a legal run of component steps that frees the lease |
| Service.SessionIsARun | src/adaptive_harness/core/task_service.py:48-61 | so is every session of operations |
| Service.SessionIsUndisturbed | src/adaptive_harness/core/task_service.py:48-61 | no session amends a task between the Verifier's report and its write |
| TaskServices.TaskService.CollectApprovals | src/adaptive_harness/core/task_service.py:407-418 | exactly the approvals granted in the record for the capability, oldest first |
| TaskServices.TaskService.RunCapability | src/adaptive_harness/core/task_service.py:365-384 | authorize then execute writes what the composed operation writes, and does not stop between while the workspace is the same and free |
| TaskServices.RunRecordIsPerformed | src/adaptive_harness/core/task_service.py:365-384 | what the method writes is what the modelled operation performs step by step |
| TaskServices.IssuedIsValid | src/adaptive_harness/core/executor.py:416-458 | a command just issued passes the Executor's checks while the workspace is the same |
| TaskServices.TaskService.ExtendAcceptances | src/adaptive_harness/core/task_service.py:252-269 | an amendment declares one acceptance for each added capability without a command, in order |
| TaskServices.TaskService.AmendTask | src/adaptive_harness/core/task_service.py:226-272 | unknown capabilities and empty amendments change nothing; otherwise the store amends as composed |
| Budgets.SessionBudgets | src/adaptive_harness/core/gateway.py:346-377 | after every session, however the declarations change between operations, authorizations stay within the command budget and the most executions any of them declares, and starts within retries plus one |
| Budgets.SessionApprovals | src/adaptive_harness/core/gateway.py:449-481 | every authorization that names an approval follows a grant that covers exactly its scope, with a use left |
| Budgets.SessionUses | src/adaptive_harness/core/gateway.py:449-481 | in every session an approval whose id is granted once is used at most its maximum number of times |
| Budgets.StartContract | src/adaptive_harness/core/task_service.py:134-205 | every capability of a started task has a required acceptance that demands exit code 0 |
| Budgets.AmendmentContract | src/adaptive_harness/core/task_service.py:252-272 | amendments keep that contract and both budgets |
| Budgets.SessionCompletedIsFresh | src/adaptive_harness/core/task_service.py:365-384 | when a session completes a task, the last run of every capability in the current envelope is a success authorized after the last amendment |
| Histories.AuthorizedWritesStayInScope | src/adaptive_harness/core/gateway.py:495-505 | every write path ever authorized is inside the scope current at the end of any run |
| Histories.BoundariesOnlyGrow | src/adaptive_harness/core/envelope.py:256-330 | over any run the history and revisions only extend, boundaries only grow, and terminal records never change |
| Histories.AuthorizationsBalance | src/adaptive_harness/core/executor.py:429-443 | in every lawful history each authorization of a capability is started once or unused: authorizations are starts and unused ones |
| Histories.StartsStayWithinExactly | src/adaptive_harness/core/gateway.py:355-363 | between components, from any open task no one works on, the starts of a capability stay within a limit in every run without a further request exactly when its authorizations are within it |
| Histories.ExecutionsBoundStarts | src/adaptive_harness/core/gateway.py:346-363 | in every run the most executions declared bound authorizations and starts of a capability, so the retry limit holds between components when no declaration allows more than the retries and one |
| Histories.CarefulRunsStayWithinRetries | src/adaptive_harness/core/gateway.py:355-363 | so it does when no authorization of the capability is requested while an earlier one is unused, for the most retries any envelope of the run allows |
| Witnesses.RetryLimitIsPassed | src/adaptive_harness/core/gateway.py:355-363 | a run from a new task that allows no retry starts one capability twice |
| RepositoryTransactions.RepositoryTransaction.Apply | src/adaptive_harness/init/transaction.py:62-100 | drifted, duplicate or linked paths and a pending journal are refused untouched; applied means all changes, restored means none, and after a crash the files are whole or the journal holds the true before-images |
| RepositoryTransactions.RepositoryTransaction.Recover | src/adaptive_harness/init/transaction.py:102-116 | recovery restores the files before the interrupted transaction, or leaves it interrupted with its journal true |
| RepositoryTransactions.RepositoryTransaction.ValidateReviewedState | src/adaptive_harness/init/transaction.py:118-137 | accepts exactly distinct paths that hold the reviewed bytes and pass no link |
| RepositoryTransactions.RepositoryTransaction.Restore | src/adaptive_harness/init/transaction.py:139-168 | puts every before-image back, and can be repeated after any failure |
| RepositoryTransactions.RepositoryTransaction.Cleanup | src/adaptive_harness/init/transaction.py:170-181 | removes staging first and the journal last, touching no other file |
| TransactionRuns.RunsAreAtomic | src/adaptive_harness/init/transaction.py:62-181 | over any run of applies, crashes and recoveries the files are a replay of whole transactions in order: every one that reported success, and besides only ones that died; while a journal is pending a transaction that raised or died lies on top, each of its files before or after, with true before-images |
| TransactionDrivers.Drive | src/adaptive_harness/init/transaction.py:62-181 | any requests made of the transaction object, however each ends, are such a run |
| TransactionRuns.OtherFilesUntouched | src/adaptive_harness/init/transaction.py:62-181 | at the end of any run, pending journal or not, a file is as it was unless a transaction names it that reported success, raised or died |
| SelfManagers.SelfManager.Update | src/adaptive_harness/distribution/manager.py:375-469 | a failure, whether or not the failing step took effect, leaves pointers and slots as they began when the restoring steps have effect; a pointer never names a removed or damaged slot; success installs the new version and keeps the old one as previous |
| SelfManagers.SelfManager.Switch | src/adaptive_harness/distribution/manager.py:398-426 | each pointer is moved only after its flag was set, and a success leaves the described new slot current |
| SelfManagers.SelfManager.RecoverUpdate | src/adaptive_harness/distribution/manager.py:427-456 | only flagged pointers are put back, and a staged slot that is still current is not removed |
| SelfManagers.SelfManager.Rollback | src/adaptive_harness/distribution/manager.py:471-534 | refused exactly when no other verified slot of the same installation is kept; a failed rollback leaves everything as it began exactly when the failing step had no effect and restoring had one |
| InstallationRuns.UpdatedCanRollBack | src/adaptive_harness/distribution/manager.py:410-418 | the manifest an update writes always passes the rollback's identity check |
| InstallationRuns.RollbackInvertsUpdate | src/adaptive_harness/distribution/manager.py:471-534 | update then rollback restores the current pointer, its manifest and its slot, and leaves no previous pointer |
| InstallationRuns.RunKeepsSlots | src/adaptive_harness/distribution/manager.py:457-469 | over any run of successful operations the slots are current, previous and those reported as pending, and none named is missing |
| InstallationRuns.RunWithoutLeftovers | src/adaptive_harness/distribution/manager.py:523-534 | without leftovers the slots are exactly the named ones |
| InstallationRuns.FailedRollbackIsUndoneOrFinal | src/adaptive_harness/distribution/manager.py:496-521 | what a failed rollback leaves is what it found exactly when the failing step had no effect and restoring had one, and otherwise a verified installation that no rollback is possible from |
| InstallationRuns.LateSwitchIsNotUndone | src/adaptive_harness/distribution/manager.py:496-521 | a rollback whose switch raises after its effect leaves the other version current and cannot be repeated |
| Uninstallation.Uninstaller.Uninstall | src/adaptive_harness/distribution/manager.py:291-358 | succeeds exactly when every path moves and the reviewed edit applies; a failure moves every path back and restores the profile bytes exactly unless they looked edited already, when recovery steps have effect, and never loses a node |
| Uninstallation.ProfileAfterRecovery | src/adaptive_harness/distribution/manager.py:928-988 | restoring after an edit, with or without effect, gives the old bytes exactly unless they looked edited already |
| Uninstallation.Uninstaller.Stage | src/adaptive_harness/distribution/manager.py:322-325 | each path is recorded before it is moved, so what has moved is always among the recorded |
| Uninstallation.Uninstaller.Unstage | src/adaptive_harness/distribution/manager.py:346-353 | recorded paths move back last first, and nothing stays away when the moves have effect |
| Storage.RunKeeps | src/adaptive_harness/storage/location.py:149-167 | in every interleaving of writers, migrations, rollbacks and crashes the placement of the stored mode holds exactly the committed writes |
| Storage.SwitchIsSafe | src/adaptive_harness/storage/migration.py:87-132 | the mode changes only to a placement with the same records, and only while no task of the old one is unfinished |
| Storage.StaleWriterIsRefused | src/adaptive_harness/storage/location.py:149-167 | only a writer bound to the stored mode's placement ever writes |
| Storage.ManifestDetermines | src/adaptive_harness/storage/migration.py:135-153 | equal manifests mean equal trees |
| Storage.CompleteCopyVerifies | src/adaptive_harness/storage/migration.py:120-123 | a copy of every item has the reviewed manifest |
| StorageMigrators.StorageMigrator.Apply | src/adaptive_harness/storage/migration.py:81-132 | a stale plan is refused untouched; an undisturbed one moves all records; a failure whose failing step had no effect leaves everything as it was |
| StorageMigrators.StorageMigrator.CopyItems | src/adaptive_harness/storage/migration.py:174-181 | every item is copied, or the first failure stops the migration |
| StorageMigrators.StorageMigrator.WriteBound | src/adaptive_harness/storage/location.py:149-167 | a bound writer writes exactly when its placement is still the stored one |
| ManagedBlocks.StartsDoNotOverlap | src/adaptive_harness/adapters/managed.py:9-13 | although a version may span lines, no start marker begins inside another |
| ManagedBlocks.FindIterMeaning | src/adaptive_harness/adapters/managed.py:116-118 | the left-to-right scan finds one marker exactly when one position matches, and none when none does |
| ManagedBlocks.SpanMeaning | src/adaptive_harness/adapters/managed.py:116-132 | a span is found exactly for one start marker before one end marker, and none exactly without markers |
| ManagedProjections.RenderIsValid | src/adaptive_harness/adapters/managed.py:51-105 | what was rendered into any text without conflicting markers is found present and valid |
| ManagedProjections.RenderIsIdempotent | src/adaptive_harness/adapters/managed.py:51-61 | rendering twice is rendering once |
| ManagedProjections.RemoveUndoesRender | src/adaptive_harness/adapters/managed.py:51-69 | removing what was rendered gives what removing before gives, plus one line break exactly when there was no block and the text lacked a final one |
| ManagedProjections.ValidIsRendered | src/adaptive_harness/adapters/managed.py:70-105 | rendering over a valid block changes nothing, but for a missing final line break |
| ManagedProjections.EmptyBodyIsRewritten | src/adaptive_harness/adapters/managed.py:89-92 | with an empty body a valid block can be rewritten |
| ManagedProjections.RendersValidExactly | src/adaptive_harness/adapters/managed.py:9-13 | a projection is found valid in every text without conflict it is rendered into exactly when its version is not empty, has no quote and no end marker line inside, and no line of its body is a marker or leaves a start marker open |
| ManagedProjections.UnfitFails | src/adaptive_harness/adapters/managed.py:51-105 | every other projection has a text without conflict in which it is not found valid |
| ManagedProjections.BracketFreeFits | src/adaptive_harness/adapters/managed.py:15-45 | every body without an opening bracket under a one-line version without quotes, such as the shipped instructions, meets that condition |
| Utf8.DecodeInvertsEncode | src/adaptive_harness/core/executor.py:622-626 | decoding what was encoded gives the text back, whatever the error handler |
| Utf8.LimitTextIsLongest | src/adaptive_harness/core/executor.py:622-626 | the limited text is the longest prefix whose encoding fits, and the text itself exactly when that fits |
| Capture.Collect | src/adaptive_harness/core/executor.py:280-340 | the buffers are prefixes of what each stream sent and hold the smaller of the limit and all that was read; truncation is reported exactly when more was read; cancelled or timed out is reported exactly by the first tick that stops the command before an overflow, never both |
| Redaction.RedactText | src/adaptive_harness/core/executor.py:356-359 | the secrets are replaced one after the other |
| Redaction.RedactionIsComplete | src/adaptive_harness/core/executor.py:356-359 | a secret that cannot overlap the mask does not occur in the redacted text, whatever the other secrets are and in whatever order they were replaced |
| Redaction.WindowIsExplained | src/adaptive_harness/core/executor.py:356-359 | whatever stands in the result of one replacement stood in the text where the secret did not, or overlaps a mask |
| Redaction.LeakingText | src/adaptive_harness/core/executor.py:356-359 | a secret that is part of the mask, contains it, begins like its end, or ends like its start after a head that is no earlier match, has a text whose redaction contains it |
| Redaction.OneSecretIsSafe | src/adaptive_harness/core/executor.py:356-359 | redaction removes a secret that is the only one from every text exactly when none of these four holds |
| Redaction.SafeBesideOthers | src/adaptive_harness/core/executor.py:356-359 | it removes a secret from every text beside any others exactly when the secret cannot overlap the mask |
| Redaction.LimitHolds | src/adaptive_harness/core/executor.py:342-354 | both texts together stay within the limit, are unchanged exactly when they fit, and are otherwise the longest starts in turn |
| Redaction.ArtifactsHoldNoSecret | src/adaptive_harness/core/executor.py:244-252 | whatever a command printed and whatever the other secrets are, a one-line secret that cannot overlap the mask, and any with a carriage return, is not read back from the artifacts |
| Redaction.OneSecretCanBeRead | src/adaptive_harness/core/executor.py:244-252 | a secret that is the only one can be read back from some output's artifacts exactly when it has no carriage return and leaks or spans lines |
| Redaction.ReadBesideOthers | src/adaptive_harness/core/executor.py:244-252 | beside some others a secret can be read back exactly when it has no carriage return and overlaps the mask or spans lines |
| Secrecy.SecretCheckNeverFires | src/adaptive_harness/core/verifier.py:417-426 | the Verifier reports a secret in what the Executor wrote only when some secret overlaps the mask or spans lines |
| Trials.UpsertMeaning | src/adaptive_harness/modules/manager.py:381-384 | sets one module's entry, keeps all others, and sorts |
| Trials.RollbackMeaning | src/adaptive_harness/modules/manager.py:301-305 | gives one module its recorded entry and leaves the others alone |
| TrialRuns.PlanKeeps | src/adaptive_harness/modules/manager.py:110-309 | every planned lock keeps the counts, distinct tasks, budget, majority, history and single open trial of each module |
| TrialRuns.RunKeeps | src/adaptive_harness/modules/manager.py:110-309 | so does every reachable lock |
| TrialRuns.OpenTrialIsLatest | src/adaptive_harness/modules/manager.py:394-405 | a module has at most one open trial and it is its latest |
| TrialRuns.PromotionFindsItsModule | src/adaptive_harness/modules/manager.py:283-294 | a promotion never fails for want of the module's entry |
| TrialRuns.RollbackRestoresPreTrialEntry | src/adaptive_harness/modules/manager.py:296-309 | whatever happened since a trial started, rolling it back restores the entry the module had before it |
| ModuleManagers.ModuleManager.StartTrial | src/adaptive_harness/modules/manager.py:176-247 | plans a trial or names the reason against it, in the source's order |
| ModuleManagers.ModuleManager.RecordResult | src/adaptive_harness/modules/manager.py:249-281 | plans the recorded result and rejects the trial when its budget is overspent |
| ModuleManagers.ModuleManager.Promote | src/adaptive_harness/modules/manager.py:283-294 | plans the promotion of a complete trial with a strict beneficial majority |
| ModuleManagers.ModuleManager.Rollback | src/adaptive_harness/modules/manager.py:296-309 | plans the rollback of the latest trial unless it is closed |
| ModuleManagers.ModuleManager.Apply | src/adaptive_harness/modules/manager.py:311-314 | a plan is applied exactly to the lock it was made for |
| ModuleManagers.AppliedPlansStayLawful | src/adaptive_harness/modules/manager.py:311-314 | any number of plans made at earlier moments, fresh or stale, keep the stored lock lawful |
| ModuleManagers.Document.FindActive | src/adaptive_harness/modules/manager.py:394-398 | the last trial of the module in state trial |
| Upgrades.PlannedFromFiles | src/adaptive_harness/upgrade/manager.py:128-158 | a planned upgrade changes only files that were there |
| Upgrades.PlannedIsUndoable | src/adaptive_harness/upgrade/manager.py:128-158 | so every planned change can be undone |
| Upgrades.RollbackNeedsUpgradedFiles | src/adaptive_harness/upgrade/manager.py:206-231 | a recovery point can be rolled back exactly while no file was new and every file still holds the upgraded bytes |
| Upgrades.UpgradedAdmitsRollback | src/adaptive_harness/upgrade/manager.py:206-239 | after an applied upgrade its rollback is planned, and the transaction that carries it out passes every check |
| Upgrades.UpgradeThenRollback | src/adaptive_harness/upgrade/manager.py:160-255 | an applied upgrade can be rolled back, and an applied rollback gives back every byte of every file |
| Upgrades.RollbackRestoresFiles | src/adaptive_harness/upgrade/manager.py:241-255 | whatever else changed, a rollback restores each recorded file and touches no other |
| Upgrades.RolledBackOnce | src/adaptive_harness/upgrade/manager.py:217-231 | once the files are restored, neither a new nor an old plan can roll the point back again |
| UpgradeManagers.UpgradeManager.CollectChanges | src/adaptive_harness/upgrade/manager.py:257-264 | exactly the candidates that differ from the files, with the bytes they replace |
| UpgradeManagers.UpgradeManager.Apply | src/adaptive_harness/upgrade/manager.py:160-194 | the recovery point is stored before the first file changes, whatever fails |
| UpgradeManagers.UpgradeManager.PlanRollbackOf | src/adaptive_harness/upgrade/manager.py:196-239 | the first recorded file that cannot be rolled back decides the error |
| UpgradeManagers.UpgradeManager.ApplyRollback | src/adaptive_harness/upgrade/manager.py:241-255 | a point is marked only after its files are back |
| UpgradeManagers.WorksAtMostOnce | src/adaptive_harness/upgrade/manager.py:202-231 | a marked point is refused, and so is one whose files are back though the mark was lost in a crash |
| SemanticVersion.ValidateSemver | scripts/install.sh:96-131 | accepts exactly the strings of the version grammar |
| SemanticVersion.ValidIdentifiers | scripts/install.sh:98-107 | accepts exactly the dot-separated identifiers of the grammar |
| SemanticVersion.DottedByPieces | src/adaptive_harness/distribution/version.py:7-15 | a dotted list of the grammar is what cutting at the dots makes it |
| SemanticVersion.SemverByParts | src/adaptive_harness/distribution/version.py:7-21 | the grammar holds exactly when the parts cut at the first plus sign and the first hyphen before it do |

## Left out

- The command line, localisation, diff rendering and prompts; scanners, initializer documents, templates, doctor,
  configuration explain, adapter detection, retention pruning, feedback and module activation: user interface, file
  probing or one-pass filters.
- Process launch and termination, sandbox command lines, Git calls, downloads and archive extraction: their results are
  inputs or nondeterministic.
- JSON text, JSON Schema, base64, SHA-256, fsync and flock: atomic rename, mutual exclusion, value-level round trips and
  an injective digest are assumed.
- Two processes that change one task's record without the service lock can lose an update between load and write; each
  store operation, the Gateway's decision with its append, and the Verifier's load with its evaluation, is one step.
- One task per kernel run; several tasks only meet in the store's map and the lease table.
- How a path escapes task storage is one flag of the artifact, and what a symbolic link points at is not modelled.
- Event types and data no component writes, and payload values of a wrong JSON type, are refused when read, where the
  program would carry them or turn some into other values. The reason, traits and context of a module activation.
- Directories, file modes and temporary files of a transaction; an `unlink` that raises is taken to have had no effect,
  a replace may raise after its effect.
- The death of the process during update, rollback or uninstall: their faults are exceptions, before or after a step's
  effect. A failing `mkdtemp` and malformed manifests are refusals.
- The order in which a manifest lists files and a migration copies them; two clones that share a user-data directory, and
  writers that force the user-data placement.
- NaN, infinities and rounding: numbers of a budget and the runtime limit of a trial are exact.
- RepositoryTransactions.RepositoryTransaction.ValidateReviewedState: takes two spellings of one path as one path, where
  the program compares the spellings.
- Uninstallation.Uninstaller.Uninstall: takes the review checks as one flag, because each only compares what was probed.
- Paths staged by an uninstall are taken to be distinct and not nested in one another.
- The comparison of configured and installed runtime versions: one branch per case.
- The choice of the newest recovery point when none is named, and the root check of upgrade and module plans.
- When the capture loop ends: its rounds are given, and everything they read is accounted for.
- The summary line and message text of a finish; time stamps are non-empty strings.
- SelfManagers.SelfManager.Update: does not model the release lookup and checksum of the archive, because they are downloads.
- SemanticVersion.ValidateSemver: does not accept strings with a backslash as input, because the shell's `-v` assignment
  interprets them before the program sees the version.
