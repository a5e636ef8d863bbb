# Verified models of the rental assistant's state machines

This Dafny project models five parts of the repository and proves what they promise. The models follow the code
branch by branch; methods with loops and in-place updates stand for the code that works that way, and each is proved
against a specification whose own properties are then proved as lemmas.

1. **Backup and restore** (`deploy/runtime_backup.py`). A file tree is a map from paths to files and directories with
   modes; an archive is a list of members. Modules `PathNames`, `Trees`, `Archive`, `Manifests`, `ManifestRecords`,
   `TarRoundTrip`, `Staging`, `BackupRoundTrip`, `RestoreInstall` and `EndToEnd` cover staging, the manifest, the
   sorted tar, checked extraction, verification, the mode schedule and the install by two renames, where any
   file-system call may fail. The two orderings (a directory sorts before what is below it; modes are applied deepest
   first) are what makes extraction and mode restoration work.
2. **The benchmark runner** (`evaluation/run_benchmark.py`). `FixtureReplay` (per-tool queues refine "call k gets record
   min(k, n-1)"), `BenchmarkLoop` (the cost-capped loop, its checkpoint, kills and resumes), `HistoryPairing` and
   `Percentile`.
3. **State machines of the web app** (`app/app.py`). `RunnerPool` (rotation of event-loop runners, every interleaving of
   its locked sections), `TileCache` (an LRU with an unlocked fetch), `PrivacyErasure` (staged erasure behind a login
   gate, with failing layers, kills, and the other routes that delete conversations), `RecommendedRegistry`,
   `ListingIdentity` (which listing a card is bound to), `ListingRecords` (the same on the rows' own fields) and
   `ListingOrder` (what of it depends on the order of rows).
4. **The paired promotion gate** (`evaluation/paired_gate.py`). `PairedRuns`, `PairedMetrics`, `GateEvidence`,
   `LifecycleAudit`, `CheckLedger` and `PromotionGate` specify the 23 checks and prove the whole-gate results;
   `GateRecords` and `LifecycleRecords` say what every row and the audit mean on the fields of the records;
   `LifecycleOrder` says when the audit depends on the order of events; `GateEvaluation` is `evaluate_pair` as code;
   `GateLoophole` and `GateWitness` bound what a promotion says, the latter on rounds under the default thresholds.
5. **Evaluator identity** (`evaluation/results_package.py`), module `GraderIdentity`.

`Wrappers`, `Sequences`, `Sorting`, `Sums`, `Counting`, `Texts`, `ListingKeys` and `RunRecords` hold shared definitions.

`dafny verify dfyconfig.toml` checks everything.

## Where the code does not do what its prose says

Each of these is proved; where the promise has a condition under which it holds, that condition is proved to be the
exact one.

- *A backup can always be restored.* A file or directory name with a backslash is archived and then refused by
  extraction (`BackupRoundTrip.BackslashNeverRestores`). Restore undoes backup if and only if no copied name holds a
  backslash and the tree and its manifest fit the limits (`BackupRoundTrip.RestoreUndoesBackup`).
- *A failed restore leaves the target alone.* If only the last directory sync fails, the failure is reported with the
  new tree in place (`RestoreInstall.SyncFailureLeavesNewTree`); `RestoreInstall.FailureCases` gives all three cases.
- *Resuming gives the run an uninterrupted loop would have given.* Not after a stop on a rejected credential, nor in
  offline mode past the cap (`BenchmarkLoop.ResumeAfterAuthFailure`, `BenchmarkLoop.ResumePastOfflineCap`);
  `BenchmarkLoop.ResumeExact` gives the condition. A kill between the two writes of one case repeats a run id if and
  only if the cap does not refuse the next start (`BenchmarkLoop.TornWriteRepeats`). A kill inside the checkpoint
  write leaves a checkpoint that counts as empty: done ids and cost are forgotten, ids repeat and the money spent
  before comes on top of the cap (`BenchmarkLoop.LostCheckpointOverspends`, exactly:
  `BenchmarkLoop.LostCheckpointExact`, `BenchmarkLoop.LostCheckpointRepeats`).
- *A fixtured case is a closed evidence world.* A live case whose fixtures hold no record goes to the live tools
  (`FixtureReplay.EmptyFixtureGoesLive`, exactly: `FixtureReplay.ClosedWorldExact`).
- *`forgotten: true` means everything is gone.* With checkpointing switched off, threads of earlier turns stay
  (`PrivacyErasure.DisabledCheckpointsLeaveThreads`); with it on, so does the thread of a conversation that was
  deleted before while deleting its thread failed (`PrivacyErasure.DeletedConversationLeavesThread`). Exactly:
  `PrivacyErasure.ForgottenMeansEmpty` for the answer, `PrivacyErasure.RunKeepsOrder` for the runs that make such
  threads.
- *A retry finishes the work.* When the attempt fails between the account and the hot cache, the login gate turns every
  retry away and the hot-cache slices stay (`PrivacyErasure.StrandedSlices`, exactly:
  `PrivacyErasure.StrandedExactly`); a latch left by a killed attempt is never released
  (`PrivacyErasure.LeftLatchIsForever`). A clean retry completes if and only if the latch is free and the account
  still exists (`PrivacyErasure.CleanRetryExact`).
- *Recovered capacity is republished.* A runner that recovers before its own rotation has taken the locks leaves the
  pool without a published runner although it is healthy (`RunnerPool.StrandingRun`, exactly:
  `RunnerPool.StrandedExactly`).
- *The most recently used tile is last.* Storing a tile that another request has stored meanwhile does not refresh its
  place (`TileCache.StaleStore`, exactly: `TileCache.StoreRefreshesExactly`).
- *An ambiguous name is never guessed.* One source does not, but the next one asked may know only one of the listings
  and binds it (`ListingIdentity.AmbiguousNameBound`, exactly: `ListingIdentity.GuessesExactly`).
- *The order of rows does not matter to a listing's identity.* It does not for a registry that the merge has built,
  unless it has two entries of one name with different blank URLs (`ListingOrder.MergedRegistryExact`); two prices are
  enough for the merge to keep both (`ListingOrder.BlankUrlDependsOnOrder`). For other registries it does not if and
  only if entries that can tie spell their URL alike (`ListingOrder.RegistryOrderExact`) or, over all registries
  without blank URLs, the cache lookup treats spellings of one URL alike, which the case-sensitive lookup of
  `app/core/scraping/on_demand.py` does not (`ListingOrder.CacheOrderExact`). The bound price depends on the order
  exactly when the tied rows disagree on it (`ListingOrder.BoundPriceDependsOnOrder`, exactly:
  `ListingOrder.PriceOrderExact`).
- *The order of lifecycle events does not matter to the audit.* The call counts of a task go through a set, which keeps
  the first of equal values, and are tested for their type afterwards: `0` before `false` passes and `false` before
  `0` does not (`LifecycleOrder.FalseIsZero`, exactly: `LifecycleOrder.AuditOrderExact`).
- *A promoted candidate made no specialist model call.* A run whose `specialist_lifecycle` is present but no list is
  skipped by the audit and accepted by the completeness check (`GateWitness.HiddenModelCallPromotes`, under the
  default thresholds); a promotion rules such calls out if and only if every candidate run's lifecycle is a list
  (`GateLoophole.ModelCallFreeExactly`).
- *Exit code 2 means that nothing measured got worse.* On a round whose answers are mostly identical the overlay
  rewrites a failed quality check, a broken passing case included, to "vacuous" (`GateWitness.VacuousHidesRegression`,
  under the default thresholds; `PromotionGate.RegressionExact` says exactly when a regression is named).

## Model

| member | source | states |
|---|---|---|
| PathNames.SplitJoin | deploy/runtime_backup.py:487-494 | splitting an archive name at slashes undoes joining the path |
| PathNames.JoinInjective | deploy/runtime_backup.py:272-289 | no two paths share an archive or manifest name |
| PathNames.SafeMemberNameExact | deploy/runtime_backup.py:487-494 | the accepted names are exactly the slash-joined safe components with any number of trailing slashes, and the answer is those components |
| PathNames.SafeMemberNameOfJoin | deploy/runtime_backup.py:487-494 | a written path is read back unchanged unless a component holds a backslash, and is then refused |
| Trees.AncestorSortsFirst | deploy/runtime_backup.py:299-317 | in the part-wise order a directory is strictly before everything below it |
| Trees.ListingUnique | deploy/runtime_backup.py:272-274 | a set of paths has one sorted listing |
| Trees.ParentListedFirst | deploy/runtime_backup.py:299-317 | in the sorted listing every ancestor comes earlier |
| Trees.SortedPaths | deploy/runtime_backup.py:272-274 | computes that listing |
| Trees.NameOrder | deploy/runtime_backup.py:272-274 | names compare as strings do: a prefix first, otherwise by the first place they differ |
| Archive.WriteTar | deploy/runtime_backup.py:299-317 | the archive holds one member per path in sorted order with its kind, bytes and mode |
| Archive.SafeExtract | deploy/runtime_backup.py:497-549 | the extraction loop refines the member-by-member specification, error cases included |
| Archive.StepExact | deploy/runtime_backup.py:510-544 | one member is accepted exactly when it is acceptable, within the limits and compatible with those before it, and adds exactly itself |
| Archive.ExtractExact | deploy/runtime_backup.py:497-549 | extraction succeeds on exactly the acceptable archives, and after any prefix the destination holds that prefix and nothing else: safe paths strictly below it, none written twice, bytes and count within the limits |
| Archive.MemberExtracted | deploy/runtime_backup.py:520-544 | every member lies where its name says: a directory 0o700, or a file 0o600 with the declared number of bytes; its mode bits are on record |
| Archive.DirectoryModes | deploy/runtime_backup.py:525-531 | an extracted directory is owner-only (0o700), or has the implied mode when no member named it |
| Manifests.ArchiveRows | deploy/runtime_backup.py:272-289 | the manifest rows are the files in sorted order with size and digest |
| Manifests.JoinPrefix | deploy/runtime_backup.py:552-559 | a joined name starts with a joined directory and a slash exactly when that directory is a proper ancestor |
| Manifests.ManifestPathExact | deploy/runtime_backup.py:552-559 | the accepted manifest paths below a directory are exactly the joined names of its safe descendants |
| Manifests.VerifyFiles | deploy/runtime_backup.py:607-642 | the row loop accepts exactly rows that name distinct regular payload files with their size and digest, and collects their names |
| Manifests.VerifySqlite | deploy/runtime_backup.py:644-653 | the database loop accepts exactly distinct recorded databases that pass the check |
| Manifests.VerifyRoots | deploy/runtime_backup.py:655-666 | the directory-root loop accepts exactly distinct existing directories |
| Manifests.LoadAndVerifyManifest | deploy/runtime_backup.py:585-667 | a tree is accepted with exactly the one manifest that describes it |
| Manifests.ManifestDeterminesPayload | deploy/runtime_backup.py:585-667 | with a collision-free digest, two trees verified against one manifest hold the same payload files with the same bytes |
| ManifestRecords.VerifiedExact | deploy/runtime_backup.py:585-667 | what is accepted, on the fields of manifest and tree: format and version, one row with size and digest for every payload file and for nothing else, distinct sound databases, distinct existing directories, nothing beside manifest and payload |
| TarRoundTrip.ListingCompatible | deploy/runtime_backup.py:299-317 | no two members of a written archive are in each other's way when extracted in order |
| TarRoundTrip.ExtractUndoesWrite | deploy/runtime_backup.py:299-317 | for every tree, its archive extracts if and only if no name holds a backslash and it fits the limits, and then gives back its paths, kinds, bytes and archived modes |
| TarRoundTrip.ExtractedExact | deploy/runtime_backup.py:520-549 | the extracted tree path by path: directories 0o700, files 0o600 with their bytes, and twelve mode bits on record |
| TarRoundTrip.BackslashNeverExtracts | deploy/runtime_backup.py:487-494 | a legal one-file tree that can be archived and never extracted |
| Staging.PayloadTreeExact | deploy/runtime_backup.py:402-443 | where every source file, database and directory lies in the staged payload, and nothing else is there |
| Staging.LabelGrows | deploy/runtime_backup.py:37 | what may start a label, what may follow, and how long it may be |
| Staging.StagingWellFormed | deploy/runtime_backup.py:402-466 | staged payload and manifest form a tree a file system can hold, free of backslashes exactly when the copied names are |
| BackupRoundTrip.StagedVerifies | deploy/runtime_backup.py:585-667 | the extracted staging verifies against the manifest written over it exactly when that manifest fits its size limit |
| BackupRoundTrip.RestoreUndoesBackup | deploy/runtime_backup.py:357-484 | the archive of any valid sources is accepted if and only if no copied name holds a backslash and the limits are met; the accepted tree, manifest and modes are the staged ones |
| BackupRoundTrip.BackslashNeverRestores | deploy/runtime_backup.py:487-494 | valid sources with one such file name, whose archive is accepted within no limits and with no manifest |
| RestoreInstall.NamesDiffer | deploy/runtime_backup.py:719-734 | stage, displaced tree and target never share a name |
| RestoreInstall.DescendantsFirst | deploy/runtime_backup.py:670-690 | when a path gets its archived mode, no ancestor in the stage has been re-moded |
| RestoreInstall.BuildSchedule | deploy/runtime_backup.py:670-690 | the schedule holds exactly the existing paths that have an archived mode, deepest first |
| RestoreInstall.ScheduleReaches | deploy/runtime_backup.py:670-690 | no mode applied earlier denies access to a path scheduled later, whatever the archived modes |
| RestoreInstall.ParentDirectory.ApplyModes | deploy/runtime_backup.py:670-690 | unless a call fails, every path with an archived mode ends with it, masked to 0o777, and nothing else changes |
| RestoreInstall.ParentDirectory.CopyTree | deploy/runtime_backup.py:727-728 | the copy succeeds exactly when no entry fails, is then complete, and touches only the stage |
| RestoreInstall.ParentDirectory.MoveAside | deploy/runtime_backup.py:731-735 | the first rename, and the state it leaves either way |
| RestoreInstall.ParentDirectory.InstallOrRollBack | deploy/runtime_backup.py:736-742 | the second rename, or the displaced tree put back, or neither |
| RestoreInstall.ParentDirectory.Swap | deploy/runtime_backup.py:731-751 | outcome and effect of the swap for every combination of failing calls |
| RestoreInstall.ParentDirectory.FillAndSwap | deploy/runtime_backup.py:727-751 | outcome and effect of the guarded body, including the second look at the target |
| RestoreInstall.ParentDirectory.RestorePayload | deploy/runtime_backup.py:711-758 | in every intermediate state the target is untouched, absent or completely new, a non-empty old tree is whole at one of two names, and without overwrite it is never displaced; outcome and final state are decided by what was there and by which calls failed |
| RestoreInstall.InstallExact | deploy/runtime_backup.py:693-758 | the install succeeds if and only if no call fails and the target is absent, or a directory that is empty or may be overwritten with a free place to move it to; the displaced tree is reported unless it was empty and could be removed |
| RestoreInstall.FaultlessInstall | deploy/runtime_backup.py:693-758 | without failing calls: into an absent or empty target always, into any other directory exactly with overwrite, and then the new tree with its archived modes is at the target, the old one at the previous name and nothing else changes |
| RestoreInstall.RemodedExact | deploy/runtime_backup.py:670-690 | the installed tree has the payload's paths, kinds and bytes, and every archived mode within nine bits |
| RestoreInstall.SuccessMeansInstalled | deploy/runtime_backup.py:711-758 | a reported success is the complete new tree, and the displaced tree is at the reported name or was empty |
| RestoreInstall.FailureCases | deploy/runtime_backup.py:711-758 | what a reported failure leaves at the target, all three cases with their conditions |
| RestoreInstall.SyncFailureLeavesNewTree | deploy/runtime_backup.py:743-755 | a failed final sync reports failure with the new tree installed |
| EndToEnd.CreateBackup | deploy/runtime_backup.py:357-484 | refuses bad labels, failing databases and empty requests, and otherwise yields the archive of the staged tree |
| EndToEnd.RestoreBackup | deploy/runtime_backup.py:761-855 | until the archive has been extracted and verified, the target and the entries beside it stay as they are, but for the temporary `.verify-` directory, which is not part of the model; after that, outcome, effect and every intermediate state are those of the install |
| EndToEnd.ArchiveDecision | deploy/runtime_backup.py:761-855 | the written archive passes extraction and verification exactly when the sources are restorable |
| EndToEnd.RestoredTreeExact | deploy/runtime_backup.py:670-690 | extraction, copy and mode restoration together give the staged payload with its permission bits |
| EndToEnd.RestoresExact | deploy/runtime_backup.py:217-269 | on the sources themselves, what a restored tree holds: every database as a private file, every directory source, every path of it but the excluded files, with kind, bytes and mode, and nothing else |
| EndToEnd.BackupThenRestore | deploy/runtime_backup.py:761-855 | without failing calls a restore into a free or empty target succeeds if and only if the sources are restorable, and then the target holds exactly what the sources bring, byte by byte and mode by mode |
| BenchmarkLoop.OutputDir.RunAll | evaluation/run_benchmark.py:2737-2795 | the loop computes the fold of its visits over the plan, leaves results file and checkpoint in agreement, and after every case the files are those of a prefix |
| BenchmarkLoop.RunIdInjective | evaluation/run_benchmark.py:2761 | different cases or repeats have different run ids, whatever the names |
| BenchmarkLoop.PlanExact | evaluation/run_benchmark.py:2759-2761 | all cases for repeat 1, then all for repeat 2, and so on |
| BenchmarkLoop.EveryUnitRuns | evaluation/run_benchmark.py:2759-2795 | a fresh loop over distinct cases that never stops leaves exactly one run for every case and repeat, in order |
| BenchmarkLoop.VisitExact | evaluation/run_benchmark.py:2763-2793 | when a unit is executed, what that leaves, and why the loop stops; n runs refuse the next one when n + 1 of average cost would exceed the cap |
| BenchmarkLoop.VisitsKeep | evaluation/run_benchmark.py:2752-2795 | distinct run ids, cost equal to the sum over runs and the start condition of every live run are kept by any plan |
| BenchmarkLoop.EverySessionKeeps | evaluation/run_benchmark.py:2737-2795 | over any sequence of sessions, kills at case boundaries and resumes no run id executes twice, and in live mode the cost without the last run never exceeds the cap |
| BenchmarkLoop.StartsExactly | evaluation/run_benchmark.py:2752-2772 | a plan adds runs exactly when some unit is not done and the estimate does not refuse it |
| BenchmarkLoop.ResumeExact | evaluation/run_benchmark.py:2737-2795 | a loop killed at any case boundary and resumed ends as the uninterrupted one if and only if it was not stopping there or could start nothing more |
| BenchmarkLoop.LiveCapHolds | evaluation/run_benchmark.py:2760-2772 | a live loop past its cap is never resumed into another run |
| BenchmarkLoop.ResumeAfterAuthFailure | evaluation/run_benchmark.py:2782-2788 | a loop stopped by a rejected credential runs another case when resumed |
| BenchmarkLoop.ResumePastOfflineCap | evaluation/run_benchmark.py:2752-2795 | an offline loop that stopped over its cap runs another case when resumed |
| BenchmarkLoop.TornWriteRepeats | evaluation/run_benchmark.py:2779-2781 | a kill between the results and the checkpoint write repeats a run id exactly when the cap lets the resumed loop start |
| BenchmarkLoop.LostCheckpointExact | evaluation/run_benchmark.py:2595-2602 | resuming from kept results with an unreadable checkpoint repeats no run id if and only if it executes no unit that was done |
| BenchmarkLoop.LostCheckpointRepeats | evaluation/run_benchmark.py:2595-2602 | when the plan starts with a done unit, an id is repeated unless the loop is live with a negative cap |
| BenchmarkLoop.LostCheckpointSpend | evaluation/run_benchmark.py:2737-2772 | the money spent is the recorded cost plus that of all runs before the loss, and only the recorded part, without its last run, is held to the cap |
| BenchmarkLoop.LostCheckpointOverspends | evaluation/run_benchmark.py:2595-2602 | two cases under a cap that allows one: after the loss the first runs again, twice the cap is spent and the cap is recorded |
| FixtureReplay.LoadFixtureQueue | evaluation/run_benchmark.py:212-231 | the queues hold the records of all files per tool, in order, and none is empty |
| FixtureReplay.QueuesGrow | evaluation/run_benchmark.py:212-231 | one more record joins the end of one queue: that of its tool, or of "unknown" without one |
| FixtureReplay.FixtureServiceReport | evaluation/run_benchmark.py:244-283 | which declared tools were never called, and the sum of unconsumed records |
| FixtureReplay.Replay.NextResult | evaluation/run_benchmark.py:1414-1446 | the k-th call of a tool with n records answers record min(k, n-1); other calls are denied, canned or live as specified |
| FixtureReplay.Replay.Teardown | evaluation/run_benchmark.py:1525-1536 | the records reported unserved are those left in the queues, and the fixture is served exactly when every declared tool was called |
| FixtureReplay.ServeKeeps | evaluation/run_benchmark.py:1414-1446 | each branch of serving a call keeps queues, counters and last records consistent with the calls made |
| FixtureReplay.ClosedWorldExact | evaluation/run_benchmark.py:234-241 | no call sequence reaches a live tool if and only if the case is offline or some fixture file holds a record |
| FixtureReplay.EmptyFixtureGoesLive | evaluation/run_benchmark.py:212-241 | a live case with an empty fixture goes to the live tool |
| HistoryPairing.HistorySnapshot | evaluation/run_benchmark.py:812-839 | the pairing loop, its flattening and its length |
| HistoryPairing.PairingKeepsTurns | evaluation/run_benchmark.py:812-839 | for every history the exchanges, flattened, give the user and assistant turns in order, answers cut to 500 characters |
| HistoryPairing.PairingCounts | evaluation/run_benchmark.py:812-839 | there is one exchange per opening turn, and a user turn is pending exactly when the last speaker was the user |
| HistoryPairing.AnswerJoinsTurn | evaluation/run_benchmark.py:812-839 | a user turn and its direct answer are one exchange wherever they stand in the history, and the exchanges before it are those of the turns before |
| HistoryPairing.SnapshotGrows | evaluation/run_benchmark.py:812-839 | what one more turn does to the exchanges: the user's opens one, an answer closes that or stands alone, cut after 500 characters, others leave no trace |
| HistoryPairing.SpokenGrows | evaluation/run_benchmark.py:812-839 | what one more turn adds to the exchanges read back |
| Percentile.PercentileExact | evaluation/run_benchmark.py:2273-2289 | the result is exactly the sample member with fewer than ceil(p*n) values below it and at least that many at most it |
| Percentile.PercentileStands | evaluation/run_benchmark.py:2273-2289 | the same without ranks: fewer than the fraction of the present numbers lie below the result and at least that many are not above it |
| Percentile.MeanExact | evaluation/paired_gate.py:395 | the mean times the number of values is their sum |
| Percentile.MedianExact | evaluation/paired_gate.py:395 | the median is the middle value or halfway between the two middle ones |
| Percentile.PercentilePermutation | evaluation/run_benchmark.py:2273-2289 | the order of the sample is irrelevant |
| Percentile.PercentileMonotone | evaluation/run_benchmark.py:2273-2289 | a higher fraction never gives a lower value |
| Percentile.BootstrapCi | evaluation/paired_gate.py:378-410 | for any draws and any confidence that is not negative the interval is ordered, its ends are nearest-rank members of the resampled statistics, and ends and point lie within the sample's range |
| Percentile.IntervalFacts | evaluation/paired_gate.py:378-410 | the same for both statistics, as a fact about the specification |
| Percentile.IntervalStands | evaluation/paired_gate.py:400-405 | the ends of the interval stand at half of what the confidence leaves, on both sides of the resampled statistics |
| GraderIdentity.PayloadInjective | evaluation/results_package.py:345-357 | the sorted listing determines every file's digest or absence |
| GraderIdentity.PayloadExact | evaluation/results_package.py:345-357 | two trees have the same listing if and only if they agree on every file |
| GraderIdentity.PayloadGrows | evaluation/results_package.py:345-357 | one more file adds a line with its name and its digest or the word None |
| GraderIdentity.CompareGraderIdentity | evaluation/results_package.py:360-421 | exact conditions for match, mismatch and unknown, and the differing list, missing digests included |
| GraderIdentity.DifferingExact | evaluation/results_package.py:360-421 | a file differs when one side has a digest of it and the other not the same |
| GraderIdentity.CompareTrees | evaluation/results_package.py:345-421 | with a collision-free digest two recorded trees match if and only if every file agrees, and otherwise the differing list is exactly the changed files |
| TileCache.Tiles.LookUp | app/app.py:5254-5257 | a hit answers the cached body and moves it to the end; a miss changes nothing |
| TileCache.Tiles.Store | app/app.py:5272-5275 | the body is stored and the oldest entries beyond 512 are dropped |
| TileCache.Tiles.Serve | app/app.py:5249-5277 | one request from the grid check to the response |
| TileCache.CacheIsMostRecent | app/app.py:5244-5275 | after any sequence of requests the cache holds exactly the 512 most recently used distinct fetched keys, oldest first |
| TileCache.CachedBodyIsLastFetch | app/app.py:5254-5275 | what it holds for a key is the last tile fetched for it |
| TileCache.AnswerExact | app/app.py:5249-5277 | a request is answered nothing off the grid, the last tile fetched for it if it is among the 512 most recently used keys, and otherwise what is fetched now |
| TileCache.GridExact | app/app.py:5251-5252 | the grid has one tile at zoom 0, four for each at the next zoom, and ends at zoom 19 |
| TileCache.InterleavingOk | app/app.py:5254-5275 | under every interleaving of the two sections it holds at most 512 entries, each key once, and only tiles that upstream returned for that key |
| TileCache.StoreRefreshesExactly | app/app.py:5272-5275 | a store makes its key the most recent one exactly when it was absent or already last |
| TileCache.StaleStore | app/app.py:5254-5275 | an interleaving of three requests after which the tile stored last is the first to be dropped |
| PrivacyErasure.Stores.DropThreads | app/app.py:1675-1701 | deletes the threads of some conversations, none without checkpoints, and reports success exactly when each was deleted and verified |
| PrivacyErasure.Stores.DeleteConversation | app/app.py:4771-4785 | rows and hot-cache slice first, then the thread, whose failure is ignored; nothing without the account, for a busy conversation or one not owned |
| PrivacyErasure.Stores.ClearHistory | app/app.py:4991-4997 | all conversations at once, threads and hot cache last, thread failures ignored |
| PrivacyErasure.Stores.ClearConversation | app/app.py:4980-4990 | one transcript with its slice and thread; the conversation stays listed |
| PrivacyErasure.Stores.EraseLayers | app/app.py:5030-5156 | the stages in order, each skipping what must not go first, with the response they lead to |
| PrivacyErasure.Stores.ForgetMe | app/app.py:5010-5158 | one attempt: the login gate, the latch, the stages, the release, and the response |
| PrivacyErasure.AttemptStores | app/app.py:5010-5158 | an attempt store by store: what is left of each, as a condition on the faults and on what was there |
| PrivacyErasure.AttemptAnswers | app/app.py:5010-5158 | the same for its answers: turned away, busy, dead, complete, failed |
| PrivacyErasure.OtherEventsExact | app/app.py:4771-4997 | turns and deletions by other routes, store by store |
| PrivacyErasure.StepOrphansExact | app/app.py:4771-4785 | an event leaves a thread without its listed conversation exactly when it deletes the rows of a listed conversation whose thread survives |
| PrivacyErasure.RunKeepsOrder | app/app.py:5015-5158 | through any turns, deletions, attempts, failures and kills every remaining thread is still listed if and only if no event deletes a conversation and leaves its thread; with checkpoints enabled the account then exists while memory, checkpoints or rows remain |
| PrivacyErasure.AccountOutlivesData | app/app.py:5092-5130 | in every state of a run the account exists while memory, checkpoints or rows remain if and only if no attempt deletes it over a thread that erasure no longer finds |
| PrivacyErasure.ForgottenMeansEmpty | app/app.py:5132-5156 | `forgotten: true` leaves memory, rows, account and slices empty, and the checkpoints empty if and only if every thread had its conversation listed or, with checkpoints off, there was none |
| PrivacyErasure.DisabledCheckpointsLeaveThreads | app/app.py:1682-1683 | an attempt that answers `forgotten: true` and leaves a thread |
| PrivacyErasure.DeletedConversationLeavesThread | app/app.py:4771-4785 | with checkpoints on, a deleted conversation whose thread an erasure answering `forgotten: true` leaves |
| PrivacyErasure.LatchReleased | app/app.py:5015-5158 | an attempt that took the latch still holds it exactly when it was killed or its release failed; one that was refused or turned away changes nothing |
| PrivacyErasure.LeftLatchIsForever | src/uk_rent_agent/web/conversation_store.py:1180-1262 | a left latch is never released: no turn and no attempt adds or erases anything any more, only deletions of conversations still take rows and threads away |
| PrivacyErasure.GoneAccountIsForever | app/app.py:1849-1864 | without the account no event changes anything and every attempt is turned away |
| PrivacyErasure.StrandedExactly | app/app.py:5092-5156 | an attempt leaves hot-cache slices without the account exactly when it dies or fails between the two or the cache keeps some |
| PrivacyErasure.StrandedSlices | app/app.py:5092-5156 | two attempts whose answer asks for a retry and after which no run ever removes the slices |
| PrivacyErasure.CleanRetryExact | app/app.py:5015-5158 | from any state an attempt without failures completes if and only if the latch is free and the account exists, and what it then leaves |
| PrivacyErasure.CleanRetryCompletes | app/app.py:5015-5158 | after any run that orphans no thread, an attempt without failures leaves nothing if and only if the latch is free and the account exists; without the account at most slices are left |
| RunnerPool.Runtime.EnsureAgentRuntime | app/app.py:227-281 | answers a graph bound to the published runner, or the capacity error exactly when that runner is missing or quarantined |
| RunnerPool.Runtime.Dispatch | app/app.py:132-142 | a graph is submitted to the runner it carries, and only if that runner accepts work |
| RunnerPool.Runtime.FlagRunner | src/uk_rent_agent/agent/execution.py:59-82 | quarantines a runner once and queues one probe |
| RunnerPool.Runtime.RotateFrom | app/app.py:106-129 | publishes a standby, a new runner within the capacity, or none |
| RunnerPool.Runtime.OnGraphRunnerRecovered | app/app.py:96-103 | a recovery is published only into an empty place |
| RunnerPool.EveryInterleaving | app/app.py:89-153 | in every interleaving at most two runners exist, the published graph is bound to the published runner, and every submitted graph went to the runner that built it, stale callers included |
| RunnerPool.QuarantineExact | src/uk_rent_agent/agent/execution.py:59-82 | what starts a quarantine and queues, and that only its own probe ends it |
| RunnerPool.LostProbeIsForever | src/uk_rent_agent/agent/execution.py:59-82 | a quarantined runner whose probe fails is never released and gets no more work, whatever follows |
| RunnerPool.StrandedExactly | app/app.py:96-129 | the steps that leave a healthy pool with no published runner, exactly |
| RunnerPool.StrandingRun | app/app.py:96-148 | a run of ten steps that ends so, in which every quarantine follows a graph submitted to that runner |
| RecommendedRegistry.MergeRecommendedRegistry | app/app.py:2733-2777 | the loop with running keys, maximum and early exit computes the merge |
| RecommendedRegistry.MergeIsAction | app/app.py:2733-2777 | merging a and then b is merging their concatenation, whatever the cap |
| RecommendedRegistry.MergeIdempotent | app/app.py:2733-2777 | merging the same recommendations again changes nothing |
| RecommendedRegistry.MergeShape | app/app.py:2717-2777 | old entries stay a verbatim prefix, new ones have fresh keys and come from admissible recommendations, the length is bounded, and below the cap nothing identifiable is missing |
| RecommendedRegistry.MergeGrows | app/app.py:2717-2777 | when one more recommendation is taken up, and the entry it becomes: included, with a URL or a name, the listing of no entry yet, with room left |
| RecommendedRegistry.NewIndicesIncrease | app/app.py:2739-2760 | new indices strictly increase past every index before them |
| ListingIdentity.MatchExact | app/app.py:2501-2529 | within one source, a row is bound by name exactly when candidates are left and share one URL, and the name is ambiguous exactly when two of them differ |
| ListingRecords.CandidatesExact | app/app.py:2514-2524 | the candidates of a name, on the rows' fields: those the payload's URL does not rule out, or, when several are left and one has the payload's price, exactly those with that price |
| ListingRecords.NeverAnotherPrice | app/app.py:2519-2524 | a payload with a price that some fitting row has is never bound by name to a row at another price |
| ListingRecords.BindsExact | app/app.py:2501-2578 | one source binds the first row with the payload's URL, or else the first candidate if all have one URL identity |
| ListingIdentity.HitExact | app/app.py:2532-2606 | one source binds exactly when it holds the payload's URL or the name is that of one listing, and is ambiguous exactly when neither holds and the name has several |
| ListingIdentity.ResolveExact | app/app.py:2532-2675 | which of the sources binds, when none does, and when the answer is "ambiguous" |
| ListingRecords.SessionBinds | app/app.py:2569-2601 | the fields of the context a session row gives |
| ListingRecords.RegistryBinds | app/app.py:2603-2654 | those a registry row gives, and which of them a cached listing replaces |
| ListingRecords.CsvBinds | app/app.py:2656-2675 | those a CSV row gives, and what is left when nothing is bound |
| ListingRecords.AmbiguousExactly | app/app.py:2565-2675 | an unbound card is ambiguous exactly when some source has two candidates with different URLs |
| ListingKeys.UrlKeyExact | app/app.py:2491-2493 | a URL is itself but for case, spaces around it and slashes at its end |
| ListingKeys.AddressKeyExact | app/app.py:2516-2518 | a name is itself but for case and the spaces around it |
| ListingKeys.PriceKeyGrows | app/app.py:2496-2498 | a price is its digits in order |
| ListingIdentity.GuessesExactly | app/app.py:2607-2663 | a name ambiguous in one source is bound by a later one if and only if that one holds the payload's URL or knows one listing of the name and none before it did |
| ListingIdentity.AmbiguousNameBound | app/app.py:2607-2663 | two listings of one name in the session, one of them in the registry: the card is bound to it |
| ListingOrder.HitPermutes | app/app.py:2501-2529 | permuting one source's rows changes neither the URL of its hit nor its ambiguity |
| ListingOrder.PossibleExact | app/app.py:2532-2675 | what any orders of session, CSV and registry rows can give is exactly what the tied rows of the binding source give |
| ListingOrder.OrderFreeExact | app/app.py:2532-2675 | any part of the resolution is the same for all orders if and only if the tied rows agree on it |
| ListingOrder.PriceOrderExact | app/app.py:2532-2675 | the bound price is the same for all orders if and only if the tied rows agree on the price they, and in the registry the cache, give |
| ListingOrder.IdentityOrderExact | app/app.py:2532-2675 | source tag and normalised URL are the same for all orders if and only if the session binds or the cache makes the same of all rows tied in the registry |
| ListingOrder.RegistryOrderExact | app/app.py:2607-2640 | with a registry, no order ever decides the identity, whatever payload, session, CSV rows and cache, if and only if its entries that can tie spell their URL alike |
| ListingOrder.MergedRegistryExact | app/app.py:2717-2777 | with a registry that merges have built, no order ever decides the identity if and only if its entries of one name without a URL identity have the same blank URL |
| ListingOrder.MergedRegistryOrderFree | app/app.py:2717-2777 | so no order ever decides the identity through a merged registry when no recommended URL consists of blanks or slashes only |
| ListingOrder.CacheOrderExact | app/app.py:2607-2640 | over all registries without blank URLs, two spellings of one URL included, no order decides the identity if and only if the cache treats spellings of one URL alike |
| ListingIdentity.NeverAnotherUrl | app/app.py:2532-2675 | a payload with a URL is never bound to a listing with another one, given a cache that returns what was asked for |
| ListingOrder.BoundPriceDependsOnOrder | app/app.py:2532-2675 | two rows of one name whose bound price depends on their order |
| ListingOrder.BlankUrlDependsOnOrder | app/app.py:2717-2777 | two recommendations of one name and different prices, one with a blank URL: the merge keeps both, and the bound URL depends on the order of the entries |
| LifecycleAudit.CollectRun | evaluation/paired_gate.py:534-544 | adds a run's events to their tasks and counts the malformed ones |
| LifecycleAudit.JudgeTasks | evaluation/paired_gate.py:560-586 | counts the statuses of all tasks and reports exactly the invalid ones, judging of the call counts only those the set has kept |
| LifecycleAudit.Audited | evaluation/paired_gate.py:529-593 | the audit of all runs: tasks, counts, the tasks invalid by shape or kept call counts, malformed entries and specialist calls |
| LifecycleAudit.LifecycleConserved | evaluation/paired_gate.py:529-593 | without invalid tasks, planned = tasks = completed + failed + skipped, and completed + failed <= started <= tasks |
| LifecycleRecords.TaskGrows | evaluation/paired_gate.py:539-544 | one more event joins exactly the task of its case, repeat, plan and task id, at its end |
| LifecycleRecords.CountsGrow | evaluation/paired_gate.py:560-565 | one more event adds one to the count of its status and to no other |
| LifecycleRecords.MalformedGrows | evaluation/paired_gate.py:537-542 | an entry that is no mapping counts as malformed, and no other does |
| LifecycleRecords.SpecialistsGrow | evaluation/paired_gate.py:537-557 | specialist calls of tools and models are those of runs whose lifecycle is a list |
| LifecycleRecords.TaskExact | evaluation/paired_gate.py:562-581 | when a task is valid, by the numbers of its statuses, its roles, its parents, and the call counts without an equal one before them |
| LifecycleOrder.KeptConcat | evaluation/paired_gate.py:567 | what a set keeps of two lists joined: of equal values the first |
| LifecycleOrder.CallsBetween | evaluation/paired_gate.py:567-579 | call counts pass in the given order if they do in every order, and only if they do in some |
| LifecycleOrder.VerdictOrderExact | evaluation/paired_gate.py:560-586 | a task is judged alike in every order of the events within the runs if and only if it is not mixed: of good shape, every leading call count equal to a natural number of its run, and some leading one of another type |
| LifecycleOrder.AuditOrderExact | evaluation/paired_gate.py:529-593 | the audit returns the same for every order of the events within the runs if and only if no task is mixed |
| LifecycleOrder.OneTypeIsStable | evaluation/paired_gate.py:529-593 | a guard: no order matters when no call count of another type equals a natural one |
| LifecycleOrder.FalseIsZero | evaluation/paired_gate.py:567-579 | one task, valid with `0` before `false` and invalid the other way round |
| CheckLedger.RoundExact | evaluation/paired_gate.py:488-508 | the outcome promotes, blocks or names a regression exactly when the rows say so, and exits 0 exactly when every row promotes |
| CheckLedger.FlagExact | evaluation/paired_gate.py:510-526 | the offline flag is set exactly when every row promotes or is not measurable offline |
| CheckLedger.OverlayOnlyLowers | evaluation/paired_gate.py:1079-1090 | the overlay never hides a block, never makes a check pass and touches only dependent checks |
| CheckLedger.Checks.Add | evaluation/paired_gate.py:421-438 | appends a row |
| CheckLedger.Checks.Find | evaluation/paired_gate.py:440-441 | the first row of a check, if any |
| CheckLedger.Checks.SetOutcome | evaluation/paired_gate.py:443-451 | rewrites one row unless it blocks, and says whether it did |
| CheckLedger.Checks.ApplyOverlay | evaluation/paired_gate.py:1079-1090 | the loop over the dependent checks computes the overlay |
| PairedRuns.IndexRuns | evaluation/paired_gate.py:167-175 | the last run of every key, and exactly the repeated keys as duplicates |
| PairedRuns.PairUp | evaluation/paired_gate.py:728-730 | the pairs in key order |
| PairedRuns.PairsExact | evaluation/paired_gate.py:728-736 | with matched arms, two runs are paired exactly when they have the same key |
| PairedRuns.PairsPermute | evaluation/paired_gate.py:728-736 | with matched arms, the pairs hold every run of both arms exactly once |
| PairedRuns.AnyPairsExact | evaluation/paired_gate.py:167-175 | whatever the arms, two runs are paired exactly when each is the last of its arm with their case and repeat |
| PairedRuns.PairsInOrder | evaluation/paired_gate.py:728-730 | the pairs come by case name and then by repeat |
| PairedMetrics.MetricsPermute | evaluation/paired_gate.py:184-226 | no aggregate depends on the order of the runs |
| PairedMetrics.PairedMetricsExact | evaluation/paired_gate.py:184-226 | with matched arms, the aggregates over the pairs are those over the arms |
| PairedMetrics.FiguresGrow | evaluation/paired_gate.py:184-226 | what one more run adds to each of the totals, with the field it is read from |
| PairedMetrics.LatencyFigure | evaluation/paired_gate.py:184-226 | the 95th percentile, and what one more run adds to the latencies behind it |
| PairedMetrics.SumDominates | evaluation/paired_gate.py:807-833 | dominance pair by pair carries over to totals |
| PairedMetrics.SumBounded | evaluation/paired_gate.py:922-946 | an allowance per pair bounds the total |
| PairedMetrics.PairedLatencyDiffs | evaluation/paired_gate.py:363-375 | the median difference of every case with comparable pairs, sorted by case |
| PairedMetrics.DiffsGrow | evaluation/paired_gate.py:363-375 | one more pair adds candidate less baseline to its case if both latencies are there |
| PairedMetrics.LatencyDiffsExact | evaluation/paired_gate.py:363-375 | one median for every case that has a difference, each case once, by name |
| PairedMetrics.UpperEndStands | evaluation/paired_gate.py:378-410 | where the upper end of the interval stands among the resampled means |
| PairedMetrics.NoSlowPairKeepsBudget | evaluation/paired_gate.py:855-917 | if no pair is slower by more than the allowance, the upper end of the interval is within it, whatever the draws |
| PairedMetrics.Distinctiveness | evaluation/paired_gate.py:308-348 | how many pairs have two answers and how many the same one, the same for tool sequences, and the first 50 of the sorted cases with identical answers |
| PairedMetrics.AnswersGrow | evaluation/paired_gate.py:308-348 | whether one more pair counts as comparable and as identical, by answers and by tools in order |
| PairedMetrics.IdenticalCasesExact | evaluation/paired_gate.py:308-348 | those cases are exactly the ones with a pair of identical answers, each once |
| GateEvidence.SecurityViolations | evaluation/paired_gate.py:596-623 | the violations of the summary and of every run, in order |
| GateEvidence.RunViolationsExact | evaluation/paired_gate.py:603-622 | which violations a run yields, kind by kind |
| GateEvidence.ViolationsExact | evaluation/paired_gate.py:596-623 | there is a violation if and only if the summary lists one or some run is unsafe |
| GateEvidence.ViolatedExact | evaluation/paired_gate.py:1003-1014 | a security constraint is among the violations if and only if some run breaks it |
| PromotionGate.QualityExact | evaluation/paired_gate.py:807-845 | the five quality and evidence checks pass if and only if totals and rates of the arms are kept and no passing case fails |
| GateRecords.PackageRows | evaluation/paired_gate.py:682-800 | the rows on result files, arm contract, commit binding and existing gates, field by field |
| GateRecords.ConsistencyRow | evaluation/paired_gate.py:704-726 | the row on configuration, repeats, selection and cases |
| GateRecords.SampleRow | evaluation/paired_gate.py:728-744 | the row on the sample: one run for every case and repeat in both arms, and enough of them |
| GateRecords.CompletenessRow | evaluation/paired_gate.py:228-305 | the row on completeness, every required field by name |
| GateRecords.SecurityRow | evaluation/paired_gate.py:596-623 | the row on security: what blocks, field by field |
| GateRecords.QualityRows | evaluation/paired_gate.py:807-845 | the rows on completion, constraints, grounding and sources, as comparisons of their own figures |
| GateRecords.UnsourcedHolds | evaluation/paired_gate.py:835-845 | a candidate without a sourced claim holds source coverage as soon as the baseline's rate is above the allowance |
| GateRecords.PassRow | evaluation/paired_gate.py:823-833 | the row on passed cases |
| GateRecords.LatencyRow | evaluation/paired_gate.py:847-920 | the row on latency, all three outcomes |
| GateRecords.HighExact | evaluation/paired_gate.py:861-866 | the upper end it reads |
| GateRecords.LlmRow | evaluation/paired_gate.py:922-946 | the row on model calls |
| GateRecords.ToolRow | evaluation/paired_gate.py:948-958 | the row on tool calls |
| GateRecords.BudgetRows | evaluation/paired_gate.py:959-973 | the rows on tool failures and cost |
| GateRecords.LifecycleRow | evaluation/paired_gate.py:975-987 | the row on specialists, read off the audit |
| GateRecords.MemoryRowsExact | evaluation/paired_gate.py:989-1052 | the three rows on memory safety, all outcomes |
| GateRecords.DistinctRow | evaluation/paired_gate.py:1054-1078 | the row on distinctiveness, all three outcomes |
| GateRecords.DefaultQuality | evaluation/paired_gate.py:106-148 | the sample and quality rows under the default thresholds |
| GateRecords.DefaultBudgets | evaluation/paired_gate.py:106-148 | the budget rows under the default thresholds |
| GateRecords.ReportExact | evaluation/paired_gate.py:1079-1091 | the report, row by row, with the six checks a vacuous round rewrites |
| GateRecords.OutcomeExact | evaluation/paired_gate.py:464-508 | the outcome and exit code, from the rows |
| PromotionGate.LatencyExact | evaluation/paired_gate.py:847-920 | the latency check passes if and only if repeats, interval and nearest-rank percentiles are as required |
| PromotionGate.BudgetsExact | evaluation/paired_gate.py:922-972 | the call, failure and cost checks pass if and only if the arms keep the budgets, pair by pair and in total |
| PromotionGate.DistinctExact | evaluation/paired_gate.py:1053-1070 | the distinctiveness check passes if and only if every run has an answer and few enough have a counterpart with the same |
| PromotionGate.SafetyExact | evaluation/paired_gate.py:997-1050 | without violations the memory checks pass if and only if the round is not offline and both observations were made, and are not measurable if it is offline |
| PromotionGate.PromoteExact | evaluation/paired_gate.py:663-1091 | the round promotes if and only if every check does, that is, if and only if both arms show all that is asked: matched keys without duplicates, enough runs, complete measurements, one clean commit, no violation, no passing case lost, budgets kept, valid lifecycles, observed memory safety, distinguishable answers |
| PromotionGate.BlockExact | evaluation/paired_gate.py:596-623 | the round blocks if and only if the summary lists a violation or a candidate run is unsafe, whatever the overlay rewrites |
| PromotionGate.OfflineNeverExitsZero | evaluation/paired_gate.py:1207-1227 | an offline round never promotes and never exits 0; a promotion requires the caller to deny offline execution outright |
| PromotionGate.OfflineFlagExact | evaluation/paired_gate.py:510-526 | the offline flag is set if and only if the arms show everything but the memory observations, and those too unless offline |
| PromotionGate.RegressionExact | evaluation/paired_gate.py:464-478 | a regression is named if and only if nothing is violated and a check other than the commit binding plainly holds that a vacuous round does not rewrite |
| PromotionGate.PassDominance | evaluation/paired_gate.py:807-833 | with slack that is not negative, no regressing pair settles the pass totals |
| PromotionGate.LlmDominance | evaluation/paired_gate.py:922-946 | with an allowance that is not positive and some pair, the pairs settle the total of model calls |
| GateEvaluation.PairRuns | evaluation/paired_gate.py:728-736 | the pairs and whether the sample is exact |
| GateEvaluation.LifecycleComplete | evaluation/paired_gate.py:975-981 | the lifecycle verdict read off the audit |
| GateEvaluation.EvaluatePair | evaluation/paired_gate.py:663-1091 | the ledger it leaves, row by row and after the overlay, and the outcome with its meaning |
| GateLoophole.UnlistedLifecycleIsInvisible | evaluation/paired_gate.py:534-538 | no row depends on the model calls of candidate runs whose lifecycle is no list |
| GateLoophole.ModelCallFreeExactly | evaluation/paired_gate.py:975-981 | a promotion rules out specialist model calls if and only if every candidate lifecycle is a list |
| GateWitness.VacuousHidesRegression | evaluation/paired_gate.py:1079-1090 | a concrete round under the default thresholds that breaks a passing case, names no regression and exits 2 |
| GateWitness.HiddenModelCallPromotes | evaluation/paired_gate.py:529-538 | a concrete round under the default thresholds, promoted with a specialist model call |

## Left out

- GateEvidence.Measured: says only whether a measurement gap exists, not the list of gap texts, because no outcome depends on more than whether it is empty.
- PromotionGate.PromoteExact: takes the random draws of the bootstrap as given (any draws in range), one list for each sample size, because the generator itself is library code.
- PromotionGate.BlockExact: assumes that constraint, tool and usage entries are mappings; the code raises on others before it reports anything.
- LifecycleAudit.JudgeTasks: call counts that are no finite number are one case; a list or an object as a call count makes the code raise and is not modelled.
- Percentile.BootstrapCi: works over the reals, so rounding of means and of `ceil(p * n)` is not modelled; the same holds for costs, rates and latencies everywhere.
- BenchmarkLoop.OutputDir.RunAll: takes a case's cost and credential failure as a function of the case, so a re-executed case behaves as before; the summary and package writers after the loop are not modelled.
- BenchmarkLoop.ResumeExact: is about kills at case boundaries; the kill between the two writes of one case is `BenchmarkLoop.TornWriteRepeats`, that inside the checkpoint write `BenchmarkLoop.LostCheckpointExact`; a results file cut short by a kill inside its own write is not modelled.
- FixtureReplay.Replay.NextResult: treats a record as an opaque value and leaves out the tool registry that is patched around it, because replay neither reads nor changes either.
- HistoryPairing.HistorySnapshot: a turn's text is a string, empty when missing; the round trip drops empty turns, which the exchanges cannot tell from placeholders.
- TileCache.Tiles.Serve: the upstream request is a parameter that may bring no tile; response headers are left out.
- PrivacyErasure.Stores.ForgetMe: is about one signed-in user, not about guests or client-supplied ids; a kill strikes between stages and not between the deletions of two threads, other deletions do not interleave with the stages of an attempt, and the stores behind it appear only through what the routes see of them. Hot-cache slices also expire and vanish with the process, which no event models.
- RunnerPool.EveryInterleaving: claims no progress, because whether a quarantined loop answers its heartbeat is decided outside this code.
- RecommendedRegistry.MergeRecommendedRegistry: leaves out entries that are no mapping, which the code drops first; fields other than those identifying an entry are one opaque value.
- ListingOrder.CacheOrderExact: letters are ASCII in lower-casing and stripping; Unicode case folding is not modelled.
- Archive.SafeExtract: a failing write in the middle of extraction into the temporary directory is not modelled, as it leaves the target untouched; links, devices and other member kinds are one refused kind.
- Archive.WriteTar: the byte format of tar, gzip and age is not modelled; an archive is its list of members. It lists every path of the tree, whereas the code's directory walks silently skip what is below a directory whose mode denies its owner reading it.
- Manifests.ArchiveRows: what those walks skip is missing from the manifest too, so that verification does not notice it; a file that may not be read makes the backup fail, which is not modelled.
- Manifests.LoadAndVerifyManifest: JSON parsing, SHA-256 and the SQLite check are parameters; where a result needs it, the digest is taken to be free of collisions and the JSON codec to read back what it wrote.
- RestoreInstall.ParentDirectory.RestorePayload: fsync is a call that succeeds or fails, ownership and time stamps are not modelled, and no other process changes the parent directory meanwhile.
- EndToEnd.CreateBackup: sources are taken as they are at one moment; the detection of files that change while copied, the publishing of the output file and key handling are not modelled.
- EndToEnd.RestoreBackup: decryption and the temporary directory that the code creates beside the target are not modelled; the mode of the payload root is the stage's own.
- Wrappers around these parts that would only add easy members: report texts, argument parsing, `paired_case_rows`, commit-trust labels, `recorded_grader_key` and the exit codes of callers other than the gate.
