# A verified model of the Property AIgent orchestration and migration layer

This project models, in Dafny, the parts of the repository whose correctness is about whole
runs: the SQLite-to-Postgres migration, the two bounded batch drivers, the daily
orchestrator, schema evolution, the budgeted evidence reader, the Local Plan ingest, the
fixture server's descriptor accounting, the joint-applicant splitter, the benchmark and the
UI lifecycle evidence. `dafny verify dfyconfig.toml` checks everything.

| files | what they model |
|---|---|
| `Relational.dfy` | the migration's target as a step machine: a statement satisfies NOT NULL, every unique key and every foreign key when it executes, or is rejected and rolls the open transaction back |
| `Migration.dfy`, `MigrationTable.dfy`, `MigrationRun.dfy`, `MigrationResume.dfy`, `MigrationFacts.dfy` | what the script computes from the source and sends; one table; a whole run; interruption and rerun; conservation and counterexamples |
| `MigrationScript.dfy` | the script's own loops, proved to send exactly those statements |
| `HistoricalRebuild.dfy`, `RebuildRunner.dfy` | one rebuild batch over a corpus, and the unattended runner over an arbitrary stream of batches |
| `IntelligenceBudget.dfy` | the five-stage intelligence run, its budgets and its run row |
| `DescriptorAccounting.dfy` | the ownership lock, the sockets and the release check, under every schedule |
| `SchemaEvolution.dfy` | diff, create, alter, backfill; the legacy-documents marker over any mix of events |
| `BudgetedReader.dfy` | the evidence reader object and its limits |
| `DailyCouncils.dfy` | one council's streamed run, and the job's exit code |
| `LocalPlanIngest.dfy` | reconciling one extraction with the stored allocations |
| `JointApplicants.dfy` | splitting joint applicants |
| `Benchmark.dfy` | call estimate against execution; outcome counts and self-agreement |
| `LifecycleEvidence.dfy` | the lifecycle harness and the validator of its evidence |

Code that changes things step by step is modelled as methods and classes and proved against
functions; the theorems are about those functions. Everything outside the repository's own
logic (OpenAI, HTTP, subprocesses, the clock, commits that may fail) is an argument of the
model and arbitrary: a theorem holds for every behaviour of it.

## Where the code and its own description differ

The model follows the code, and these are theorems:

- A table's parent ids are looked up in the SQLite source, which the docstring calls "equally
  authoritative". They are not when the parent row was itself excluded, or when a nullable
  self-reference dangles: the run then aborts. `MigrationRun.FreshRunSucceedsIff` gives the
  exact condition, `MigrationFacts.ExcludedParentAbortsRun` and
  `MigrationFacts.DanglingSelfReferenceAbortsRun` two inputs that fail it.
- The inserts are documented never to crash on a constraint, but their `ON CONFLICT` names the
  primary key only. A target in use that holds a source row under another id, with the same
  unique key, aborts the run (`MigrationFacts.UsedTargetAbortsRun`);
  `MigrationRun.PortableRunSucceedsIff` and `MigrationRun.RunSucceedsIff` are exact.
- A negative `--batch-size` copies nothing and reports success
  (`MigrationFacts.NegativeBatchCopiesNothing`, `MigrationFacts.CopiedIff`).
- "completed" is documented as "backlog genuinely empty". With a batch size of 0 or less it is
  reported at once whatever the backlog; `RebuildRunner.CompletedIsHonestIff` is the exact
  condition.
- The intelligence run promises a terminal state, but its recounts lie outside the guard:
  `IntelligenceBudget.ProcessBacklog` says exactly when the row stays "running". A negative cap
  makes it ask for a client it never uses (`IntelligenceBudget.ClientOnlyForWorkIff`).
- A printed code that spells another site's synthetic key can change a stored row's key
  (`LocalPlanIngest.KeyKeptIff`), and the next identical run then adds a row
  (`LocalPlanIngest.RenamedIsAddedAgain`): exactly when the key was left to no other row
  (`LocalPlanIngest.RerunAddsNothingIff`).
- The fixture server's record is exact only as long as no close releases its descriptor and
  then raises; after one that does, the release check cannot pass
  (`DescriptorAccounting.RecordIsExact`, `DescriptorAccounting.PassableIff`).
- With a negative repeat count the benchmark's estimate is not what a run executes
  (`Benchmark.EstimateIsExactIff`).
- The lifecycle harness compares with its baseline, the validator with zero
  (`LifecycleEvidence.CompletedAcceptedIff`).

## Model

| member | source | states |
|---|---|---|
| Migration.FirstDangling | scripts/migrate_to_postgres.py:312-316 | None exactly when no NOT NULL reference of the row dangles; otherwise the first column, in order, that does |
| MigrationScript.NullOutOrphanedNullableFks | scripts/migrate_to_postgres.py:248-276 | the cleaned rows, and per column a count equal to the number of cells nulled; a column with nothing nulled has no entry |
| MigrationScript.SplitDanglingRows | scripts/migrate_to_postgres.py:279-321 | the kept rows in order, and under each column exactly the rows whose first dangling column it is |
| MigrationScript.PrepareRows | scripts/migrate_to_postgres.py:166-191 | the insert rows with self-references nulled, and one deferred update per row that had any |
| MigrationScript.InsertBatches | scripts/migrate_to_postgres.py:370-373 | the batch loop executes exactly the INSERT statements of the plan and stops at the first rejection |
| MigrationScript.ApplyDeferred | scripts/migrate_to_postgres.py:377-384 | the second pass executes exactly the plan's UPDATE statements |
| MigrationScript.WriteTable | scripts/migrate_to_postgres.py:363-390 | inserts, updates, sequence reset and commit, in that order; newly_inserted is the number of kept keys that were absent before |
| MigrationScript.CopyTable | scripts/migrate_to_postgres.py:324-393 | a dry run and an empty table touch nothing; a zero batch size raises; otherwise exactly the table's program runs and the returned count is the kept rows |
| MigrationScript.RunMigration | scripts/migrate_to_postgres.py:396-424 | a real run is the execution of the whole program; a dry run reports the same total a completed real run does; with batch size 0 it stops exactly when some table keeps a row, the target untouched |
| MigrationScript.TargetConnection.ExecuteInsert | scripts/migrate_to_postgres.py:371-373 | one INSERT ... ON CONFLICT (pk) DO NOTHING against NOT NULL, the unique keys and the foreign keys, rolled back if rejected |
| MigrationScript.TargetConnection.ExecuteUpdate | scripts/migrate_to_postgres.py:381-384 | one UPDATE by primary key against NOT NULL, the unique keys it writes to and the foreign keys, rolled back if rejected |
| MigrationScript.TargetConnection.ExecuteSequenceReset | scripts/migrate_to_postgres.py:194-210 | the id sequence is set to the highest key, rows untouched |
| MigrationScript.TargetConnection.CommitWork | scripts/migrate_to_postgres.py:390 | the open transaction becomes durable |
| MigrationTable.TableExec | scripts/migrate_to_postgres.py:369-390 | from any target, one table's statements all pass exactly when the table is acceptable to it, for every batch size of at least 1 |
| MigrationRun.Restored | scripts/migrate_to_postgres.py:179-191 | what is inserted plus what is deferred is the whole resolved row: nothing is lost by null-then-backfill |
| MigrationRun.RunExec | scripts/migrate_to_postgres.py:408-418 | a whole run passes exactly when each table in turn is acceptable where the ones before it left off |
| MigrationRun.RunSucceedsIff | scripts/migrate_to_postgres.py:324-393 | into any target every INSERT and UPDATE satisfies primary key, unique keys, foreign keys and NOT NULL when it executes if and only if each kept row is complete, each new one has its parents among kept and present rows, self-references name such rows, and no new row shares a unique key with a present or another new row |
| MigrationRun.FreshRunSucceedsIff | scripts/migrate_to_postgres.py:324-393 | into a fresh target, by the source alone: each kept row is complete, names no excluded parent and only kept rows of its own table, and no two kept rows share a unique key |
| MigrationRun.FreshRunContents | scripts/migrate_to_postgres.py:324-393 | then each table durably holds exactly its kept rows, every self-reference (chains, cycles) restored, whatever the row order and batch size |
| MigrationRun.CellArrives | scripts/migrate_to_postgres.py:121-321 | the same from each source row, cell by cell: a row arrives exactly when every NOT NULL reference to another table names a source row; an orphaned nullable one is NULL; a zone-less date-time is the same instant in UTC; a NULL in a NOT NULL column with a default is the constant or the clock's reading; all else is verbatim |
| MigrationRun.PortableRunSucceedsIff | scripts/migrate_to_postgres.py:372 | under that proviso a run into a target already in use succeeds, adding exactly the kept keys, if and only if no kept row whose id is absent shares a unique key with a row the target has |
| MigrationResume.ExistingRowsKept | scripts/migrate_to_postgres.py:372-384 | a row already in the target keeps every column that is not a self-reference |
| MigrationResume.AlwaysClosed | scripts/migrate_to_postgres.py:369-390 | after any statements, stopped or rejected anywhere, the working and the durable target satisfy NOT NULL, every unique key and every foreign key |
| MigrationResume.RunAlwaysClosed | scripts/migrate_to_postgres.py:369-390 | in particular after every prefix of a run: no self-reference ever points at an absent row |
| MigrationResume.CutLeavesWholeTables | scripts/migrate_to_postgres.py:388-390 | cut after any statement, the durable state is that of some number of whole tables |
| MigrationResume.InterruptAndResume | scripts/migrate_to_postgres.py:396-421 | cut anywhere, lose the uncommitted work, rerun with any batch size and clock: same success and, up to clock-valued defaults, the same target as one uninterrupted run |
| MigrationFacts.RowsConserved | scripts/migrate_to_postgres.py:310-321 | the source rows are the kept rows plus the excluded ones, each excluded exactly once |
| MigrationFacts.KeptInOrder | scripts/migrate_to_postgres.py:310-321 | the kept rows are those without a dangling NOT NULL reference, in source order |
| MigrationFacts.OrphanCountIs | scripts/migrate_to_postgres.py:270-275 | the count reported for a column is the number of rows in which it was nulled |
| MigrationFacts.BatchesAre | scripts/migrate_to_postgres.py:370-373 | the batches send every row once, in order, each of the batch size but the last |
| MigrationFacts.ProgramEnds | scripts/migrate_to_postgres.py:386-390 | a table that keeps a row ends in a commit, after a sequence reset exactly for an integer key |
| MigrationFacts.NoIdCollision | scripts/migrate_to_postgres.py:194-210 | after a run the next generated id of a copied table is above every id in it |
| MigrationFacts.NegativeBatchCopiesNothing | scripts/migrate_to_postgres.py:370-374 | a negative batch size completes into a fresh target and leaves it as it was |
| MigrationFacts.CopiedIff | scripts/migrate_to_postgres.py:370-374 | a portable source run into a fresh target completes, and has copied its kept rows exactly when the batch size is positive or nothing was kept |
| MigrationFacts.UsedTargetAbortsRun | scripts/migrate_to_postgres.py:372 | a portable source and a target in use on which the run aborts: the same (council_code, reference) under another id |
| MigrationFacts.ValidityIsCheckedAgainstTheSource | scripts/migrate_to_postgres.py:294-308 | a grandchild of an excluded row is kept, because its parent is looked up in the source |
| MigrationFacts.ExcludedParentAbortsRun | scripts/migrate_to_postgres.py:294-308 | and that run aborts, for every batch size and clock |
| MigrationFacts.DanglingSelfReferenceAbortsRun | scripts/migrate_to_postgres.py:229-245 | a nullable self-reference gets no orphan check, so a dangling one aborts the run |
| HistoricalRebuild.Corpus.SelectCandidates | app/extraction/historical_rebuild.py:256-262 | the first `limit` not-yet-rebuilt applications with evidence, in order; none for a limit of 0 or less |
| HistoricalRebuild.SelectionUnique | app/extraction/historical_rebuild.py:223-240 | that description determines the selection |
| HistoricalRebuild.Corpus.ProcessOneCandidate | app/extraction/historical_rebuild.py:506-545 | the marker is set exactly on success; a crash counts as an error |
| HistoricalRebuild.Corpus.RunHistoricalRebuild | app/extraction/historical_rebuild.py:589-689 | over the cap it raises with nothing touched; otherwise the summary and the marked set are those of the selected applications |
| HistoricalRebuild.TallyComplete | app/extraction/historical_rebuild.py:548-566 | the counters account for every result once, and the failure count is the systemic ones |
| HistoricalRebuild.CountersCount | app/extraction/historical_rebuild.py:506-566 | each counter is the number of attempts of its kind; a crash is an error, and only a success has warnings |
| HistoricalRebuild.BatchConserves | app/extraction/historical_rebuild.py:628-680 | the remaining backlog falls by exactly as many as the rebuilt count rises, all of them selected |
| RebuildRunner.TrailingRun | scripts/run_historical_rebuild_to_completion.py:248-259 | the length of the run of systemic failures that ends the history |
| RebuildRunner.CountSystemic | scripts/run_historical_rebuild_to_completion.py:248-259 | over one batch the counter stops exactly when three systemic failures stand in a row in the concatenated results, else equals the trailing run |
| RebuildRunner.RunToCompletion | scripts/run_historical_rebuild_to_completion.py:211-301 | the reason is the verdict of the first batch that has one, exit 0 exactly for completed, totals are those of the batches that returned |
| RebuildRunner.RulesInOrder | scripts/run_historical_rebuild_to_completion.py:231-298 | which rule ends a batch, in numbers: an exception, three failures in a row, an empty selection, over a fifth of at least 5 attempts failed, nothing rebuilt by at least 2, an empty backlog |
| RebuildRunner.Totals.Add | scripts/run_historical_rebuild_to_completion.py:181-191 | every running total grows by the summary's |
| RebuildRunner.CompletedMeans | scripts/run_historical_rebuild_to_completion.py:248-298 | exit 0 if and only if no three in a row, every earlier batch selected and left something, failed at most a fifth of 5 or more attempts and rebuilt something in 2 or more, and the last selected nothing or, within the same limits, left nothing |
| RebuildRunner.ThirdFailureStops | scripts/run_historical_rebuild_to_completion.py:248-259 | a run of failures that straddles batches stops the job in the batch that completes three |
| RebuildRunner.MeasureFalls | scripts/run_historical_rebuild_to_completion.py:226-301 | 3 * remaining - trailing, less 3 per "no usable text" met, falls with every batch that does not stop |
| RebuildRunner.BatchesBounded | scripts/run_historical_rebuild_to_completion.py:76-109 | whatever the attempts do, a run from R remaining that goes on after n batches has counted N "no usable text" results with n < 3R + 3N |
| RebuildRunner.TextBoundIsExact | scripts/run_historical_rebuild_to_completion.py:96-109 | that bound is met: a run that never stops, with n one below 3R + 3N |
| RebuildRunner.StopsWithin | scripts/run_historical_rebuild_to_completion.py:76-109 | with no text missing at most max(1, 3R) batches run, so the cap is unreachable when it allows that many |
| RebuildRunner.BoundIsExact | scripts/run_historical_rebuild_to_completion.py:76-109 | 3R batches can all be needed |
| RebuildRunner.NoUsableTextNeverStops | scripts/run_historical_rebuild_to_completion.py:96-109 | without the evidence assumption a single application can be retried for ever |
| RebuildRunner.CompletedIsHonestIff | scripts/run_historical_rebuild_to_completion.py:261-298 | completed means an empty backlog exactly when the batch size is at least 1 or there was none |
| RebuildRunner.NonPositiveLimitCompletes | app/extraction/historical_rebuild.py:256-262 | a batch size of 0 or less completes at once with the backlog unchanged |
| RebuildRunner.OverLimitStopsAtOnce | app/extraction/historical_rebuild.py:589-593 | a batch size above 50 ends as a systemic exception in the first batch |
| IntelligenceBudget.Conserved | scripts/run_intelligence_processing.py:355-405 | for any stage, remaining plus attempted is always the plan |
| IntelligenceBudget.NeverOverdrawn | scripts/run_intelligence_processing.py:355-405 | a stage that keeps to its limits never makes its budget negative; a negative plan attempts nothing |
| IntelligenceBudget.SummariesExact | scripts/run_intelligence_processing.py:407-413 | greedy charging spends exactly the smaller of plan and backlog |
| IntelligenceBudget.SummariesAttempted | scripts/run_intelligence_processing.py:328-413 | so a run attempts exactly min(cap, backlog) summaries, even with a council listed twice |
| IntelligenceBudget.SummariesAddUpIff | scripts/run_intelligence_processing.py:408-413 | succeeded plus failed equals attempted exactly when no council generated more than it was charged for |
| IntelligenceBudget.SummaryCounters | scripts/run_intelligence_processing.py:408-413 | succeeded is what the calls made generated and failed their shortfalls, each call under what the backlogs before it left |
| IntelligenceBudget.AllGenerated | scripts/run_intelligence_processing.py:408-413 | if every call generates all it may, nothing failed and succeeded is attempted |
| IntelligenceBudget.CountersAreSums | scripts/run_intelligence_processing.py:366-405 | every counter of every stage is the sum of that counter over the reports of the calls it made |
| IntelligenceBudget.TotalOnce | scripts/run_intelligence_processing.py:296-319 | the backlog total counts a repeated council once and a disabled stage not at all |
| IntelligenceBudget.PlannedIs | scripts/run_intelligence_processing.py:328-332 | each stage may attempt the smaller of its own cap and its own backlog |
| IntelligenceBudget.IdleIff | scripts/run_intelligence_processing.py:334-338 | with positive caps a run is idle exactly when no enabled stage has a backlog |
| IntelligenceBudget.StageUnaffected | scripts/run_intelligence_processing.py:360-413 | what a stage is allowed and spends, council by council, does not depend on any other stage |
| IntelligenceBudget.ClientOnlyForWorkIff | scripts/run_intelligence_processing.py:328-353 | with work the run goes on to ask for a client; without work it stops before that exactly when no enabled cap is negative |
| IntelligenceBudget.CountBacklog | scripts/run_intelligence_processing.py:296-319 | the backlog by council and its total, a repeated council counted once; a raising read fails the block |
| IntelligenceBudget.SpendOnSummaries | scripts/run_intelligence_processing.py:407-413 | the charge of one council |
| IntelligenceBudget.RunCouncils | scripts/run_intelligence_processing.py:360-413 | completes exactly when every council is known and no call raises; otherwise the failure is that of the first lookup or stage to raise, and the counters hold exactly the calls that had returned by then |
| IntelligenceBudget.StoppedUnique | scripts/run_intelligence_processing.py:360-413 | there is one such stopping point: it determines the failure and every counter |
| IntelligenceBudget.StoppedInOrder | scripts/run_intelligence_processing.py:360-413 | the stages of a council run as refresh, allocation, extraction, summary, and the counters of a stopped run show it |
| IntelligenceBudget.BlockFailsOneWay | scripts/run_intelligence_processing.py:287-501 | what a failed block raises and leaves in the counters is determined by what it met: none before the loop, those of the stopping point in it, all of them if the applicant stage raises |
| IntelligenceBudget.GuardedWork | scripts/run_intelligence_processing.py:287-446 | the try block: when it completes, and otherwise which failure it raises with which counters; when it asks for a client, and what it writes for a missing key |
| IntelligenceBudget.PartialIff | scripts/run_intelligence_processing.py:144-168 | over the accumulated counters, partial exactly when some call the run really made, for whichever stage and council, reported a failure |
| IntelligenceBudget.SummaryFailsIff | scripts/run_intelligence_processing.py:408-413 | the summary stage reports a failure exactly when some call generated fewer than it could have attempted |
| IntelligenceBudget.FullSummariesSucceed | scripts/run_intelligence_processing.py:144-168 | a run whose summary calls all generate in full and whose other stages report no failure is a success |
| IntelligenceBudget.RecountIs | scripts/run_intelligence_processing.py:510-516 | the recount adds up the list as given and fails if any read does |
| IntelligenceBudget.ProcessBacklog | scripts/run_intelligence_processing.py:251-553 | all paths: the final row on success; on any exception in the block the whole failed row, with the counters of the calls that had returned (or the missing-key detail), and that same failure raised even when committing the row fails; durably "running" exactly when a commit or a recount outside the guard fails |
| DescriptorAccounting.StepKeepsInv | verification/stage1_fixture_descriptors.py:32-60 | every step of every thread keeps the accounting invariant |
| DescriptorAccounting.RecordIsExact | verification/stage1_fixture_descriptors.py:32-43 | whenever the lock is free every owned open socket is recorded under its identity, and the record holds nothing else if and only if no close has released its descriptor and then raised |
| DescriptorAccounting.FirstSnapshotIff | verification/stage1_fixture_descriptors.py:48-54 | the first snapshot passes if and only if the non-fixture descriptors equal the baseline |
| DescriptorAccounting.PassedMeansReleased | verification/stage1_fixture_descriptors.py:45-60 | if the check returns, the non-fixture descriptors equalled the baseline before any wait and the whole table equalled it later, with no fixture socket open |
| DescriptorAccounting.QuietNeverLeaks | verification/stage1_fixture_descriptors.py:53-58 | once the first snapshot has passed, whatever the fixture's threads do, an application that leaves its descriptors alone is never reported: the check waits, passes, or times out on a recorded socket; on a schedule without a time-out it never fails |
| DescriptorAccounting.DrainPasses | verification/stage1_fixture_descriptors.py:55-58 | from such a wait with no dead record there is a schedule, closing however many sockets remain, on which the check passes |
| DescriptorAccounting.PassableIff | verification/stage1_fixture_descriptors.py:38-58 | and some schedule passes if and only if no record is dead |
| DescriptorAccounting.DeadIsReachable | verification/stage1_fixture_descriptors.py:38-58 | from every start some run begins its wait clean and is left with only a dead record, after which no schedule passes |
| DescriptorAccounting.AbandonedIsReported | verification/stage1_fixture_descriptors.py:32-36 | a socket accepted but never recorded counts as one more non-fixture descriptor |
| DescriptorAccounting.FailureMeans | verification/stage1_fixture_descriptors.py:46-58 | what each failure proves about its moment; the missing assertion cannot fail, the ownership loop fails only on a dead record, and the wait fails only when it has run out with a socket still recorded |
| DescriptorAccounting.AccountedFixtureServer.GetRequest | verification/stage1_fixture_descriptors.py:32-36 | accept and record, or either raising: the new table, sockets and record, reached by the steps of the machine, lock released |
| DescriptorAccounting.AccountedFixtureServer.ShutdownRequest | verification/stage1_fixture_descriptors.py:38-43 | close and forget, a socket that stays open, or a close that raises after all: likewise, lock released |
| DescriptorAccounting.AccountedFixtureServer.CheckBeforeWait | verification/stage1_fixture_descriptors.py:45-57 | uninterrupted, the check fails, waits or goes on exactly by the lock, the dead records, the non-fixture descriptors and the open sockets |
| SchemaEvolution.DiffSound | app/db/session.py:68-87 | the diff lists exactly the missing tables and columns |
| SchemaEvolution.NothingMissingIff | app/db/session.py:90-97 | it is empty exactly when the schema is current |
| SchemaEvolution.Engine.DiffMissingColumns | app/db/session.py:68-97 | the loops compute that diff and change nothing |
| SchemaEvolution.Engine.CreateAll | app/db/session.py:264-268 | missing tables are created empty, existing ones untouched |
| SchemaEvolution.Engine.AddMissingColumns | app/db/session.py:100-122 | exactly the missing columns are added |
| SchemaEvolution.Engine.BackfillNulls | app/db/session.py:152-243 | cell by cell: the NULLs of one column of applications get its fill value and are counted; every other cell, row, column and table is as it was |
| SchemaEvolution.Engine.MigrateSchema | app/db/session.py:246-288 | afterwards the schema is current, and what was created, added and backfilled is reported |
| SchemaEvolution.AddedAre | app/db/session.py:100-122 | what is reported as added is what stored tables were missing; a created table has all its columns from the start |
| SchemaEvolution.BackfilledCounts | app/db/session.py:147-243 | each backfill counts exactly the rows that had a NULL there before the migration |
| SchemaEvolution.Engine.InitDb | app/db/session.py:321-343 | SQLite is migrated; any other database is left alone and refused exactly when not current |
| SchemaEvolution.MigrationKeepsData | app/db/session.py:100-243 | no table, column, row or non-NULL cell is lost or changed; a NULL attempt count becomes 0, a NULL refresh flag false, a NULL legacy marker whether some stored document names the application; documents_last_checked_at never changes |
| SchemaEvolution.NewTablesEmpty | app/db/session.py:266-268 | tables a migration creates are empty |
| SchemaEvolution.InterruptedMigration | app/db/session.py:264-286 | killed between any two transactions and rerun, the result is that of one run; a second run is a no-op |
| SchemaEvolution.PartWayMigration | app/db/session.py:100-122 | with any part of the CREATEs and ALTERs already applied, in any order, a migration ends in the same database as without |
| SchemaEvolution.InterruptedStatements | app/db/session.py:264-268 | in particular killed after any single CREATE or ALTER and rerun |
| SchemaEvolution.NoopIff | app/db/session.py:141-147 | a migration changes nothing exactly when the schema is current and nothing is NULL |
| SchemaEvolution.MarkerStep | app/pipeline/run_weekly.py:1467-1480 | all that any event can do to an application's marker and check time |
| SchemaEvolution.MarkerNeverReturns | app/db/session.py:191-200 | the marker never goes from False back to True, over any interleaving |
| SchemaEvolution.LegacyNeverRequeued | app/pipeline/run_weekly.py:165-174 | a legacy-marked application is never again eligible for routine discovery |
| SchemaEvolution.EligibleAfterMigrationIff | app/db/session.py:175-189 | which existing applications a migration leaves eligible |
| BudgetedReader.JudgedWithin | verification/committee_assessment_once.py:101-105 | one response passes its limit and the byte cap by at most one growth |
| BudgetedReader.ReadIff | verification/committee_assessment_once.py:93-118 | when a response is read, in numbers: no chunk over the response limit, the byte cap or the deadline, no break, and a body within its limits |
| BudgetedReader.FailureIs | verification/committee_assessment_once.py:87-122 | otherwise which failure it ends in, in the order the source looks for them |
| BudgetedReader.Reader.RefuseIs | verification/committee_assessment_once.py:82-88 | which calls are dispatched, and the first reason the others are not |
| BudgetedReader.Reader.ReadReply | verification/committee_assessment_once.py:93-118 | bytes are charged chunk by chunk and the outcome is the judged one |
| BudgetedReader.Reader.RecordOutcome | verification/committee_assessment_once.py:119-124 | the row and the per-host counts and blocks of the handler |
| BudgetedReader.Reader.Get | verification/committee_assessment_once.py:78-127 | refused calls change nothing; every call keeps: requests are the audit and at most 250, bytes are the audit's and within the cap plus one growth, dispatches half a second apart, none to a blocked host, at most three access failures per host |
| DailyCouncils.LatestCheckpoint | scripts/run_daily_councils.py:324-351 | the last memory line so far, cut to 4000 characters, or none |
| DailyCouncils.StatusLineIff | scripts/run_daily_councils.py:137-142 | what a line reports: success, partial or failed exactly if it begins with that status field and the word ends there |
| DailyCouncils.ScrapeRun.OnLine | scripts/run_daily_councils.py:315-362 | one line: tail, durable checkpoint or health; nothing durable changes if the commit raises |
| DailyCouncils.RunCouncilSubprocess | scripts/run_daily_councils.py:253-264 | every line reaches the handler in order; a fired timer outranks the exit code |
| DailyCouncils.RunOneCouncil | scripts/run_daily_councils.py:267-448 | after every line of the output the durable row, read from the store, is "running" with the latest checkpoint; a returned run has the final row; a raised one leaves "running" |
| DailyCouncils.HealthyIff | scripts/run_daily_councils.py:397-400 | healthy exactly for a clean exit before the timer whose last report is not failed |
| DailyCouncils.PartialIff | scripts/run_daily_councils.py:397-400 | of the clean runs, partial exactly when the last report says so, success when it says that or there is none |
| DailyCouncils.FinalDetailIs | scripts/run_daily_councils.py:404-414 | the final detail is the last 4000 characters of the last 200 lines |
| DailyCouncils.OutputIs | scripts/run_daily_councils.py:366-378 | those lines are what was read and, if the run was cut, the reason |
| DailyCouncils.HealthyMeans | scripts/run_daily_councils.py:472-521 | a council counts as healthy exactly when every step of its bookkeeping went through and its run did not fail |
| DailyCouncils.RunAllCouncils | scripts/run_daily_councils.py:472-521 | exit 0 exactly when every attempted council left a success or partial record |
| LocalPlanIngest.KeysCollideIff | ingest_local_plan.py:82-91 | when two entries share a key |
| LocalPlanIngest.KeyIs | ingest_local_plan.py:82-91 | the key is the printed code, or a prefix and the name if that is missing or empty |
| LocalPlanIngest.Store.RecordPlan | ingest_local_plan.py:115-164 | a stored plan keeps version and status; a difference is queued |
| LocalPlanIngest.Store.IndexRows | ingest_local_plan.py:173-177 | the rows by key, last one wins, keys in first-met order |
| LocalPlanIngest.Store.ReconcileSites | ingest_local_plan.py:205-292 | rows and events after the extracted sites |
| LocalPlanIngest.Store.FlagUnseen | ingest_local_plan.py:305-318 | rows and events after the unseen allocations |
| LocalPlanIngest.Store.Ingest | ingest_local_plan.py:173-320 | the whole new state of rows and events |
| LocalPlanIngest.FactsKept | ingest_local_plan.py:248-283 | nothing deleted, no trusted fact changed; each stored row afterwards, field by field: the latest wording if it is met, and review exactly on a different minimum, a capacity the extraction never states, or absence |
| LocalPlanIngest.NewSiteIs | ingest_local_plan.py:223-247 | a site whose key is not stored becomes a row, field by field, with an applied event of its own |
| LocalPlanIngest.AddedCount | ingest_local_plan.py:223-247 | and nothing else becomes one |
| LocalPlanIngest.StoredSiteEventIs | ingest_local_plan.py:252-273 | the event of a stored site, applied exactly when the facts agree |
| LocalPlanIngest.LaterEventsAreRemovals | ingest_local_plan.py:305-318 | every later event is a queued removal of an unmentioned row |
| LocalPlanIngest.UnseenQueuedOnce | ingest_local_plan.py:299-318 | an unmentioned allocation gets exactly one event, a queued removal |
| LocalPlanIngest.SeenQueuedOnce | ingest_local_plan.py:252-273 | a mentioned one gets exactly one event, queued exactly when capacities differ |
| LocalPlanIngest.KeyKeptIff | ingest_local_plan.py:275-283 | when refreshing the wording changes a stored key |
| LocalPlanIngest.PlainCodesNeverRename | ingest_local_plan.py:82-91 | never, if no printed code begins with the synthetic prefix |
| LocalPlanIngest.RerunAddsNothingIff | ingest_local_plan.py:205-283 | the same extraction again, under any plan status, adds no row if and only if every row it renamed left its key to another stored row |
| LocalPlanIngest.RerunAddsNothing | ingest_local_plan.py:205-247 | so with no row renamed it adds none |
| LocalPlanIngest.PlainRerunAddsNothing | ingest_local_plan.py:82-91 | in particular with no printed code that begins with the synthetic prefix |
| LocalPlanIngest.RenamedIsAddedAgain | ingest_local_plan.py:205-283 | an input on which it does |
| JointApplicants.SuffixBranch | app/enrichment/companies_house.py:60-69 | any boundary gives at least two trimmed, non-empty parts, all but the last ending in a suffix, with exactly the input's non-blank characters |
| JointApplicants.ConjunctionBranch | app/enrichment/companies_house.py:70-71 | the input is the parts with valid separators between them, and no part contains another |
| JointApplicants.FindBoundaries | app/enrichment/companies_house.py:51-59 | the loop finds, in increasing order, exactly the ends of a legal suffix that stand before a capitalised name |
| JointApplicants.BoundariesExact | app/enrichment/companies_house.py:51-59 | so does scanning from any position: matches that overlap end together, and none is missed |
| JointApplicants.SuffixIs | app/enrichment/companies_house.py:32 | the suffixes: ltd, limited, llp, plc, in any case, to the end of the word |
| JointApplicants.BoundaryIff | app/enrichment/companies_house.py:53-59 | what follows a boundary: blanks, then a capital |
| JointApplicants.SeparatorIff | app/enrichment/companies_house.py:70 | a separator: blanks, "and" in any case, blanks |
| JointApplicants.PartIs | app/enrichment/companies_house.py:60-66 | each part is the trimmed text between two cuts |
| JointApplicants.SplitJointCompanies | app/enrichment/companies_house.py:35-71 | both branches; the length guard never falls through |
| Benchmark.EstimateCallPlan | scripts/run_agent_evaluation_benchmark.py:96-111 | the estimate's totals and its line per configuration |
| Benchmark.RunRealBenchmark | scripts/run_agent_evaluation_benchmark.py:151-183 | refuses any unapproved case, otherwise one record per executed repeat |
| Benchmark.BaseCallsIs | scripts/run_agent_evaluation_benchmark.py:101-107 | the estimate for one configuration, from the numbers of cases that call a model once and repeatedly |
| Benchmark.RunsAre | scripts/run_agent_evaluation_benchmark.py:163-182 | what is executed is every repeat of every case that calls a model under every configuration, and nothing else |
| Benchmark.EstimateIsExactIff | scripts/run_agent_evaluation_benchmark.py:96-183 | a run executes exactly the estimated calls if and only if repeats are not negative, nothing is repeated or there is no configuration |
| Benchmark.PerConfigExact | scripts/run_agent_evaluation_benchmark.py:101-109 | and per configuration |
| Benchmark.OutcomesPartition | benchmark/scoring.py:192-195 | the three counts add up to the runs |
| Benchmark.ScorecardCounts | benchmark/scoring.py:78-85 | critical incidents are the runs that were one automatically or by review; passes those that neither faulted |
| Benchmark.CaseAgreementIs | benchmark/scoring.py:204-211 | a case contributes exactly if it was run twice and recommended something: the share of its commonest recommendation |
| Benchmark.ConsistencyIsMean | benchmark/scoring.py:212 | the rate is their plain mean |
| Benchmark.ConsistencyRange | benchmark/scoring.py:207-216 | self-agreement is in (0, 1], and 1 exactly when every repeated case agrees with itself |
| Benchmark.ConsistencyPermutes | benchmark/scoring.py:204-216 | it does not depend on the order of the records |
| Benchmark.SelfAgreement | benchmark/scoring.py:204-216 | the grouping loop computes it |
| LifecycleEvidence.Validate | verification/stage1_lifecycle_evidence.py:15-36 | accepts exactly complete, balanced, resource-free evidence with a matching completion line |
| LifecycleEvidence.AcceptableIff | verification/stage1_lifecycle_evidence.py:15-33 | what accepted evidence is, field by field |
| LifecycleEvidence.ExpectedIs | verification/stage1_lifecycle_evidence.py:7-12 | the 49 stages and their order |
| LifecycleEvidence.Harness.Run | verification/ui_session_apptest.py:47-60 | one stage: its snapshot and whether the harness's assertions hold |
| LifecycleEvidence.Harness.Produce | verification/ui_session_apptest.py:62-106 | all stages in order, stopping at the first that raises or fails an assertion; a completion line only at the end; the validator accepts the result exactly for a completed run from a zero baseline |
| LifecycleEvidence.IncompleteRejected | verification/stage1_lifecycle_evidence.py:20-21 | evidence of fewer stages than expected is rejected whatever the log says |
| LifecycleEvidence.CompletedAcceptedIff | verification/stage1_lifecycle_evidence.py:19-33 | a completed run is accepted exactly when its baseline was zero |
| LifecycleEvidence.AbortedRejected | verification/stage1_lifecycle_evidence.py:24-33 | a run ended by a failed assertion or by a stage that raised is rejected whatever the log says |

## Left out

- Migration: primary keys have one column and a column has at most one foreign key, as in `app/db/models.py`; CHECK constraints, types and lengths of the target are not modelled. No unique key holds a self-reference or a clock default, as there; the source is not assumed to satisfy its unique keys, only its primary keys. SQL text, connections and `DATABASE_URL` checks are left out. A negative batch size is `MigrationFacts.NegativeBatchCopiesNothing`.
- Migration: callable defaults are read from an arbitrary clock per table, row and column; the only other timestamps are values.
- HistoricalRebuild: the family evidence check and the refresh itself are arbitrary inputs; the selection order is fixed during a run, and the dry run, the scope filters and their counters are not modelled.
- RebuildRunner.StopsWithin: assumes that no attempt on an application selected for its evidence reports "no usable text"; `RebuildRunner.BatchesBounded` is the bound without it, and `RebuildRunner.NoUsableTextNeverStops` shows that it needs their number.
- IntelligenceBudget: the stages are arbitrary per council and limit; a stage's attempted count is only bounded where a theorem says so. The applicant stage's counters other than its failures are not stored by the source either.
- DescriptorAccounting: a descriptor snapshot is taken atomically (the `/proc` listing is not), the application closes only its own descriptors, and there is one checking thread. Notification is a step that may always wake the waiter. An abandoned socket counts as nobody's until it is closed; the collector that closes it is an application close.
- DescriptorAccounting.DrainPasses: exhibits one schedule; that threads are scheduled fairly enough to reach it within the two seconds is not modelled.
- SchemaEvolution: constraint and type clauses of ALTER TABLE; rows are never deleted by the modelled events.
- BudgetedReader: URL syntax and content checks are classified inputs; the links, dates and signals extracted from pages, and interruption by a signal, are left out. `assess` and `bounded_checkpoint` only call the reader and cap one file.
- DailyCouncils: printing, memory logging, process-group kills, undecodable output and `_summarize_error`; whether the timer has fired is an input, so every race of timer and child is covered.
- LocalPlanIngest: matching to existing sites, geocoding, `classify_progression` and the JSON of proposed data; an event carries its row, kind and whether it was applied.
- JointApplicants: ASCII letters and blanks only; Unicode case and spaces, `normalise_name` and fuzzy scores are left out.
- Benchmark: token, cost and wall-clock means, `_select_cases` and `ModelConfig.parse`.
- LifecycleEvidence: the completion line is a record of numbers, not text; the pool's own count is its baseline plus checkouts minus checkins.
- Thin command-line wrappers, one-off data fixes and browser checks: they only parse, delegate or drive I/O.
