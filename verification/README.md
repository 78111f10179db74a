# BCMS: a verified model of the budget-collection backend

BCMS collects yearly budgets: a cycle is opened, every filing unit receives a template, uploads new
versions of its budget, and finance reads one consolidated report. This project models the logic behind
that in Dafny and proves what the code promises.

| file | what it models |
|---|---|
| `Uploads.dfy` | versioned uploads as a protocol of interleaved sessions, and one session's call |
| `LatestTotals.dfy`, `CycleTotals.dfy`, `Totals.dfy` | the "latest version" amounts behind the report |
| `Report.dfy` | the consolidated report: outer join, scope, placeholders, conservation |
| `Consolidation.dfy` | from the uploads of any concurrent run to the columns of the report |
| `DeltaPct.dfy`, `Rounding.dfy`, `Text.dfy` | the delta-percent cell: 28-digit division, then half-up |
| `Jobs.dfy` | the durable job queue with any number of workers |
| `AuditChain.dfy`, `Json.dfy`, `JsonReader.dfy` | the hash-chained audit log, its canonical JSON, and a reader of it |
| `OrgTree.dfy` | descendant closure, data scope, and the two walks up the org tree |
| `Templates.dfy` | template generation with per-unit isolation, and download |
| `Cycles.dfy` | the cycle life cycle, with interleaved requests |
| `SharedCosts.dfy` | which units a new shared-cost version affects, and what they are told |
| `Actuals.dfy` | the atomic import of actual expenses |
| `Sessions.dfy` | login sessions and refresh-token rotation |
| `Amounts.dfy`, `BudgetRows.dfy`, `Repr.dfy` | money parsing, the collect-then-report validator, and the texts its reasons echo |
| `Common.dfy` | options, results, and filtered table scans |

## How the model stands for the code

- A table is a sequence of rows in an arbitrary physical order, or a map by primary key; WHERE and ORDER BY
  are functions, and UNIQUE and CHECK constraints are tested where the database tests them, at the flush or
  the commit.
- `Uploads`, `Jobs`, `Cycles`, `Actuals` and `Sessions` have two layers. The protocol layer (`Apply`, `Run`)
  interleaves the atomic database steps of any number of sessions and workers, with faults between any two, and
  its results hold for every run.
  In `Sessions` a step is a whole request, and a second protocol (`OApply`, `ORun`) splits the refreshes that
  overlap into their load and their commit. The class layer follows the code's own methods; `CallIsASchedule`
  lemmas, and `Sessions.RequestIsLoadAndCommit`, tie its calls to schedules of the protocols.
- An exception is a `Result` or an absent value. Which step raises is an input (`fault`), so results hold
  for every choice of it. A commit that raises has not taken effect, and a rollback succeeds.
- Money is an integer number of cents and an id a number. UUIDs print as fixed-width hexadecimal, so sorting
  their text is sorting the numbers. Clocks, fresh ids, random tokens and file keys are parameters.

## Where the code and its documentation part

- `open` is documented as Draft only; it also accepts every Closed cycle, whenever it was closed, and so
  steps around the reopen window (`Cycles.AcceptedRows`, `Cycles.OpenIgnoresTheWindow`).
- The reopen window counts whole days: with 30 days a cycle can be reopened until just before day 31.
- `parse_amount(allow_zero=False)` tests for zero before it rounds, so half a cent or less becomes 0.00
  (`Amounts.ZeroFromPositive`); the line tables' CHECK then refuses the upload at its commit.
- "Any non-zero change" makes a unit affected; a unit on one side only with a total of zero is affected too
  (`SharedCosts.AffectedMeansNonZeroDeltaIff`), which stored versions cannot have.
- A delta-percent cell can read `-0.0` (`DeltaPct.NegativeZeroCell` says exactly when, `DeltaPct.ReadsNegativeZero`
  gives two).
- A running job's row can still change exactly while a live worker holds it (`Jobs.RunningCanChangeIffHeld`), so
  a job whose worker died after its claim stays `running` for good (`Jobs.CrashAfterClaimStrands`).
- The API registers the `report_export` handler in its own process; the worker's loop calls a registration that
  registers nothing. A job of a type that the workers have not registered is failed by its first attempt
  (`Jobs.UnregisteredJobFails`); every job has a handler exactly when all types that can be enqueued are
  registered in the workers too (`Jobs.EveryJobHasAHandlerIff`).
- An upload or template whose audit row fails is reported as failed although it is committed; for a
  template, an error result without an id can stand for a committed generated row.
- A unit with actuals but no budget has its key rows and a placeholder row as well (`Report.ReportShape`).
- Every date range of a sound audit log verifies exactly when its clock only ever moved one way
  (`AuditChain.EveryRangeVerifiesIffMonotone`); calls at the instants 0, 10 and 5 break the range from 0 to 5
  (`AuditChain.BackwardClockBreaksARange`). A single range verifies exactly when it selects a contiguous run.
- `_walk_uplines` keeps no visited set; it ends exactly when the chain stops within one more ancestor than
  there are units (`OrgTree.WalkEndsIffStopsSoon`), as every chain of an acyclic table does; on two units that
  are each other's parent it never ends (`OrgTree.CyclicWalkNeverEnds`).
- A reminder can copy a reviewer who may not see the unit it is about: one who also manages a filing unit or
  also reviews another company (`OrgTree.CopiedWithoutScope`; the exact condition is
  `OrgTree.CopiedReviewersMaySeeIff`).
- UPLOAD_006 is meant for negative amounts, but it is chosen by a search in the error text, which quotes the
  cell: text cells that contain "non-negative", or a line feed followed by "on-negative", get it as well
  (`BudgetRows.Upload006MeansNegativeIff`, `BudgetRows.NotNumericReportedAsNegative`).
- A refresh does not test at its commit that the row it loaded is still live. Two overlapping refreshes of one
  token both succeed (`Sessions.OverlappingRefreshesBothSucceed`), and a refresh that overlaps a logout undoes it
  (`Sessions.LogoutIsOvertakenByRefresh`). Overlapping requests are whole requests one after the other exactly
  when every commit finds its row live (`Sessions.SerializesIffCommitsFindLive`), and a lineage keeps at most one
  live session exactly when no commit finds another one live (`Sessions.OneLiveIffCommitsAlone`).
- Two overlapping imports of actuals for one cycle can both stay (`Actuals.OverlappingImportsBothStay`); imports
  replace each other as documented exactly when no commit finds rows its delete had not seen
  (`Actuals.SerialIffNoneMissed`).
- The audit row of a shared-cost import is never committed by the import. It is kept exactly when a notifier that
  commits sends a notice afterwards (`SharedCosts.FinishImport`); the application wires no notifier, and its own
  `NotificationService.send`, documented to commit, only flushes.
- An update sends the columns that changed since the load, so a user who closes a reopened cycle for the second
  time can leave another user's name beside their own closing time (`Cycles.StaleCloseKeepsTheOthersName`; the
  exact condition is `Cycles.StoresItsColumnsIff`).
- A unit whose last upload has no lines reads as not uploaded (`Consolidation.PlaceholderIff`).

## Model

| member | source | states |
|---|---|---|
| `Uploads.ReachableInv` | backend/src/app/domain/budget_uploads/service.py:342-392 | in every interleaving with faults: versions gap-free, headers complete, audits name uploads, open inserts on distinct slots |
| `Uploads.CommittedVersionsAreOneToN` | backend/src/app/infra/db/helpers.py:49-58 | the committed versions of every key are exactly 1, 2, ..., n in commit order |
| `Uploads.CommittedHeadersAreComplete` | backend/src/app/domain/budget_uploads/service.py:349-391 | at every point of every run each committed header has exactly row_count committed lines, and no line is an orphan |
| `Uploads.AuditRowsNameCommittedUploads` | backend/src/app/domain/budget_uploads/service.py:163-190 | every committed audit row names a committed upload with that key, version and row count |
| `Uploads.InsertRefusedIffOvertaken` | backend/alembic/versions/0001_baseline.py:495-497 | the unique constraint refuses an insert exactly when its version was overtaken; otherwise the version is the next one |
| `Uploads.CommittedRowsStay` | backend/src/app/domain/budget_uploads/service.py:342-392 | committed headers, lines and audit rows are never changed or removed by any continuation |
| `Uploads.LatestIsLastCommitted` | backend/src/app/domain/budget_uploads/repo.py:66-91 | the highest version of a key is the upload committed last |
| `Uploads.CommittedUploadsHoldTheirRows` | backend/src/app/domain/budget_uploads/service.py:366-391 | in every run each committed upload holds, line by line and in order, the unit, account and amount of the rows of a call for its key, and those rows meet the constraints |
| `Uploads.FinishedAreAudited` | backend/src/app/domain/budget_uploads/service.py:163-190 | a session that has finished has its audit row committed |
| `Uploads.FaultIsFinal` | backend/src/app/domain/budget_uploads/service.py:349-391 | a fault loses what its session had not committed, for good |
| `Uploads.InsertOutcome` | backend/src/app/domain/budget_uploads/service.py:349-364 | an insert waits, fails or is pending, by what holds its key and version and by the row limit |
| `Uploads.AdmissibleIff` | backend/alembic/versions/0001_baseline.py:495-497 | the three tests on the way are the constraints: 5000 rows, no account twice, no zero amount |
| `Uploads.NextVersion` | backend/src/app/infra/db/helpers.py:24-58 | the filter loop yields one more than the largest version among the rows that match all filters |
| `Uploads.UploadService.PersistUploadAndLines` | backend/src/app/domain/budget_uploads/service.py:309-392 | exactly for admissible rows and no fault the tables gain one header with the next version and one line per row, holding its unit, resolved account and amount; else they stay as they were |
| `Uploads.UploadService.Upload` | backend/src/app/domain/budget_uploads/service.py:163-190 | persist, then audit: what is stored as above, one audit row with the upload's key, version and count beside it, and what each fault leaves behind |
| `Uploads.CallIsASchedule` | backend/src/app/domain/personnel/service.py:333-384 | an accepted call is a run of the protocol, stopped anywhere; the same for uploads versioned per cycle |
| `Uploads.RefusedCallIsASchedule` | backend/src/app/domain/budget_uploads/service.py:342-392 | a call whose rows do not resolve or break a constraint is a run too, one that stores nothing however far it gets |
| `LatestTotals.BudgetUploadRepo.GetLatestByCycle` | backend/src/app/domain/budget_uploads/repo.py:94-149 | the single pass returns the totals of the lines of each unit's maximum-version upload |
| `LatestTotals.FirstSeenPerUnit` | backend/src/app/domain/budget_uploads/repo.py:118-132 | in a version-descending scan the first upload seen for a unit is one of maximal version |
| `LatestTotals.LatestAreSelected` | backend/src/app/domain/budget_uploads/repo.py:118-139 | the uploads so chosen are exactly the latest ones |
| `LatestTotals.LatestAmountsConserve` | backend/src/app/domain/budget_uploads/repo.py:137-149 | the map's values add up to all the lines of the latest uploads |
| `LatestTotals.LatestAmountsOrderFree` | backend/src/app/domain/budget_uploads/repo.py:118-149 | the map does not depend on the physical order of either table |
| `CycleTotals.CycleUploadRepo.GetLatestByCycle` | backend/src/app/domain/personnel/service.py:258-297 | the totals per unit and account of the cycle's one latest upload |
| `CycleTotals.LatestAmountsConserve` | backend/src/app/domain/shared_costs/service.py:307-332 | the map's values add up to the lines of the cycle's latest upload; without one the map is empty |
| `Totals.TotalsConserve` | backend/src/app/domain/shared_costs/helpers.py:87-99 | accumulating amounts per key neither loses nor doubles an amount |
| `Totals.TotalsPermute` | backend/src/app/domain/shared_costs/helpers.py:87-99 | the totals do not depend on the order of the rows |
| `Report.ReportService.Build` | backend/src/app/domain/consolidation/report.py:111-216 | the rows are the sorted key pass followed by the placeholder pass, and read field by field as ReportReads says |
| `Report.SortKeys` | backend/src/app/domain/consolidation/report.py:152-160 | the keys of the four maps, ascending by unit and then account |
| `Report.ScopeRestriction` | backend/src/app/domain/consolidation/report.py:139-202 | the report of a scope holds exactly the rows of the unrestricted report whose unit is in scope, with multiplicity |
| `Report.ReportShape` | backend/src/app/domain/consolidation/report.py:139-202 | one row per in-scope known key in order, then one placeholder per in-scope unit without budget, and nothing else |
| `Report.ReportReads` | backend/src/app/domain/consolidation/report.py:139-305 | every row of every report field by field: names and code, the four amounts with the aggregate levels, delta and percentage, the order of the keys, and the placeholders |
| `Report.ColumnsConserve` | backend/src/app/domain/consolidation/report.py:221-281 | each of the four amount columns of any scope's report adds up to the part of its own source that it shows |
| `Report.RowDeltas` | backend/src/app/domain/consolidation/report.py:221-305 | a row's delta is there exactly when both amounts are, and is their difference; the percentage reads as the exact quotient rounded once, and is N/A exactly without a delta or with an actual of zero |
| `Report.ReportCarriesLatestUploads` | backend/src/app/domain/consolidation/report.py:139-163 | end to end: the unrestricted column adds up to the lines of the latest uploads |
| `Consolidation.ReachableTablesAreWellKeyed` | backend/alembic/versions/0001_baseline.py:495-497 | the tables left by any run of concurrent uploads have the keys the report's sources rely on |
| `Consolidation.LatestBudgetIsLastCommitted` | backend/src/app/domain/budget_uploads/repo.py:118-139 | in every run the upload of highest version of a unit is the one committed last |
| `Consolidation.LatestOfCycleIsLastCommitted` | backend/src/app/domain/personnel/service.py:258-297 | the same for uploads versioned per cycle |
| `Consolidation.OperationalColumnIsLastCommitted` | backend/src/app/domain/consolidation/report.py:139-163 | whatever run filled the tables, the unrestricted operational column adds up to the last committed upload of each unit |
| `Consolidation.CycleColumnIsLastCommitted` | backend/src/app/domain/consolidation/report.py:139-163 | the personnel or shared-cost column, with the part of the units it hides, adds up to the cycle's last committed upload |
| `Consolidation.UploadIsItsRows` | backend/src/app/domain/budget_uploads/service.py:366-391 | what an upload stores adds up to the rows it was called with |
| `Consolidation.OperationalColumnIsUploadedRows` | backend/src/app/domain/consolidation/report.py:139-163 | from the input: the column adds up to the rows of the call committed last for each unit |
| `Consolidation.BudgetSourceHoldsRows` | backend/src/app/domain/budget_uploads/repo.py:118-149 | cell by cell the budget source holds those rows, each amount under its unit and account, and for the unit nothing else |
| `Consolidation.CycleSourceHoldsRows` | backend/src/app/domain/personnel/service.py:258-297 | the same for a source of uploads per cycle |
| `Consolidation.HasBudgetIff` | backend/src/app/domain/consolidation/report.py:174-180 | a unit counts as uploaded exactly when its last committed upload of the cycle has lines |
| `Consolidation.PlaceholderIff` | backend/src/app/domain/consolidation/report.py:174-202 | a unit has its one placeholder exactly when it is in scope and has no committed upload, or one without lines as its last |
| `Consolidation.ResolveScope` | backend/src/app/domain/consolidation/report.py:105-109 | the report's scope is what the user's roles may see |
| `Consolidation.UserSeesTheirPart` | backend/src/app/domain/consolidation/report.py:139-202 | a user's report holds exactly the rows of the unrestricted one about units the user may see |
| `Consolidation.FetchActuals` | backend/src/app/domain/consolidation/report.py:350-371 | the totals of the cycle's expenses per unit and account |
| `Consolidation.SourceIsLastImport` | backend/src/app/domain/consolidation/report.py:350-371 | after an import these are the imported amounts, each under its own key, and nothing else |
| `Consolidation.ActualColumnIsLastImport` | backend/src/app/domain/consolidation/report.py:133-163 | the unrestricted actual column adds up to the file imported last for the cycle |
| `DeltaPct.TwoRoundingsAreOne` | backend/src/app/domain/consolidation/report.py:298-305 | rounding half-even to 28 digits and then half-up to 0.1 is one exact half-up rounding, on all Numeric(18,2) amounts |
| `DeltaPct.DeltaPctIsExactlyRounded` | backend/src/app/domain/consolidation/report.py:283-305 | the two roundings of the code leave the text of the exact quotient rounded half-up once |
| `DeltaPct.Normalize` | backend/src/app/domain/consolidation/report.py:303-303 | the scaling of a decimal division: exactly 28 integer digits |
| `DeltaPct.TenthsTextInjective` | backend/src/app/domain/consolidation/report.py:304-305 | different signs or values give different cells |
| `DeltaPct.TenthsTextReads` | backend/src/app/domain/consolidation/report.py:304-305 | the text reads back: sign, numeral without leading zeros, point, one digit, together so many tenths |
| `DeltaPct.DeltaPctReads` | backend/src/app/domain/consolidation/report.py:283-305 | read as a number the cell is 100 * (budget - actual) / actual to the nearest tenth, a half going away from zero |
| `DeltaPct.HundredOverElevenHundred` | backend/src/app/domain/consolidation/report.py:298-305 | 1,200.00 against 1,100.00 is 9.1 |
| `DeltaPct.NegativeZeroCell` | backend/src/app/domain/consolidation/report.py:298-305 | exactly when the cell reads -0.0 |
| `DeltaPct.ReadsNegativeZero` | backend/src/app/domain/consolidation/report.py:298-305 | 9,999.99 against 10,000.00 reads -0.0, and so does no change of a negative actual |
| `Jobs.ReachableInv` | backend/src/app/infra/jobs/worker.py:39-157 | the invariant of any number of interleaved workers with crashes, whatever the enqueuer and the workers have registered |
| `Jobs.MutualExclusion` | backend/src/app/infra/jobs/worker.py:48-87 | no job is ever held by two live claims |
| `Jobs.RowsMoveOnlyByTheirClaimant` | backend/src/app/infra/jobs/worker.py:92-157 | a row moves only queued to running by its claim and onwards by its claimant; final states are absorbing |
| `Jobs.ReportDecidesByAttempts` | backend/src/app/infra/jobs/worker.py:110-155 | success is final; a raise is final exactly when the attempts are used up, else the job is queued again |
| `Jobs.AttemptsAreBounded` | backend/src/app/infra/jobs/worker.py:110-141 | queued jobs have attempts left, no job has more than max(1, jobs_max_attempts), and its handler runs at most as often |
| `Jobs.EnqueueAddsTheJob` | backend/src/app/infra/jobs/__init__.py:108-131 | an enqueue adds the one row, queued at its time and never attempted, unless its type is not registered |
| `Jobs.ClaimsTakeTheOldest` | backend/src/app/infra/jobs/worker.py:48-71 | a claim takes exactly a queued job that no other worker has locked and before which no such job was enqueued |
| `Jobs.HandlerCallsAreCounted` | backend/src/app/infra/jobs/worker.py:110-111 | the count of handler calls moves with the claimant's handler call and with nothing else |
| `Jobs.AbortReleases` | backend/src/app/infra/jobs/worker.py:88-90 | a claim that is rolled back leaves the row for any worker to take |
| `Jobs.CrashIsFinal` | backend/src/app/infra/jobs/worker.py:169-181 | a crashed worker changes nothing and never acts again |
| `Jobs.StrandedForever` | backend/src/app/infra/jobs/worker.py:87-92 | a running row that no worker holds never changes again |
| `Jobs.CrashStrands` | backend/src/app/infra/jobs/worker.py:87-92 | a crash of the worker holding a job leaves such a row |
| `Jobs.CrashAfterClaimStrands` | backend/src/app/infra/jobs/worker.py:72-92 | enqueue, claim, crash: a run from the empty queue that loses its job |
| `Jobs.HeldCanChange` | backend/src/app/infra/jobs/worker.py:92-157 | the worker holding a job can finish it |
| `Jobs.RunningCanChangeIffHeld` | backend/src/app/infra/jobs/worker.py:92-157 | a running row can still change exactly when some worker holds it |
| `Jobs.UnhandledNeverRuns` | backend/src/app/infra/jobs/worker.py:92-108 | in every run a job whose type no worker has registered is claimed at most once and its handler never runs |
| `Jobs.UnregisteredJobsOnlyFail` | backend/src/app/infra/jobs/__init__.py:73-109 | a job of a type the workers have not registered never succeeds, is claimed at most once, and is failed when it ends |
| `Jobs.UnregisteredJobFails` | backend/src/app/infra/jobs/worker.py:92-108 | for every such type that can be enqueued: a run from the empty queue that fails its job at the first attempt |
| `Jobs.EveryJobHasAHandlerIff` | backend/src/app/infra/jobs/__init__.py:73-109 | every job of every run has a handler exactly when all that can be enqueued is registered in the workers |
| `Jobs.TypeCanSucceedIff` | backend/src/app/infra/jobs/worker.py:92-157 | a type can succeed exactly when it is registered on both sides |
| `Jobs.ClaimedCanSucceedIff` | backend/src/app/infra/jobs/worker.py:92-157 | a claimed job can still succeed exactly when its type is registered in the workers |
| `Jobs.QueuedJobIsClaimable` | backend/src/app/infra/jobs/worker.py:48-71 | as long as a job is queued and no claim is in flight, every idle worker can lock the oldest one |
| `Jobs.CallIsASchedule` | backend/src/app/infra/jobs/worker.py:39-157 | a call of process_once is a run of the protocol beside whatever the other workers hold |
| `Jobs.ProductiveStepsDescend` | backend/src/app/infra/jobs/worker.py:72-157 | every claim, handler run and report lowers the potential |
| `Jobs.OtherStepsDoNotRaise` | backend/src/app/infra/jobs/__init__.py:86-131 | no other step raises it, and an enqueue by at most three moves per attempt |
| `Jobs.WorkIsBounded` | backend/src/app/infra/jobs/worker.py:169-181 | a run makes at most three productive steps per attempt and job enqueued |
| `Jobs.PickOldest` | backend/src/app/infra/jobs/worker.py:54-56 | the oldest queued job, or none when there is none |
| `Jobs.AttemptDescends` | backend/src/app/infra/jobs/worker.py:110-141 | an attempt lowers the attempts remaining to the queue |
| `Jobs.JobQueue.Claim` | backend/src/app/infra/jobs/worker.py:48-87 | the oldest queued row becomes running with one attempt more, or nothing is queued |
| `Jobs.JobQueue.ProcessOnce` | backend/src/app/infra/jobs/worker.py:39-157 | the oldest job has one attempt more and the status its handler and its attempts decide, and no other row changes; what a database error at the claim or the report leaves |
| `Jobs.JobQueue.RunWorker` | backend/src/app/infra/jobs/worker.py:160-181 | as many turns as there are attempts left, or as jobs times the cap, drain the queue, whatever the handlers do, unless the database fails |
| `AuditChain.AuditService.Record` | backend/src/app/domain/audit/service.py:192-213 | appends one row whose previous hash is the last row's, or 32 zero bytes, and whose hash is that of the previous hash and the canonical text written out member by member |
| `AuditChain.AuditService.VerifyChain` | backend/src/app/domain/audit/service.py:229-302 | selects the rows whose UTC instant is in the range, succeeds with their number exactly when they form a chain, else names the first broken row |
| `AuditChain.RecordedVerifies` | backend/src/app/domain/audit/service.py:192-213 | every log built by record calls verifies and keeps what was recorded |
| `AuditChain.RecordedStartsWithZeros` | backend/src/app/domain/audit/service.py:82-82 | every recorded log starts with 32 zero bytes |
| `AuditChain.HashedText` | backend/src/app/domain/audit/service.py:305-334 | the hashed bytes are those of the eight members in key order, with the instant in UTC and an empty address as null |
| `AuditChain.HashedTextReads` | backend/src/app/domain/audit/service.py:334-334 | a JSON reader gets those members back |
| `AuditChain.VerifyConcat` | backend/src/app/domain/audit/service.py:266-294 | a concatenation verifies exactly when both parts do and the seam matches |
| `AuditChain.EveryRangeVerifies` | backend/src/app/domain/audit/repo.py:139-173 | with a clock that never steps back every date range of a sound log verifies |
| `AuditChain.EveryRangeVerifiesIffMonotone` | backend/src/app/domain/audit/repo.py:139-173 | every date range of a sound log verifies exactly when its clock never steps back or never steps forward |
| `AuditChain.BackwardClockBreaksARange` | backend/src/app/domain/audit/repo.py:159-173 | the sound log recorded at 0, 10 and 5 does not verify on the range from 0 to 5 |
| `AuditChain.RangeVerifiesIffContiguous` | backend/src/app/domain/audit/repo.py:159-173 | without it, exactly the ranges that select a contiguous run verify |
| `AuditChain.ContiguousVerifies` | backend/src/app/domain/audit/service.py:266-294 | a contiguous run verifies whatever the hash function does |
| `AuditChain.SoundLogHasDistinctHashes` | backend/src/app/domain/audit/service.py:319-334 | without collisions among its messages a sound log has distinct hashes |
| `AuditChain.SerializationBinds` | backend/src/app/domain/audit/service.py:305-334 | equal canonical bytes mean equal hashed fields, up to UTC and the empty address |
| `AuditChain.MessageBinds` | backend/src/app/infra/crypto/__init__.py:210-229 | equal hashed messages mean equal previous hashes and equal fields |
| `AuditChain.ChainBinds` | backend/src/app/domain/audit/service.py:266-302 | two verified logs of equal length and final hash agree on every row, unless messages at some position collide |
| `AuditChain.RecordedBinds` | backend/src/app/domain/audit/service.py:192-213 | two series of record calls that end in the same hash recorded the same entries, unless messages collide |
| `AuditChain.VerifiedIsRecorded` | backend/src/app/domain/audit/service.py:266-302 | a stored log that verifies and ends in a recorded log's hash holds what was recorded, unless messages collide |
| `AuditChain.RecordedHasDistinctHashes` | backend/src/app/domain/audit/service.py:319-334 | a log recorded under distinct sequence numbers has distinct hashes, unless messages collide |
| `Json.WriteInjective` | backend/src/app/domain/audit/service.py:334-334 | the canonical JSON text determines the value |
| `Json.NumbersReadBack` | backend/src/app/domain/audit/service.py:334-334 | integers and floats end at their delimiter and are never written alike |
| `Json.WriteReadsBack` | backend/src/app/domain/audit/service.py:334-334 | it does so inside any delimited context, so parts cannot run into each other |
| `JsonReader.ReadsBack` | backend/src/app/domain/audit/service.py:334-334 | a JSON reader after RFC 8259, knowing nothing of the writer, reads back every value written |
| `JsonReader.BodyReadsBack` | backend/src/app/domain/audit/service.py:334-334 | so it does every string, through all escapes and surrogate pairs |
| `Json.WriteIsAscii` | backend/src/app/domain/audit/service.py:334-334 | the text is ASCII, so its UTF-8 bytes are its characters |
| `Json.EscapesAre` | backend/src/app/domain/audit/service.py:334-334 | which characters have short escapes, which stand for themselves, and which are written in hexadecimal |
| `OrgTree.Descendants` | backend/src/app/core/security/rbac.py:236-263 | terminates on every finite graph and returns exactly the units whose parent chain reaches the root |
| `OrgTree.ScopedOrgUnits` | backend/src/app/core/security/rbac.py:197-233 | exactly the units each combination of the seven roles may see |
| `OrgTree.ScopesNest` | backend/src/app/core/security/rbac.py:252-263 | what a descendant's reviewer may see, the reviewer above may see |
| `OrgTree.ResolveManager` | backend/src/app/domain/shared_costs/helpers.py:146-175 | a user of the nearest self-or-ancestor that has one, on cyclic chains too; none exactly when no member has one |
| `OrgTree.WalkUplines` | backend/src/app/domain/cycles/reminders.py:311-336 | the reviewers of the nearest proper ancestor that has any, or none when the chain ends first; it is the walk that WalkFor cuts off |
| `OrgTree.IndexReviewers` | backend/src/app/domain/cycles/reminders.py:280-288 | the users of each unit that hold an upline role |
| `OrgTree.ReviewersInOrder` | backend/src/app/domain/cycles/reminders.py:280-288 | a unit's reviewers are listed in the order of the query |
| `OrgTree.WalkForFinds` | backend/src/app/domain/cycles/reminders.py:327-336 | given turns enough the cut-off walk finds what the walk finds |
| `OrgTree.ResolveRecipients` | backend/src/app/domain/cycles/reminders.py:249-308 | one recipient per manager with an address, in order, with the nearest reviewers above in copy, on every table on which the walks it makes end |
| `OrgTree.WalkFinishesIffStops` | backend/src/app/domain/cycles/reminders.py:327-336 | cut off after n turns the walk has ended exactly when the chain stops within n + 1 ancestors |
| `OrgTree.WalkEndsIffStopsSoon` | backend/src/app/domain/cycles/reminders.py:327-336 | the walk ends at all exactly when the chain stops within one more ancestor than there are units |
| `OrgTree.CyclicWalkNeverEnds` | backend/src/app/domain/cycles/reminders.py:327-336 | two units that are each other's parent keep it going after any number of turns |
| `OrgTree.AcyclicChainsStop` | backend/src/app/domain/cycles/reminders.py:327-336 | every chain of an acyclic table stops |
| `OrgTree.CopiedAreReviewers` | backend/src/app/domain/cycles/reminders.py:280-307 | the ids in copy are exactly those of the reviewers of the unit the walk stops at |
| `OrgTree.CopiedReviewersMaySeeIff` | backend/src/app/core/security/rbac.py:197-233 | exactly which users copied on a unit's reminder have the unit in scope |
| `OrgTree.CopiedWithoutScope` | backend/src/app/core/security/rbac.py:218-229 | a copied reviewer who also manages a filing unit, or reviews another company, and does not |
| `Templates.TemplateService.UpsertGeneratedRow` | backend/src/app/domain/templates/repo.py:101-147 | the pair's rows become the one clean row |
| `Templates.TemplateService.UpsertErrorRow` | backend/src/app/domain/templates/repo.py:150-191 | the pair's rows become the one error row, without file, with 32 zero bytes and the first 500 characters of the message |
| `Templates.TemplateService.GenerateSingleUnit` | backend/src/app/domain/templates/service.py:182-265 | what one unit's turn leaves committed and reports, for a fault at any step |
| `Templates.TemplateService.PersistErrorResult` | backend/src/app/domain/templates/service.py:267-317 | recording an error is best effort and never raises |
| `Templates.TemplateService.GenerateForCycle` | backend/src/app/domain/templates/service.py:110-151 | the loop makes one turn per unit in order |
| `Templates.BatchResultsAgree` | backend/src/app/domain/templates/service.py:142-151 | each result agrees with the committed rows of its pair after the whole batch |
| `Templates.BatchKeepsOneRowPerPair` | backend/alembic/versions/0001_baseline.py:447-447 | at most one row per cycle and unit, whatever faults |
| `Templates.BatchTouchesOnlyItsUnits` | backend/src/app/domain/templates/repo.py:128-133 | rows of other cycles and units are untouched |
| `Templates.AuditsMatchResults` | backend/src/app/domain/templates/service.py:229-242 | the log gains exactly one row per generated result, in order |
| `Templates.BatchKeepsIntact` | backend/src/app/domain/templates/service.py:214-227 | every clean row's file is stored and has the recorded digest |
| `Templates.TemplateService.DownloadTemplate` | backend/src/app/domain/templates/service.py:320-400 | who is served what, and that exactly the served row counts one download more |
| `Templates.CountedKeepsIntact` | backend/src/app/domain/templates/service.py:373-375 | counting downloads keeps rows and files matched |
| `Cycles.ReachableInv` | backend/src/app/domain/cycles/service.py:164-422 | rows and stale snapshots stay sound under interleaved requests |
| `Cycles.AtMostOneActiveCycle` | backend/alembic/versions/0001_baseline.py:320-323 | never two cycles of a year that are not closed |
| `Cycles.TimestampsMatchStatus` | backend/src/app/domain/cycles/service.py:280-297 | drafts have no opening or closing time, closed cycles have both |
| `Cycles.CommittedRowsFollowTheEdges` | backend/src/app/domain/cycles/state_machine.py:24-62 | decisions on stale rows still move committed rows only along allowed edges |
| `Cycles.CommittedReopenWasClosedInWindow` | backend/src/app/domain/cycles/service.py:390-412 | every committed reopen had loaded a closed cycle inside the window |
| `Cycles.StoresItsColumnsIff` | backend/src/app/domain/cycles/service.py:280-283 | exactly when a write on a stale row stores every column it assigned |
| `Cycles.StaleCloseKeepsTheOthersName` | backend/src/app/domain/cycles/service.py:341-346 | two overlapping closes after which the row has the time of the one and the name of the other |
| `Cycles.AcceptedRows` | backend/src/app/domain/cycles/service.py:266-268 | exactly which rows open, close and reopen accept, and when `open` meets its documentation |
| `Cycles.OpenIgnoresTheWindow` | backend/src/app/domain/cycles/state_machine.py:24-30 | a cycle that reopen refuses and open accepts |
| `Cycles.CycleService.AssertOpen` | backend/src/app/domain/cycles/service.py:140-161 | passes exactly for open cycles |
| `Cycles.CycleService.Create` | backend/src/app/domain/cycles/service.py:164-233 | when a draft is stored, and that the table stays sound |
| `Cycles.CycleService.OpenCycle` | backend/src/app/domain/cycles/service.py:236-322 | when opening takes effect, the default schedule, and that every unit returned has a manager |
| `Cycles.CycleService.Close` | backend/src/app/domain/cycles/service.py:325-356 | when closing takes effect, and what it writes |
| `Cycles.CycleService.Reopen` | backend/src/app/domain/cycles/service.py:359-422 | when reopening takes effect, and what it writes |
| `Cycles.CallIsASchedule` | backend/src/app/domain/cycles/service.py:266-297 | a call is a load and a write of the protocol |
| `Cycles.CreateIsASchedule` | backend/src/app/domain/cycles/service.py:195-221 | creating is a check of the year and an insert of the protocol, refused exactly for an active year |
| `Cycles.WritingEndsTheSession` | backend/src/app/domain/cycles/service.py:280-297 | no request writes twice on one load |
| `SharedCosts.DiffAffectedUnits` | backend/src/app/domain/shared_costs/service.py:54-89 | exactly the units whose optional totals differ |
| `SharedCosts.AggregateByUnit` | backend/src/app/domain/shared_costs/helpers.py:87-99 | the total of each unit that has lines |
| `SharedCosts.TotalsAreSums` | backend/src/app/domain/shared_costs/helpers.py:87-99 | a unit's total is the sum of the amounts of its lines, none without lines |
| `SharedCosts.AffectedIsADistance` | backend/src/app/domain/shared_costs/service.py:84-89 | symmetric, empty on equal versions, and contained in the union along a chain |
| `SharedCosts.AffectedIgnoresOrderAndSplits` | backend/src/app/domain/shared_costs/service.py:74-82 | reordering or splitting lines changes nothing |
| `SharedCosts.DeltasConserve` | backend/src/app/domain/shared_costs/service.py:451-453 | the affected units' deltas add up to the change of the whole |
| `SharedCosts.AffectedMeansNonZeroDeltaIff` | backend/src/app/domain/shared_costs/service.py:58-66 | exactly for which versions affected means a non-zero delta |
| `SharedCosts.AffectedMeansNonZeroDelta` | backend/alembic/versions/0001_baseline.py:697-697 | versions in the database are such |
| `SharedCosts.ZeroLineIsAffected` | backend/src/app/domain/shared_costs/service.py:84-89 | a unit affected with a delta of zero |
| `SharedCosts.BuildLinesData` | backend/src/app/domain/shared_costs/helpers.py:35-62 | the lines of the rows whose code resolves, in order |
| `SharedCosts.AllRowsBecomeLines` | backend/src/app/domain/shared_costs/helpers.py:49-62 | no row is dropped exactly when every code resolves |
| `SharedCosts.LinesAreResolvedRows` | backend/src/app/domain/shared_costs/helpers.py:49-62 | line for line the rows whose code resolves, with their unit, the id of their code, and their amount |
| `SharedCosts.SendDiffNotifications` | backend/src/app/domain/shared_costs/service.py:402-477 | each notifiable affected unit gets one notice; nothing without a notifier; an unhandled exception comes out exactly when some affected unit causes one; what happens to the open transaction |
| `SharedCosts.Notify` | backend/src/app/domain/shared_costs/service.py:435-477 | one turn: when a unit gets its notice, to its nearest manager with its own amounts, and when it raises |
| `SharedCosts.FinishImport` | backend/src/app/domain/shared_costs/service.py:240-265 | the import's audit row is kept exactly when a notifier that commits sends a notice after it |
| `Actuals.NormalizeHeaders` | backend/src/app/domain/accounts/service.py:416-471 | which files are refused, and what each row normalizes to |
| `Actuals.NormalizedIsLastNamed` | backend/src/app/domain/accounts/service.py:436-449 | under each name a row holds the cell of the last column so named |
| `Actuals.HeadersOkIff` | backend/src/app/domain/accounts/service.py:451-471 | a file is taken exactly when it has rows and, somewhere, an account, an amount, and a unit or department column |
| `Actuals.HeaderKeyIgnoresSpelling` | backend/src/app/domain/accounts/service.py:444-449 | headers equal up to ASCII letter case and surrounding blanks have the same key |
| `Actuals.AsciiLowerForgetsCase` | backend/src/app/domain/accounts/service.py:444-449 | ASCII lower-casing is such a lower-casing |
| `Actuals.HeadersIgnoreCaseAndPadding` | backend/src/app/domain/accounts/service.py:444-449 | files that differ in the case and padding of their headers have the same columns and the same normalized rows |
| `Actuals.AliasIsRedundant` | backend/src/app/domain/accounts/validator.py:137-143 | filling in the dept_id alias never changes what the validator reads |
| `Actuals.LookupOrder` | backend/src/app/domain/accounts/validator.py:137-143 | which columns are looked up, and in which order |
| `Actuals.FaultIff` | backend/src/app/domain/accounts/validator.py:134-203 | exactly which fault each column has |
| `Actuals.ValidateRow` | backend/src/app/domain/accounts/validator.py:112-214 | all faults of the row in column order; the sink gains its clean form exactly when there is none |
| `Actuals.Validate` | backend/src/app/domain/accounts/validator.py:68-110 | the errors of all rows in order, and the clean rows only of a file without errors |
| `Actuals.ErrorsAreTheFaultyCells` | backend/src/app/domain/accounts/validator.py:134-214 | exactly one error for every faulty cell, and none besides |
| `Actuals.ErrorsAreInOrder` | backend/src/app/domain/accounts/validator.py:97-203 | row by row, and within a row unit, account, amount |
| `Actuals.ValidIffAllAcceptable` | backend/src/app/domain/accounts/validator.py:97-110 | a file is valid exactly when every row is acceptable |
| `Actuals.ValidRowsAreCleaned` | backend/src/app/domain/accounts/validator.py:204-213 | every row of a valid file is cleaned, in order |
| `Actuals.AccountService.ImportActuals` | backend/src/app/domain/accounts/service.py:287-373 | nothing changes, or the cycle's rows become exactly the file's, with the exact condition |
| `Actuals.AccountService.ImportRequest` | backend/src/app/infra/db/session.py:139-148 | the request leaves no open change behind, on every exit, so requests can follow one another |
| `Actuals.AccountService.ImportAgain` | backend/src/app/domain/accounts/service.py:287-373 | importing a file again, whatever was imported in between, succeeds and leaves what importing it once left |
| `Actuals.ReplacementIsExact` | backend/src/app/domain/accounts/service.py:314-347 | the cycle reads as the new rows and every other cycle as before |
| `Actuals.ExpensesAreTheRows` | backend/src/app/domain/accounts/service.py:318-347 | the expense of each row of the file, column by column |
| `Actuals.LastImportWins` | backend/src/app/domain/accounts/service.py:314-351 | earlier imports of the cycle leave no trace |
| `Actuals.ImportsCommute` | backend/src/app/domain/accounts/service.py:315-315 | imports of different cycles do not interfere |
| `Actuals.CommitReplacesIff` | backend/src/app/domain/accounts/service.py:314-347 | a commit replaces the cycle's rows exactly when the delete had seen them all |
| `Actuals.SerialIffNoneMissed` | backend/src/app/domain/accounts/service.py:314-347 | overlapping imports are whole imports in commit order exactly when no commit finds rows its delete missed |
| `Actuals.OverlappingImportsBothStay` | backend/src/app/domain/accounts/service.py:314-347 | two imports that both delete before either commits, after which the cycle holds both files |
| `Actuals.CallIsASchedule` | backend/src/app/domain/accounts/service.py:314-347 | an import that nothing interrupts is the replacement |
| `Actuals.CommitEndsTheImport` | backend/src/app/domain/accounts/service.py:314-349 | no import commits twice on one delete |
| `Actuals.RefusedIffFileRepeatsAKey` | backend/alembic/versions/0001_baseline.py:397-402 | the commit is refused exactly when the file names a unit and account twice |
| `Sessions.SessionStore.Create` | backend/src/app/core/security/sessions.py:90-141 | when a session row is inserted, every field of it, and the tokens returned |
| `Sessions.SessionStore.Refresh` | backend/src/app/core/security/sessions.py:144-181 | succeeds exactly for the live, unexpired session of an active user; the old row is then revoked, the new one stands with its own expiry, and nothing else differs |
| `Sessions.SessionStore.RefreshSession` | backend/src/app/core/security/auth_service.py:168-192 | succeeds exactly when the session can be rotated and the commit does not fail; the rotation is committed whole or not at all |
| `Sessions.SessionStore.Revoke` | backend/src/app/core/security/sessions.py:184-199 | revokes a live session and leaves the time of an earlier revocation |
| `Sessions.SessionStore.GetActive` | backend/src/app/core/security/sessions.py:202-218 | answers exactly the rows that are neither revoked nor expired |
| `Sessions.SessionStore.Touch` | backend/src/app/core/security/sessions.py:221-230 | moves the activity time of live sessions only |
| `Sessions.TokensAreRedeemedOnce` | backend/src/app/core/security/sessions.py:163-181 | each token is redeemed at most once in every run of whole requests |
| `Sessions.RevocationIsFinal` | backend/src/app/core/security/sessions.py:194-199 | in every run of whole requests rows are never deleted and no revocation is undone or moved |
| `Sessions.LineageHasOneLiveSession` | backend/src/app/core/security/sessions.py:178-181 | in every run of whole requests each rotation lineage has at most one session that is not revoked |
| `Sessions.RefreshKeepsLiveCount` | backend/src/app/core/security/sessions.py:178-181 | a successful refresh leaves every user's number of live sessions as it was |
| `Sessions.SpentTokenIsRefused` | backend/src/app/core/security/sessions.py:166-172 | in every run of whole requests the token of a revoked session is refused ever after |
| `Sessions.RequestIsLoadAndCommit` | backend/src/app/core/security/sessions.py:163-181 | a refresh that nothing interrupts is the whole request |
| `Sessions.CommitEndsTheRefresh` | backend/src/app/core/security/auth_service.py:168-192 | no refresh commits twice on one load |
| `Sessions.CommitIsARequestIffLive` | backend/src/app/core/security/sessions.py:163-181 | the commit of an overlapped refresh is a request made at that moment, this one or any other, exactly when its row is still live, that is, its token is not spent |
| `Sessions.SerializesIffCommitsFindLive` | backend/src/app/core/security/sessions.py:163-181 | an overlapped run is at every point a run of whole requests exactly when every commit finds its row live |
| `Sessions.LiveCommitsKeepInv` | backend/src/app/core/security/sessions.py:163-181 | such runs keep the invariant behind the results on whole requests |
| `Sessions.RedeemsUnspentIffCommitsFindLive` | backend/src/app/core/security/sessions.py:163-181 | no refreshed or logged-out token is redeemed in exactly these runs |
| `Sessions.SpentTokenIsOnlyInFlight` | backend/src/app/core/security/sessions.py:166-172 | in every overlapped run a spent token is refused to all requests but the refreshes that had loaded it before |
| `Sessions.RevocationsKeptIff` | backend/src/app/core/security/sessions.py:178-181 | exactly which steps of an overlapped run keep every revocation and its time |
| `Sessions.OneLiveAfterIff` | backend/src/app/core/security/sessions.py:178-181 | a step keeps one live session per lineage exactly when it does not commit beside another live one |
| `Sessions.OneLiveIffCommitsAlone` | backend/src/app/core/security/sessions.py:178-181 | the runs in which every lineage always has at most one live session are exactly those without such a commit |
| `Sessions.LogoutIsOvertakenByRefresh` | backend/src/app/core/security/sessions.py:163-199 | a refresh loaded before a logout and committed after it redeems the revoked session, moves its revocation and leaves a live session |
| `Sessions.OverlappingRefreshesBothSucceed` | backend/src/app/core/security/sessions.py:163-181 | two refreshes that load before either commits both succeed, and leave two live sessions in one lineage |
| `Sessions.RedeemsAgainIffOvertaken` | backend/src/app/core/security/sessions.py:163-181 | a commit repeats a redemption exactly when another refresh redeemed the token since the load, and then finds its row revoked |
| `Sessions.RedeemedOnceIffNoneOvertaken` | backend/src/app/core/security/sessions.py:163-181 | no token is redeemed twice in exactly the runs where no other refresh comes in between; a logout in between makes a first redemption, of a spent token |
| `Amounts.CleanCellNormalizes` | backend/src/app/domain/_shared/row_validation.py:113-136 | cleaning is idempotent and yields a value exactly for cells that are not blank |
| `Amounts.StripIgnoresPadding` | backend/src/app/domain/_shared/row_validation.py:131-133 | blanks around a text do not matter |
| `Amounts.StripTakesBlanks` | backend/src/app/domain/_shared/row_validation.py:131-133 | what is taken off is blank, at the two ends |
| `Amounts.NearestCent` | backend/src/app/domain/_shared/row_validation.py:175-240 | an accepted amount is the cent nearest to what the cell states as a real number, ties to even |
| `Amounts.ParseAmountIff` | backend/src/app/domain/_shared/row_validation.py:194-240 | exactly when each error is given, for every kind of cell |
| `Amounts.WholeNumbers` | backend/src/app/domain/_shared/row_validation.py:209-210 | a whole number n parses to 100 * n cents, and a negative one is refused |
| `Amounts.EntriesParseAlike` | backend/src/app/domain/_shared/row_validation.py:203-224 | one decimal entered as a number, a float or text parses alike |
| `Amounts.ParseAmountMonotone` | backend/src/app/domain/_shared/row_validation.py:175-240 | an entry that states more never parses to less |
| `Amounts.ParseAmountIdempotent` | backend/src/app/domain/_shared/row_validation.py:236-240 | a parsed amount parses to itself |
| `Amounts.ZeroFromPositive` | backend/src/app/domain/_shared/row_validation.py:233-240 | a positive entry becomes 0.00 exactly when it states at most 0.005 |
| `Amounts.StrictlyPositiveCanYieldZero` | backend/src/app/domain/_shared/row_validation.py:233-240 | 0.004 passes the strictly-positive test and becomes 0.00 |
| `BudgetRows.ValidateRows` | backend/src/app/domain/budget_uploads/validator.py:153-242 | the errors in row order, and all rows cleaned in order when there are none |
| `BudgetRows.ErrorsAreJustified` | backend/src/app/domain/budget_uploads/validator.py:170-230 | every error names a bad row, with the column and code its first failed test has, in strictly increasing row order |
| `BudgetRows.ErrorsReport` | backend/src/app/domain/budget_uploads/validator.py:170-230 | its column and code, decided on the stripped code and the amount the cell states |
| `BudgetRows.BadRowsAreReported` | backend/src/app/domain/budget_uploads/validator.py:170-230 | every bad row is reported, hence exactly once |
| `BudgetRows.ValidIffAllAcceptable` | backend/src/app/domain/budget_uploads/validator.py:240-242 | a batch is accepted exactly when every row is acceptable |
| `BudgetRows.AcceptableIff` | backend/src/app/domain/budget_uploads/validator.py:170-230 | a row is acceptable exactly when its code is operational and it states an amount that is not negative and fits |
| `BudgetRows.Upload006MeansNegativeIff` | backend/src/app/domain/budget_uploads/validator.py:214-230 | a refused amount gets UPLOAD_006 exactly when it is negative or its cell echoes the word, so the code means a negative amount exactly for the other cells |
| `BudgetRows.NotNumericReportedAsNegative` | backend/src/app/domain/budget_uploads/validator.py:221-221 | the text non-negative is reported as a negative amount |
| `Repr.ReasonContainsIff` | backend/src/app/domain/_shared/row_validation.py:221-224 | exactly which texts make the not-numeric reason contain the word, through all of repr's quoting and escaping |
| `Repr.PrintedAsciiIsEchoed` | backend/src/app/domain/_shared/row_validation.py:221-224 | printed ASCII is echoed as it is, in the quotes it leaves free |

## Left out

- `frontend/`, the routes, middleware, settings, logging, SSO, JWT, cookies, mail transport, encryption and file decoding: foreign calls or thin wrappers.
- Uploads.UploadService.Upload: starts from validated rows; scope check, file storage and the confirmation mail around them are not modelled, nor is the file size limit.
- Uploads.CallIsASchedule: uploads per cycle have no row_count column, so that field of their headers is the model's; the audit row of a shared-cost import is in SharedCosts.FinishImport.
- Uploads, Cycles and Sessions: a commit that takes effect but is reported as failed is not modelled.
- AuditChain.AuditService.Record: calls are serialized, which the code does not enforce with a lock; details are given with sorted keys, a JSON float is given by its text, and rounding by the JSONB column is not modelled.
- AuditChain.ChainBinds: the keyed hash (HMAC-SHA256, RFC 2104) is an arbitrary 32-byte function and collisions are named instead of excluded; ISO 8601 rendering of instants is an injective parameter.
- AuditChain.AuditService.VerifyChain: the audit log's paged query and its filters are not modelled.
- Jobs.JobQueue.RunWorker: stops at the first database failure, where the loop's process ends; payloads, results, timestamps and worker ids carry no logic and are not modelled.
- OrgTree.WalkUplines: the reminder dispatch around it, which picks due cycles and counts mails, would only add easy members.
- OrgTree.ResolveManager: which of a unit's active users comes first is the order of the query.
- Templates.TemplateService.GenerateForCycle: the list of operational accounts fetched before the loop, whose failure ends the call before any unit, and the workbook's content are inputs; refreshing ORM attributes after a rollback is not modelled.
- Templates.BatchKeepsIntact: assumes the fresh file keys (random UUIDs) do not repeat.
- Cycles.CycleService.OpenCycle: the enumeration of filing units with managers and exclusions is an input; reminder schedules are set but not validated.
- Cycles.CycleService.Create: the currency test is an input.
- SharedCosts.SendDiffNotifications: the text of the mail and the notifier's own rows; which units' lookups and notices raise is an input.
- Actuals.AccountService.ImportActuals: the summary lists unit codes sorted, here they are a set.
- Actuals.SerialIffNoneMissed: that a delete waits for the locks of another is not modelled; it rules out some of the interleavings.
- Actuals.NormalizeHeaders: lower-casing is a parameter; the header results use of it that it forgets the case of ASCII letters.
- BudgetRows.ValidateRows: which non-ASCII characters Python prints unescaped is a parameter, and the results hold for every choice.
- Sessions.SerializesIffCommitsFindLive: logins and logouts stay whole requests; only refreshes are split.
- Report.ReportService.Build: the timestamps, currency and per-source reads around the rows; Numeric(18,2) overflow of sums.
- Dashboard, report renderers, exclusion toggles and account maintenance: they would only add easy members.
