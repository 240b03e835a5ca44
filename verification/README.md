# Data quality scoring: a verified model

This project models, in Dafny, the parts of the data quality scoring engine that decide what may be shown, what is scored
and what is published, and proves what holds of them on every run.

**Privacy.** Tenants keep versioned detector rules; scans pin them, run under leases and publish findings; people
review findings and declare columns; a resolver turns all of that into the set of columns to mask, and exports recheck
it before they are released. The tables, every transaction on them and the whole system with its workers, imports and
exports are in `PrivacyTables`, `PrivacyTransactions` and `PrivacySystem`. `PrivacyInvariants`, `PrivacyHistory` and
`PrivacyRuns` carry the invariants; `PrivacyTheorems`, `PrivacyAttempts`, `PrivacyRetries`, `PrivacyInheritance` and
`SessionRuns` hold the results over all runs. `PrivacyReviews`, `PrivacyMasks`, `PrivacyLeases`, `PrivacyScans` and
`PrivacyEdits` say, request by request and along runs, what people and workers ask for and get, in terms of rows,
categories and the clock alone. `PrivacyDatabase`, `PrivacyServices`, `PrivacyScanWorker` and `SessionProtection` are
the services themselves, updating rows in place, each proved to do what its transaction says. `LockOrder` treats the
row locks those transactions take.

**Imports.** `ImportTables`, `ImportRuns` and `ImportTheorems` model the import queue and snapshot registration as a
second system of leases; `ImportServices` has the worker and the registration in place, `ImportRequests` what claims,
leases, endings and registrations come to along runs.

**Scoring.** `Scoring` runs from record counts to rule, dimension and dataset scores, the quality gate and
publication. `ScoringBounds`, `ScoringMonotone`, `ScoringFirstRecord`, `ScoringLaws`, `ScoringPerfection` and
`ScoringAdvisories` prove what the scorecard does and does not depend on, `ScoringReference` writes it down a second
time from the statuses and numbers alone, `SparkCompute` says how records fall into buckets, `EvaluationRun` what one
leased run does on its ports.

**Values.** `PrivacyScanner` is the streaming scanner, `JsonValues`, `RecordedPaths`, `CanonicalJson` and
`CanonicalRoundTrip` are JSON pointers and canonical JSON, `JsonEquality` is when two values are the same, `Luhn`,
`Spelling` and `SizeBounds` the smaller algorithms. `DetectorRules`, `Ordering`, `Totals` and `Wrappers` are shared by
the rest.

Modelling decisions:

- Every committed transaction is one step with its own instant, and each statement or resolver call reads one snapshot of
  the tables. A step that is refused changes only the time. Scan jobs therefore have distinct creation times.
- Row numbers stand for the identifiers the database mints. Identifiers chosen by callers are strings.
- Floats are exact reals. Statements about reordering sums hold for reals; IEEE rounding is not modelled.
- Hashes, pattern and dictionary lookups, character categories, Unicode normalisation and text encodings are arbitrary
  functions. SHA-256 values are compared, never computed.
- A transaction that fails on a constraint is rolled back as a whole.

Properties one might expect and that fail, each with the exact condition under which it holds:

- Registering an import can unmask a column (`SessionProtection.RegisteringUnmasks`): the session masks what was declared
  when the import ran, the snapshot what is declared now; `SessionRuns.ImportToSnapshot` follows it over whole runs.
- An import lease that has run out can still write (`ImportTheorems.LateWritesExactly`).
- The attempts of a scan are not bounded, only its scans are (`PrivacyAttempts.AttemptsAreLeases`,
  `PrivacyTheorems.AtMostThreeScans`).
- The extractor does not find every path the scanner records (`RecordedPaths.ScannerAndExtractorAgree`).

Where the code and its documentation differ, the model follows the code:

- The gate's set of measured dimensions is described as the scored rules but has no positive-weight test
  (`ScoringLaws.PassWithheld`).
- The bounded list of a scan summary is described as the longest prefix within the budget; it is the longest one below it
  (`ScanSummary.Bounded`).
- The recorded weight of a dimension falls back to its upper-case name, the dataset score does not; the model has both.
- Evidence payloads are described as size-bounded; with no rows allowed an empty list may still exceed the bound
  (`EvidencePayload.Prepare`).

## Model

| member | source | states |
|---|---|---|
| `PrivacyTheorems.MaskIsDetermined` | src/dq_scoring/services/privacy_policy.py:57-102 | At any two moments of any run with the same asset revision and the same tenant config version, a snapshot's protected columns are the same. |
| `PrivacyTheorems.UnmaskedMeansFresh` | src/dq_scoring/services/privacy_policy.py:36-47 | If a snapshot with an APPLY job leaves a column in clear, its newest APPLY job is complete, is pinned to exactly the rules enabled now (at most 100), and neither it nor any confirmed finding or sensitive declaration covers the column. |
| `PrivacyTheorems.DecisionsTraceToPeople` | src/dq_scoring/workers/privacy_scan_worker.py:290-321 | Every reviewed finding goes back through consecutive complete APPLY scans that contain the same rule, revision, column and path, to one on which the audit log shows a person taking that very decision: same status, reviewer, reason and time. |
| `PrivacyTheorems.OneActiveScan` | src/dq_scoring/services/privacy_scan_service.py:49-56 | At most one scan of a snapshot and purpose is active at any time, and it is the last one created. |
| `PrivacyTheorems.ConfirmedStaysMasked` | src/dq_scoring/services/privacy_service.py:155-170 | The column of a confirmed finding stays masked through everything that follows until the audit log shows a person dismissing that finding. |
| `PrivacyTheorems.ConfirmedLasts` | src/dq_scoring/services/privacy_service.py:155-183 | A confirmed finding stays confirmed unless a logged review moved it to dismissed; the audit log only grows. |
| `PrivacyTheorems.AtMostThreeScans` | src/dq_scoring/workers/privacy_scan_worker.py:166-170 | However often a job is claimed, at most three of its leases ever start scanning. |
| `PrivacyAttempts.AttemptsUnbounded` | src/dq_scoring/workers/privacy_scan_worker.py:133-141 | Claiming does not look at the attempt count: with leases of any length the settings allow, for every n there is a run in which one job has been attempted n times. |
| `PrivacyAttempts.AttemptsAreLeases` | src/dq_scoring/workers/privacy_scan_worker.py:133-141 | In every run the attempts of a job are exactly the leases handed out for it, so they pass three exactly when it is claimed more than three times. |
| `PrivacyInheritance.PublicationInherits` | src/dq_scoring/workers/privacy_scan_worker.py:290-331 | In every run, each hit of an applied scan is stored with the status and review that the newest complete scan of the snapshot holds for the same rule, revision, column and path, and undecided without review if it holds none. |
| `PrivacyInheritance.RescanLeavesClear` | src/dq_scoring/services/privacy_policy.py:74-93 | In every run an applied scan leaves a column in clear exactly when its pinned rules are current, the column is not declared sensitive, none of its findings is confirmed, and everything the scan found in it was dismissed in the complete scan before. |
| `PrivacyTheorems.PublishedAtMostOnce` | src/dq_scoring/workers/privacy_scan_worker.py:270-288 | A scan is published by at most one lease, and that lease is the last one handed out. |
| `PrivacyTheorems.EndedJobsAreFinal` | src/dq_scoring/workers/privacy_scan_worker.py:347-377 | A complete or failed job never changes again, and the audit log says exactly once how a worker's scan ended, with the job's error code if it failed. |
| `PrivacyRetries.TransientFailuresAreRetried` | src/dq_scoring/workers/privacy_scan_worker.py:347-377 | In every reachable state a scan that gave up with a transient code had at least three attempts. |
| `PrivacyTheorems.SupersededLeaseIsMute` | src/dq_scoring/workers/privacy_scan_worker.py:238-268 | From the moment a later lease of its job is handed out, nothing a worker does with its lease changes the tables. |
| `PrivacyTheorems.ExportVerdict` | src/dq_scoring/services/privacy_service.py:327-363 | Whatever ran in between, a masked export is released exactly when policy version and mask are what they were when it began; a released export masked exactly what must be masked now, and an export is released whenever neither version moved. |
| `PrivacyTheorems.PolicyVersionAloneIsNotEnough` | src/dq_scoring/services/privacy_service.py:355-362 | A new rule can leave every policy version as it is and change the mask from nothing to everything, so rechecking the version alone would not do. |
| `PrivacyRuns.RunEvolves` | src/dq_scoring/workers/privacy_scan_worker.py:120-195 | Along every run jobs, findings, assets, books and the audit log only move the way the services allow, and the mask of a snapshot moves only with one of its two counters. |
| `PrivacyRuns.NextKeeps` | src/dq_scoring/workers/privacy_scan_worker.py:105-377 | Every step of the system keeps all of its invariants. |
| `DetectorRules.SeedWellFormed` | src/dq_scoring/services/privacy_rule_service.py:42-55 | The nine seeded rules satisfy the invariants of a rule book. |
| `DetectorRules.CreateKeeps` | src/dq_scoring/services/privacy_rule_service.py:100-115 | Creating a rule keeps revisions append-only, codes unique per rule and at most 100 rules enabled, and raises the config version by one; the new row is revision 1 of a rule and code not seen before. |
| `DetectorRules.UpdateKeeps` | src/dq_scoring/services/privacy_rule_service.py:118-143 | Revising a rule keeps the same invariants, raises the version by one and appends exactly one row: the next revision of that rule after the expected one, with its code and kind. |
| `DetectorRules.RevisionsDense` | src/dq_scoring/services/privacy_rule_service.py:118-143 | The revisions of a rule are 1 to n without gaps. |
| `DetectorRules.PinIsOrderFree` | src/dq_scoring/common/privacy_rules.py:199-207 | Pinning the enabled rules gives one result in rule-id order whatever order they are read in, so a pin rebuilt from its stored rules is the same pin. |
| `PrivacyRuleService.EnsureInitialized` | src/dq_scoring/services/privacy_rule_service.py:42-55 | Seeds the builtin rules one by one and config version 1 unless the tenant has them. |
| `PrivacyRuleService.AddRule` | src/dq_scoring/services/privacy_rule_service.py:100-115 | In-place form of creating a rule: the new rows, version and audit entry, or the first refusal that applies and nothing written. |
| `PrivacyRuleService.ReviseRule` | src/dq_scoring/services/privacy_rule_service.py:118-143 | In-place form of revising a rule, refusals in order and without effect. |
| `PrivacyRuleService.LoadPinned` | src/dq_scoring/services/privacy_rule_service.py:146-167 | Answers with exactly the latest enabled rules, each once and in rule-id order, at most 100, and the version of a well-formed book; other tenants are left alone. |
| `PrivacyScanService.CreateScan` | src/dq_scoring/services/privacy_scan_service.py:44-71 | Returns the active scan, refuses a different preview, or pins the rules, queues one job and bumps the asset revision for APPLY; refusals roll the seeding back. |
| `PrivacyScanWorker.Worker.ClaimNextJob` | src/dq_scoring/workers/privacy_scan_worker.py:120-149 | Claims the oldest claimable unlocked job under a new lease generation and attempt, or changes nothing. |
| `PrivacyScanWorker.Worker.Heartbeat` | src/dq_scoring/workers/privacy_scan_worker.py:151-162 | A lease that is still current stays so for exactly the lease time from now, and only its expiry changes; a lost one changes nothing. |
| `PrivacyScanWorker.Worker.Publish` | src/dq_scoring/workers/privacy_scan_worker.py:270-288 | Publishes under the fence: nothing without the lease, a full rollback when a finding violates uniqueness, else findings, revision, audit entry and the completed job. |
| `PrivacyScanWorker.Worker.WriteFindings` | src/dq_scoring/workers/privacy_scan_worker.py:290-345 | Inserts one finding per hit with the decision it inherits from the previous complete scan, bumps the revision and logs the publication. |
| `PrivacyScanWorker.Worker.CollectDecisions` | src/dq_scoring/workers/privacy_scan_worker.py:292-309 | The dictionary of decisions of the newest complete APPLY scan, by rule, revision, column and path. |
| `PrivacyScanWorker.Worker.InsertFindings` | src/dq_scoring/workers/privacy_scan_worker.py:311-331 | Succeeds exactly when no two hits share an identity, and then appends one row per hit in order. |
| `PrivacyScanWorker.Worker.Fail` | src/dq_scoring/workers/privacy_scan_worker.py:347-377 | Requeues a transient failure while attempts remain, otherwise fails the job for good with an audit entry; nothing without the lease. |
| `PrivacyService.UpdateFindingStatus` | src/dq_scoring/services/privacy_service.py:99-195 | Moves a finding from the expected status to the reviewed one, bumps the revision and logs who did it; otherwise refuses and writes nothing. |
| `PrivacyService.UpdateAssetProtectionPolicy` | src/dq_scoring/services/privacy_service.py:243-295 | Under the expected version, deletes the full masks of the asset and upserts one per category and active role, keeping other strategies elsewhere; reading back gives the categories asked for. One bump and one audit entry. |
| `ColumnClassificationService.UpdateClassifications` | src/dq_scoring/services/column_classification_service.py:15-38 | Applies the changes in order with one audit entry each and bumps the revision once, or refuses in the order the service checks. |
| `PrivacyPolicy.ResolveSnapshotProtection` | src/dq_scoring/services/privacy_policy.py:57-102 | The loops over findings and columns yield the policy version, the scan state, the protected set and, per column, declared, detected and effective categories and the conflict flag. |
| `PrivacyPolicy.CollectDetected` | src/dq_scoring/services/privacy_policy.py:74-81 | Groups the categories of exactly the findings that count by column. |
| `PrivacyPolicy.ResolvedProtects` | src/dq_scoring/services/privacy_policy.py:84-93 | A column of the schema is protected exactly when it is detected, declared sensitive, or the scan is not verified. |
| `SessionProtection.SessionProtectedColumns` | src/dq_scoring/services/privacy_policy.py:120-141 | The columns an import session masks, by its three sources: the registered snapshot, the schema and preview names of an unscanned session, or what was reported, found and is declared. |
| `SessionProtection.RegisteringUnmasks` | src/dq_scoring/services/dataset_import_service.py:197-271 | Registering a scanned session masks every column if the rules moved on since the scan. Otherwise it never masks more than the session did, and unmasks exactly the columns reported sensitive that have no finding and are not declared any more. |
| `SessionProtection.WithdrawnDeclarationUnmasks` | src/dq_scoring/common/privacy.py:133 | It happens: a column declared when the import ran, found clean and withdrawn before the registration is masked by the session and clear afterwards. |
| `SessionRuns.ImportToSnapshot` | src/dq_scoring/services/dataset_import_service.py:197-271 | Over whole runs, from the import through its registration to any later moment at which neither counter has moved: the snapshot masks everything if the rules changed before the registration, and otherwise what the session masked, except exactly the columns declared when the import ran, found clean and not declared any more. |
| `LockOrder.NoDeadlockCycle` | src/dq_scoring/services/privacy_service.py:121-148 | In no reachable state do transactions, import processing with its seeding lock included, wait for one another in a circle. |
| `LockOrder.SomebodyCanMove` | src/dq_scoring/workers/privacy_scan_worker.py:238-268 | From any transaction, following who waits for whom ends within five hops at one that waits for nobody. |
| `LockOrder.ReachedFits` | src/dq_scoring/workers/import_worker.py:177-178 | In every reachable state a tenant with a verified session or with a snapshot is seeded, as every import that commits has seen the rules or seeded them. |
| `LockOrder.ScansNeverSeed` | src/dq_scoring/services/privacy_scan_service.py:46-56 | A scan submission, which makes sure of the rules while it holds its asset, never waits for the seeding lock nor holds it. |
| `LockOrder.LocksAreExclusive` | src/dq_scoring/services/privacy_scan_service.py:49-51 | No row lock ever has two holders. |
| `ImportTheorems.AttemptsBounded` | src/dq_scoring/workers/import_worker.py:118-133 | In every reachable state a session has at most three attempts, one per lease. |
| `ImportTheorems.PrefixesAreUnique` | src/dq_scoring/workers/import_worker.py:206 | No two leases ever write objects under the same prefix. |
| `ImportTheorems.SupersededImportIsMute` | src/dq_scoring/workers/import_worker.py:267-340 | Once a later lease of its session is handed out, an old lease changes no row. |
| `ImportTheorems.WritesExactlyWhenFenced` | src/dq_scoring/workers/import_worker.py:267-340 | Ending an import changes its session exactly when the session is still VERIFYING under the same owner and generation and the lease had not run out when the processing transaction began. |
| `ImportTheorems.LateWritesExactly` | src/dq_scoring/workers/import_daemon.py:109-119 | In every run, a lease that has run out still writes exactly when its session is still VERIFYING under its generation, so that nobody claimed, reset or ended it since, and the worker began before the expiry. |
| `ImportTheorems.LateWriteHappens` | src/dq_scoring/workers/import_daemon.py:109-119 | It happens with leases of every length the settings allow. |
| `ImportTheorems.VersionsAreDense` | src/dq_scoring/services/dataset_import_service.py:191-195 | In every reachable state an asset's versions are exactly 1 to n, n is its version count, its current snapshot is version n, and no two of its snapshots share a raw hash. |
| `ImportTheorems.RegistrationRecords` | src/dq_scoring/services/dataset_import_service.py:197-294 | A successful registration marks the session registered for the snapshot it returns, which holds that session's raw and canonical hashes. |
| `ImportTheorems.RegisteringAgainIsIdempotent` | src/dq_scoring/services/dataset_import_service.py:60-83 | Registering a session again, however much later, returns the same snapshot and changes nothing. |
| `ImportTheorems.SameBytesSameSnapshot` | src/dq_scoring/services/dataset_import_service.py:141-189 | Two registered sessions of one asset have the same snapshot exactly when they have the same raw hash. |
| `ImportTheorems.NeverMalformed` | src/dq_scoring/services/dataset_import_service.py:97-100 | A session that reaches registration always has its source descriptor. |
| `ImportTheorems.RefusalsWriteNothing` | src/dq_scoring/services/dataset_import_service.py:85-139 | A refused registration writes nothing, not even the asset it was about to create. |
| `ImportServices.ImportWorker.ClaimNextSession` | src/dq_scoring/workers/import_worker.py:86-167 | Claims the oldest session, or fails one that expired or used up its attempts and claims nothing. |
| `ImportServices.ImportWorker.Heartbeat` | src/dq_scoring/workers/import_worker.py:66-84 | A lease that is still current stays so for exactly the lease time from now, and only its expiry changes; a lost one changes nothing. |
| `ImportServices.ImportWorker.RecordOutcome` | src/dq_scoring/workers/import_worker.py:169-340 | Writes the fenced status of a processed session; a protection version that moved during inspection rejects it. |
| `ImportServices.RegisterSnapshot` | src/dq_scoring/services/dataset_import_service.py:28-306 | In-place registration: idempotent answer, refusals in order, deduplication by raw hash, or the next version. |
| `SnapshotProtectionRegistration.Register` | src/dq_scoring/services/dataset_import_service.py:242-271 | Records the import's scan as a complete APPLY job and its findings as undecided rows, dropping conflicting ones. |
| `SnapshotProtectionRegistration.InsertImportFindings` | src/dq_scoring/services/dataset_import_service.py:255-271 | Keeps the first finding of every conflict, in order. |
| `ScoringBounds.RuleScoreBounds` | src/dq_scoring/core/rule_scoring.py:32-61 | A score exists exactly for a non-zero denominator, lies in [0, 100], is 100 exactly without violations and 0 exactly without passed records. |
| `ScoringBounds.DimensionScoreBounds` | src/dq_scoring/core/dimension_scoring.py:54-71 | A dimension score lies between any bounds of the measured rule scores it averages. |
| `ScoringBounds.DimensionCoverageBounds` | src/dq_scoring/core/dimension_scoring.py:22-71 | Coverage exists exactly when a rule is expected, lies in [0, 1], and is 1 exactly when every expected rule is measured. |
| `ScoringBounds.DatasetScoreBounds` | src/dq_scoring/core/dataset_scoring.py:23-47 | The dataset score lies between any bounds of the weighted dimension scores it averages. |
| `ScoringBounds.FullCoverage` | src/dq_scoring/core/dataset_scoring.py:49-55 | Dataset coverage lies in [0, 1] and is 1 exactly when every expected rule of every positively weighted dimension was measured. |
| `ScoringBounds.ScorecardBounds` | src/dq_scoring/services/score_aggregator.py:46-71 | Bounds on the measured rule scores bound every score of the scorecard. |
| `ScoringMonotone.RecordImprovesRule` | src/dq_scoring/services/validation_service.py:88-93 | One record moving to passed never lowers its rule's score nor adds violations, provided some record counted before. |
| `ScoringMonotone.FirstRecordMeasures` | src/dq_scoring/core/rule_scoring.py:32-61 | The other case: when no record counted, the policy drops missing records, the record was missing, and the rule goes from not measurable to measured at 100 without violations. |
| `ScoringMonotone.DimensionBetter` | src/dq_scoring/core/dimension_scoring.py:54-71 | Better rule results keep a dimension's coverage and never lower its score. |
| `ScoringMonotone.DatasetBetter` | src/dq_scoring/core/dataset_scoring.py:23-55 | Better dimensions keep the dataset coverage and never lower the dataset score. |
| `ScoringMonotone.TierBetter` | src/dq_scoring/core/quality_gate.py:83-106 | Better results never move the gate to an earlier tier. |
| `ScoringMonotone.RecordImprovesScorecard` | src/dq_scoring/services/score_aggregator.py:46-120 | End to end: one record of one rule moving to passed keeps the coverage, lowers no score and never moves the gate to an earlier tier. |
| `ScoringFirstRecord.FirstRecordImprovesScorecard` | src/dq_scoring/services/score_aggregator.py:46-120 | The same for the first record of a rule that counts at all: with scores and thresholds within the scale, coverage, dimension scores and dataset score never fall, a score that appears is 100, and the gate never moves to an earlier tier. |
| `ScoringPerfection.ScoredIffMeasured` | src/dq_scoring/services/validation_service.py:46-114 | A rule's result has a score exactly when it is measured, which needs a measured output whose counts partition; it is never advisory. |
| `ScoringPerfection.NoWeightsMeansEqualWeights` | src/dq_scoring/core/dataset_scoring.py:10-47 | Without weights in the policy the dataset score is the plain average of the dimension scores. |
| `ScoringPerfection.PerfectDataPasses` | src/dq_scoring/core/quality_gate.py:83-106 | Under every acceptable policy, perfect results pass the gate and are published at 100 with full coverage. |
| `ScoringLaws.PublishedExactly` | src/dq_scoring/core/publication.py:10-41 | The orchestrator's scorecard is published exactly when no required rule failed technically, the evidence is sufficient and every required dimension has a measured rule of positive weight; then the published score is the dataset score. |
| `ScoringLaws.PassPublishedExactly` | src/dq_scoring/core/publication.py:10-41 | A WARN or PASS is published exactly when every required dimension has a measured rule of positive weight. |
| `ScoringLaws.PositiveWeightsPublish` | src/dq_scoring/core/quality_gate.py:58-80 | With positive weights the third condition follows, so every WARN and PASS is published. |
| `ScoringLaws.PassWithheld` | src/dq_scoring/core/quality_gate.py:58-68 | With a zero weight a gate of PASS can be withheld: the gate's measured dimensions do not ask for a positive weight, unlike line 30 of dimension_scoring.py. |
| `ScoringLaws.OrderDoesNotMatter` | src/dq_scoring/services/score_aggregator.py:46-148 | Every permutation of the rule results gives the same scorecard. |
| `ScoringLaws.ReplayHashesTheSame` | src/dq_scoring/services/evaluation_orchestrator.py:155-188 | With distinct rule ids every permutation of the rule results hashes the same payload. |
| `ScoringLaws.GroupingConserves` | src/dq_scoring/services/score_aggregator.py:122-148 | Grouping by dimension neither loses nor duplicates a rule. |
| `ScoringAdvisories.AdvisoriesDecideNothing` | src/dq_scoring/services/evaluation_orchestrator.py:102-122 | Whatever the outlier detector reports of any columns, appending its advisories changes neither score, coverage, gate, publication nor any flag. |
| `ScoringServices.GroupByDimension` | src/dq_scoring/services/score_aggregator.py:130-136 | One pass puts every rule into the list of its dimension, in order. |
| `ScoringServices.ComputeAllDimensionResults` | src/dq_scoring/services/score_aggregator.py:122-148 | One result per distinct or required dimension, in name order. |
| `ScoringServices.ValidateRuleset` | src/dq_scoring/services/validation_service.py:23-44 | One result per rule, in rule order, each from its own output; an unknown null policy fails the run. |
| `ScoringServices.OutputOrderDoesNotMatter` | src/dq_scoring/services/validation_service.py:31-32 | The order in which the engine reports its outputs does not matter. |
| `SparkCompute.BucketsPartition` | src/dq_scoring/adapters/compute/spark_compute.py:245-299 | The five sums partition the rows whose conditions are decided, and all rows exactly when none is undecided; the partition identity always holds. |
| `SparkCompute.Aggregate` | src/dq_scoring/adapters/compute/spark_compute.py:256-275 | One pass with five running sums computes the counts. |
| `SparkCompute.ExecuteRules` | src/dq_scoring/adapters/compute/spark_compute.py:182-345 | Every rule is reported in order and on its own, so one that fails to compile takes nothing from the others. |
| `SparkCompute.UniquenessScore` | src/dq_scoring/adapters/compute/spark_compute.py:237-262 | Whatever order the engine numbers the rows in, a compiled uniqueness rule passes one row per distinct value and fails every repetition, which fixes all counts and the score under each null policy. |
| `EvaluationRun.ExecuteLeasedRun` | src/dq_scoring/services/evaluation_orchestrator.py:54-153 | An assessment is saved at most once, for exactly the run's results and between two verifications; success is recorded only after the save, failure exactly when something other than the lease broke, and the snapshot is released last. |
| `PrivacyScanning.Walk` | src/dq_scoring/common/privacy.py:205-218 | The explicit stack collects exactly the leaves of the recursive reading. |
| `PrivacyScanning.PrivacyScanner.CountLeaf` | src/dq_scoring/common/privacy.py:222-239 | Counts a leaf exactly when its path does not pass the limit. |
| `PrivacyScanning.PrivacyScanner.FeedRow` | src/dq_scoring/common/privacy.py:195-239 | Counts exactly the non-null leaves of a row and stops exactly when the path limit is passed. |
| `PrivacyScanning.PrivacyScanner.Finish` | src/dq_scoring/common/privacy.py:283-324 | Reports exactly the keys that matched, with their counts, column-name matches included. |
| `PrivacyScanning.ScanRows` | src/dq_scoring/common/privacy.py:331-340 | A whole scan fails exactly when its leaves have more than 10,000 distinct paths, and otherwise reports what the leaves say. |
| `PrivacyScanning.FindingsAreConsistent` | src/dq_scoring/common/privacy.py:295-315 | No finding matches more often than its path was observed. |
| `PrivacyScanning.RowOrderDoesNotMatter` | src/dq_scoring/common/privacy.py:195-324 | Row order decides neither the findings nor whether the limit is passed. |
| `JsonPointer.DecodeEscape` | src/dq_scoring/common/structured_values.py:117-119 | Decoding an escaped key gives the key back (section 3 of RFC 6901). |
| `JsonPointer.PathsReadBack` | src/dq_scoring/common/structured_values.py:138-145 | Splitting and decoding a recorded path gives back the keys it was made of (section 4 of RFC 6901). |
| `JsonPointer.PathsAreDistinct` | src/dq_scoring/common/privacy.py:115-117 | Different key sequences never get the same path. |
| `JsonPointer.ExtractField` | src/dq_scoring/common/structured_values.py:122-168 | The loop follows the path to its target or tells missing from miscast. |
| `RecordedPaths.ScannerAndExtractorAgree` | src/dq_scoring/common/privacy.py:206-218 | Every scalar of a document, below arrays too, is recorded under the path of its way, and the extractor follows that path back to it exactly when no array is on the way; an array element is never found again. |
| `RecordedPaths.RecordedLeavesAreScalars` | src/dq_scoring/common/structured_values.py:138-161 | Conversely every recorded leaf is a scalar at the end of some way, whose path it has, and is read back exactly when that way has no array. |
| `JsonPointer.WaysShareAPath` | src/dq_scoring/common/privacy.py:209-214 | Two ways into documents get the same path exactly when they differ at most in array elements against keys named `*`. |
| `CanonicalRoundTrip.ReparsingLosesNothing` | src/dq_scoring/common/structured_values.py:91-114 | Printing any accepted value and parsing the text gives its canonical form, with the same identity item by item. |
| `CanonicalRoundTrip.CheckItems` | src/dq_scoring/common/structured_values.py:232-250 | The loop with its set of identities decides bounds and uniqueness. |
| `CanonicalRoundTrip.EvaluateArray` | src/dq_scoring/common/structured_values.py:232-250 | Checking the reparsed text gives the verdict of the original array. |
| `Luhn.IsValid` | src/dq_scoring/common/privacy.py:69-83 | Accepts a text exactly when blanks and dashes taken out leave 13 to 19 digits with a Luhn checksum divisible by ten; a digit character without a decimal value raises. |
| `Luhn.SingleErrorCaught` | src/dq_scoring/common/privacy.py:69-83 | One wrong digit is always caught. |
| `Luhn.SwapCaught` | src/dq_scoring/common/privacy.py:69-83 | Two neighbours swapped pass exactly when they are equal or are 0 and 9. |
| `Spelling.Tokenize` | src/dq_scoring/adapters/compute/spelling_dictionary.py:18-33 | Every letter comes out exactly once and in order, in maximal words that start with a letter. |
| `Spelling.WordsDetermined` | src/dq_scoring/adapters/compute/spelling_dictionary.py:18-33 | There is only one way to cut a text into such words. |
| `SpellingCache.SpellingEvaluator.Lookup` | src/dq_scoring/adapters/compute/spelling_dictionary.py:60-69 | The cache holds the 4096 most recently used words in order of use, and its answer is the dictionary's. |
| `SpellingCache.SpellingEvaluator.Evaluate` | src/dq_scoring/adapters/compute/spelling_dictionary.py:47-73 | The cached answer is the uncached one, whatever came before. |
| `SpellingCache.EvaluateAll` | src/dq_scoring/adapters/compute/spelling_dictionary.py:47-73 | The same for any sequence of calls on one evaluator. |
| `EvidencePayload.Prepare` | src/dq_scoring/common/redaction_utils.py:87-132 | The payload fits its bound exactly when the bound allows it; kept samples are the longest admitted prefix that fits with the full message. |
| `EvidencePayload.Shorten` | src/dq_scoring/common/redaction_utils.py:114-130 | A shortened message is a prefix with the suffix and fits. |
| `ScanSummary.Bounded` | src/dq_scoring/workers/privacy_scan_worker.py:72-80 | Keeps the longest prefix whose list takes fewer bytes than the budget; a list of exactly the budget is cut. |
| `ScanSummary.Build` | src/dq_scoring/workers/privacy_scan_worker.py:83-102 | With 64-bit counters the summary stays within its limit and says whether anything was left out. |
| `PrivacyReviews.ReviewTakesEffect` | src/dq_scoring/services/privacy_service.py:153-181 | A request to confirm or dismiss a finding stores the status asked for, under the name and for the reason given, logs it and moves the asset's revision, exactly when the finding has the status the request expects; otherwise nothing changes. |
| `PrivacyReviews.ConfirmationMasks` | src/dq_scoring/services/privacy_service.py:155-170 | Whatever runs after somebody confirms a finding, its column is masked; if it is ever in clear again, somebody has asked to dismiss that finding as a confirmed one. |
| `PrivacyReviews.LastRequestStands` | src/dq_scoring/services/privacy_service.py:155-170 | In every run the last accepted request about a finding is the decision it carries: status, reviewer, reason and time. |
| `PrivacyReviews.ReviewsWereRequested` | src/dq_scoring/services/privacy_service.py:172-181 | Every review on the audit log goes back to an accepted request that asked for this status under this name, for this reason and at this time. |
| `PrivacyReviews.DecisionsTraceToRequests` | src/dq_scoring/workers/privacy_scan_worker.py:290-321 | Every decision a finding carries goes back, through consecutive complete APPLY scans of the same rule revision, column and path, to an accepted request for that very decision. |
| `PrivacyMasks.MaskExactly` | src/dq_scoring/services/privacy_policy.py:36-102 | In every reachable state a column is masked exactly when it is declared basic or sensitive personal or confidential business data, when a confirmed finding, or an undecided one of the last complete scan or of no scan, is in it, or when its last APPLY job, or for want of any its import scan, is not complete under today's rules; with neither, everything is masked. |
| `PrivacyMasks.DeclarationStands` | src/dq_scoring/services/column_classification_service.py:28-37 | In every run what an asset declares of a column is what the last accepted batch that names the column says of it last. |
| `PrivacyMasks.DeclarationDecides` | src/dq_scoring/services/column_classification_service.py:15-38 | While the last accepted word on a column is one of the three sensitive categories, it is masked in every snapshot of the asset; while it is standard data or a withdrawal, it is masked exactly for a standing finding or for want of a scan under today's rules. |
| `SessionRuns.SessionMaskExactly` | src/dq_scoring/services/privacy_policy.py:120-141 | A session masks its snapshot's columns once registered, every known name before a complete scan, and otherwise exactly what is reported sensitive, found, or declared in one of the three sensitive categories. |
| `PrivacyLeases.ClaimHandsOut` | src/dq_scoring/workers/privacy_scan_worker.py:120-149 | Along every run a claim takes the oldest unlocked job that is queued or whose lease ran out before now, and moves only that job; nobody gets a lease exactly when there is no such job. |
| `PrivacyLeases.LeaseIsExclusive` | src/dq_scoring/workers/privacy_scan_worker.py:120-162 | Whatever runs in between, up to the moment a lease was granted or extended to its job runs under it, no later lease exists and its holder may write, unless the holder published, gave up or asked for less time. |
| `PrivacyLeases.ClaimIsHeld` | src/dq_scoring/workers/privacy_scan_worker.py:133-141 | A claim grants the job for the lease time from now. |
| `PrivacyLeases.HeartbeatIsHeld` | src/dq_scoring/workers/privacy_scan_worker.py:151-162 | A heartbeat under a lease that has not run out grants the job for the lease time from now. |
| `PrivacyScans.SubmissionAnswers` | src/dq_scoring/services/privacy_scan_service.py:44-71 | Every submission is answered with the scan under way for its snapshot and purpose if it fits, or queues one pinned to exactly the rules in force, or to exactly the chosen revision switched on; only a scan to be applied moves the asset's revision. |
| `PrivacyScans.PublicationAnswers` | src/dq_scoring/workers/privacy_scan_worker.py:270-345 | A scanning worker's report is written exactly under its current lease and without two hits of one identity, and then completely: one finding per hit, revision, event and the completed job; previews write no finding. |
| `PrivacyScans.FailureAnswers` | src/dq_scoring/workers/privacy_scan_worker.py:347-377 | A failed attempt is queued again exactly for a storage or general failure with fewer than three attempts made; any other ends the scan at once with its code and one event. |
| `PrivacyScans.HeartbeatAnswers` | src/dq_scoring/workers/privacy_scan_worker.py:151-162 | A heartbeat extends exactly the current lease from now and touches nothing else. |
| `PrivacyEdits.CreationTakesEffect` | src/dq_scoring/services/privacy_rule_service.py:100-115 | A rule is added exactly when its code and id are free and no hundred rules are switched on, with the fields asked for; else the first refusal applies and nothing changes. |
| `PrivacyEdits.RevisionTakesEffect` | src/dq_scoring/services/privacy_rule_service.py:118-143 | A revision is appended exactly when it follows the rule's last row and fits its kind, and keeps code and kind; else the first refusal applies and nothing changes. |
| `PrivacyEdits.BatchTakesEffect` | src/dq_scoring/services/column_classification_service.py:15-38 | An accepted batch logs one entry per change, in order, from what was declared just before it to what it says, and moves nothing but declarations and revision. |
| `PrivacyEdits.PolicyTakesEffect` | src/dq_scoring/services/privacy_service.py:243-295 | An accepted policy makes each of the six roles see exactly the given categories fully masked, keeps every other strategy, and logs what was masked before. |
| `PrivacyEdits.ImportTakesEffect` | src/dq_scoring/services/dataset_import_service.py:197-271 | An import is recorded under the tenant's own asset or a new one, with its own complete scan when it brings a pin and its findings undecided; a hit is left out exactly when it clashes with one kept before it. |
| `PrivacyEdits.ImportPinTakesEffect` | src/dq_scoring/services/privacy_rule_service.py:146-167 | The pin an import takes is exactly the rules in force, by rule id, at that moment. |
| `ImportRequests.ImportClaimHandsOut` | src/dq_scoring/workers/import_worker.py:86-160 | Along every run a claim looks at the oldest unlocked session that is staged or whose lease ran out, fails it when it expired or had three attempts, and leases it otherwise; nothing moves exactly when there is no such session. |
| `ImportRequests.ImportLeaseIsExclusive` | src/dq_scoring/workers/import_worker.py:66-140 | Whatever runs in between, up to the moment a lease was granted or extended to its session stays in verification under it, unless its holder ended the import or asked for less time. |
| `ImportRequests.ImportClaimIsHeld` | src/dq_scoring/workers/import_worker.py:130-142 | A claim that hands out a lease grants it for the lease time from now. |
| `ImportRequests.ImportEnds` | src/dq_scoring/workers/import_worker.py:183-340 | An import whose lease is still its own is verified, with its manifest, exactly when the inspection succeeded and no step since it began has changed the protection of its asset; if one has, it is rejected for that. Every other outcome has its own status and reason, and a lost lease writes nothing. |
| `ImportRequests.RegistrationAnswers` | src/dq_scoring/services/dataset_import_service.py:28-306 | Every registration is answered with the snapshot of the session's bytes or with the first refusal that applies; bytes new to the asset become version n + 1 of its n versions and the current one. |
| `ImportRequests.SessionsFollowTheirWays` | src/dq_scoring/presentation/api/routes/import_routes.py:534-843 | A session changes its status only along the nine ways of its life cycle, each taken by its own step. |
| `ImportRequests.LifeCycleAnswers` | src/dq_scoring/presentation/api/routes/import_routes.py:534-843 | Completing, configuring and aborting move a session exactly from the states, and within the time, that allow it. |
| `ScoringReference.RuleExactly` | src/dq_scoring/services/validation_service.py:46-114 | What a measurement becomes, for every status, null policy and set of counts; the result keeps the rule's switches, weight and threshold. |
| `ScoringReference.RowsToResult` | src/dq_scoring/adapters/compute/spark_compute.py:245-299 | From rows to a rule's result: each bucket counts the rows its own conditions pick out, and the score is the passing ones among those that count. |
| `ScoringReference.RequiredAre` | src/dq_scoring/core/dimension_scoring.py:36-52 | The required dimensions are those with a scored, primary rule of positive weight that applies. |
| `ScoringReference.ScorecardExactly` | src/dq_scoring/services/score_aggregator.py:46-120 | The whole scorecard written down a second time: one entry per dimension in name order, weighted means of scores and coverages, each gate by its own condition, and publication with that very score. |
| `ScoringReference.CriticalRuleFailsTheGate` | src/dq_scoring/core/quality_gate.py:24-44 | A measured critical rule that counts for the gate makes the gate FAIL or ERROR, whatever the other results are, when its percentage misses its threshold or, without one, a single record fails. |
| `JsonEquality.IdentityIsSameness` | src/dq_scoring/common/structured_values.py:221-229 | Two array items have one identity exactly when they are the same value: numbers by value however they are written, arrays item by item, objects by what they hold under each key in whatever order. |
| `JsonEquality.ArrayCheckMeans` | src/dq_scoring/common/structured_values.py:232-250 | An array passes exactly when its length is within the bounds and, if asked for, no two items are the same value. |
| `RecordedPaths.ExtractExactly` | src/dq_scoring/common/structured_values.py:122-168 | The extractor's answer for the path of some keys is what the keys lead to, if anything but null, a type error exactly when they lead below a scalar or null, and missing otherwise. |
| `PrivacyScanning.ReportExactly` | src/dq_scoring/common/privacy.py:264-324 | What a report says of a column, path and detector, in numbers of leaves: those matched out of those seen, or for a column name all values seen at its root, all rows when none was. |
| `SparkCompute.BucketsExactly` | src/dq_scoring/adapters/compute/spark_compute.py:245-299 | Each count is the number of rows whose conditions, taken in scope order, pick that bucket and are all known. |
| `Luhn.CheckDigit` | src/dq_scoring/common/privacy.py:69-83 | Appending a digit to a payload of 12 to 18 digits gives a valid number exactly when it brings the sum of the payload, every other digit doubled from the right, to a multiple of ten; exactly one digit does. |
| `SpellingCache.RecencyByLastUse` | src/dq_scoring/adapters/compute/spelling_dictionary.py:60-69 | The order of the cache is the order of last uses. |

## Left out

- PrivacyTheorems.UnmaskedMeansFresh: is stated for snapshots with an APPLY job; older snapshots whose manifest carries a
  complete scan without a config version count as verified in the code whatever the rules are.
- RecordedPaths.ScannerAndExtractorAgree: array index tokens are read by a parser of integers that is laxer than section 4
  of RFC 6901; it is left arbitrary but for refusing `*`.
- ScoringMonotone.RecordImprovesScorecard: is stated for a rule with counting records; the first one, which may raise the
  coverage and turn scores from absent to 100, is `ScoringFirstRecord.FirstRecordImprovesScorecard`.
- SessionProtection.RegisteringUnmasks: is stated for registrations that create a snapshot; one that finds its bytes
  registered already takes the mask of the existing snapshot.
- ScoringAdvisories.AdvisoriesDecideNothing: is about outlier advisories; the validation service never marks a rule's own
  result as advisory.
- CanonicalRoundTrip.ReparsingLosesNothing: strings and numbers are single tokens; their lexical forms and the rejection of
  lone surrogates and of constants such as NaN are not modelled.
- ScanSummary.Build: measures the summary in the compact form its own budget uses, not in the form the driver sends.
- LockOrder.NoDeadlockCycle: covers the row locks and the seeding lock; unique-index waits of inserts, foreign-key locks and
  the object store are not modelled. It starts from rows in which tenants with snapshots are seeded, as migration 020
  leaves them. An UPDATE is taken to wait for its row even when it would match none, which only adds waits.
- PrivacyScanning.ScanRows: which values a builtin detector matches is arbitrary; the list of columns missing from a rule's
  scope, the per-column plan cache and the rounding of the confidence are not modelled.
- PrivacyScanWorker.Worker.Publish: the stored result summary, start and finish times and the requester are not modelled.
- ImportServices.ImportWorker.RecordOutcome: inspection, object storage and the manifest beyond its hashes, its location and
  one warning are not modelled; the protection side of an import and its registration is modelled separately, on the
  privacy tables (`SessionRuns`).
- ImportServices.RegisterSnapshot: asset names are taken as already stripped, and slugs, row counts and descriptors are left out.
- The guards of a rule score for rules that are not applicable or lack metadata, which no caller uses.
- Masking of stored previews, profiles and Arrow arrays, listing and reading routes, and policy reading: shallow maps.
- Multipart upload parts, client request ids and session janitors of the import routes.
- The loading of spelling dictionaries, rule compilation, evidence samples, outlier statistics and Spark sessions.
- Rule recommendations, template packs, the frontend, monitoring and deployment: outside the decisions modelled here.
