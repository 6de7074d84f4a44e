# Verified models of the operational scripts

Maritime Claims Platform keeps a set of operational scripts beside its API: CI
classifiers and timing read-backs, a lock-telemetry probe, an environment
loader, evidence-archive restore, a second-engine restore rehearsal, OCR study
arithmetic, and a guarded branch-protection change. Each of them is a small
self-contained algorithm whose answer other people act on. This project models
those algorithms in Dafny and proves what they are relied on for.

Every refusal of a script (an exception with a fixed text) is the value
`Refused`; everything outside the process (docker, the code host, the clock, the
file contents) is a parameter that may take any value at any step. Loops that
update variables are loops here, each proved against a specification that does not
repeat it; tests that decide acceptance are proved against separately written
predicates, in which limits, names and texts stand as literals; comprehensions are
functions; objects that change in place are classes.

| file | what it models |
|---|---|
| `WaitGraph.dfy` | the bounded lock sample and its depth-first cycle search |
| `DotEnv.dfy` | the restricted environment reader and its two printers |
| `ArchiveNames.dfy`, `EvidenceArchive.dfy`, `RecoveryRecord.dfy` | archive extraction, reconciliation with database rows, and the second walk over the same archive |
| `OcrStudy.dfy`, `OcrReport.dfy`, `OcrPaired.dfy`, `OcrLedger.dfy`, `Marks.dfy`, `Wilson.dfy` | OCR metrics, their published report, the paired comparison, the reviewer ledger, the counters they share, the score interval |
| `IndependentRestore.dfy` | the restore protocol against a second engine |
| `CiTiming.dfy` | the CI run and pair analyzer |
| `Sharding.dfy` | the hash partition of collected nodes and the proof that all parts ran |
| `Rulesets.dfy`, `Activation.dfy`, `Observation.dfy`, `Timestamps.dfy` | the ruleset evaluator, the guarded change to eleven checks, the red/green evidence, and the order of UTC stamps |
| `RepeatSmoke.dfy` | three observation rounds and the guard that re-validates their report |
| `ChangeScope.dfy` | the change-list reader, the backend classifier and the browser-gate admission |
| `PyText.dfy`, `Tally.dfy`, `Outcomes.dfy` | string operations, sums and counts, results |

Places where code and expectation part, kept as the code has them:

* A later lock row of a process replaces the blockers of an earlier one. A sample
  that calls itself complete is therefore the raw relation if and only if the last
  row of every process lists all blockers of its earlier rows
  (`WaitGraph.CompleteSampleIsExactIff`). Distinct process ids suffice
  (`WaitGraph.CompleteSampleIsExact`) but are not needed
  (`WaitGraph.RepeatedPidCanBeExact`); when the condition fails a self-wait can be
  hidden (`WaitGraph.RepeatedPidHidesCycle`). The probe's own query over
  `pg_stat_activity` (scripts/pilot_pg_wait_probe.py:19-27) returns one row per
  process, so only another caller of `safe_summary` can meet the difference.
* The snapshot printer adds quotes, so a text that was accepted can print to one
  that is too large to read again; reading back works if and only if the printed
  text fits (`DotEnv.SnapshotRoundTrip`, `DotEnv.SnapshotCanOverflow`).
* The two archive walks accept different archives. The restore walk extracts a
  directory listed twice, which the recording walk refuses
  (`RecoveryRecord.TwiceListedDirectory`); on extractable archives that is, with the
  member limit and emptiness, the only difference (`RecoveryRecord.WalksAgree`). The
  recording walk accepts names such as `./a`, which the restore walk always refuses
  (`RecoveryRecord.DotPrefixedMember`, `RecoveryRecord.DotPrefixNeverExtracts`); a
  recorded archive extracts if and only if its members are usable, no file stands in
  the way of another member and the restore limits hold
  (`RecoveryRecord.RecordedExtracts`).
* An empty change list is classified as full only by default. A full answer survives
  every addition if and only if the list is not empty (`ChangeScope.FullIsKeptIff`);
  from the empty list one unrelated entry leads to none, and one audited file to
  narrow (`ChangeScope.EmptyFullIsNotKept`).
* Several tests in the scripts never decide: the normalisation test on member
  names (`ArchiveNames.NormalTestIsRedundant`), the repeated-key test of the
  ledger index (`OcrLedger.IndexDistinct`), four tests of the proposal
  (`Activation.ProposalCondition`), the length test of the browser gate
  (`ChangeScope.Eligible`) and the guard's validation of the repeat report
  (`RepeatSmoke.RunnerSatisfiesGuard`).

## Model

| member | source | states |
|---|---|---|
| WaitGraph.Search.Visit | scripts/pilot_pg_wait_probe.py:68-79 | the recursive search terminates; a hit proves a cycle; a miss restores the path and adds the process to a finished set that stays successor-closed and acyclic; no blocker list is walked twice |
| WaitGraph.Search.Enter | scripts/pilot_pg_wait_probe.py:73 | entering a process keeps the path a chain of edges and records the walk of its list |
| WaitGraph.Search.Finish | scripts/pilot_pg_wait_probe.py:77-78 | leaving a process whose blockers are all finished keeps the finished set ranked below its own successors |
| WaitGraph.ObservedBlockerGraph | scripts/pilot_pg_wait_probe.py:46-85 | reports a cycle exactly when the visible graph has one, self-waits included; over all roots every list is walked at most once, and all of them when there is no cycle |
| WaitGraph.RankedIsAcyclic | scripts/pilot_pg_wait_probe.py:66-81 | a graph whose every edge leads to an earlier finished process has no cycle of any length |
| WaitGraph.SafeSummary | scripts/pilot_pg_wait_probe.py:88-118 | one session for each of the first 32 rows, showing that row: its process, its state and kind of wait or else the fallback when they are not listed, all of its event name or the first 64 characters, its age or zero, all of its blockers or the first 16; the blocked count is the number of sessions with a blocker, both truncation flags are exact, and the graph part speaks about that sample |
| WaitGraph.ClipShows | scripts/pilot_pg_wait_probe.py:94-108 | the record built from a row shows exactly that row, and nothing but listed texts leaves as it is |
| WaitGraph.BlockedIsWaiting | scripts/pilot_pg_wait_probe.py:111 | the sum over the sessions is the size of the set of sessions that wait |
| WaitGraph.ObservedCycleIsReal | scripts/pilot_pg_wait_probe.py:53-64 | both cuts only hide edges: an observed cycle is a cycle of the raw blocking relation, for any rows |
| WaitGraph.CompletenessFlag | scripts/pilot_pg_wait_probe.py:60-64 | the completeness flag means nothing was clipped and every blocker is a listed process |
| WaitGraph.LastWins | scripts/pilot_pg_wait_probe.py:54-59 | the last session of a process decides its edges in the visible graph |
| WaitGraph.CompleteSampleIsExactIff | scripts/pilot_pg_wait_probe.py:53-85 | a complete sample is the raw relation if and only if the last row of every process lists all blockers of its other rows |
| WaitGraph.CompleteSampleIsExact | scripts/pilot_pg_wait_probe.py:53-85 | for distinct processes a complete sample is the raw relation, so complete without a cycle means the raw relation is acyclic |
| WaitGraph.RepeatedPidHidesCycle | scripts/pilot_pg_wait_probe.py:54-59 | where a later row of one process drops a blocker, a complete sample can hide a cycle: two rows of one process, the first waiting for itself |
| WaitGraph.RepeatedPidCanBeExact | scripts/pilot_pg_wait_probe.py:54-59 | repeated processes alone do no harm: two equal rows of one process give an exact sample |
| DotEnv.ReaderMeetsGrammar | scripts/pilot_demo_env_loader.py:40-57 | the branch-by-branch reader accepts a line exactly when it spells a safe name and a safe value bare, single quoted or double quoted, and yields that entry |
| DotEnv.ValueMeetsSpelling | scripts/pilot_demo_env_loader.py:45-56 | the quoting branches read a value exactly from its three spellings |
| DotEnv.ParseEnv | scripts/pilot_demo_env_loader.py:32-57 | the loop accepts exactly the texts within the size limit whose lines are blank, comments or assignments with distinct names, and returns the entries in order |
| DotEnv.NameLetters | scripts/pilot_demo_env_loader.py:18 | a name is capital letters, digits and underscores after a capital letter, one by one |
| DotEnv.RefusedNames | scripts/pilot_demo_env_loader.py:19-44 | twelve of the sixteen refused names and the seven prefixes are all that is refused; the other four names are covered by a prefix |
| DotEnv.SafeChars | scripts/pilot_demo_env_loader.py:53-54 | a value character is none of five marks, no control and no delete |
| PyText.StripIsMiddle | scripts/pilot_demo_env_loader.py:37 | stripping cuts only white space, at both ends, and leaves none there |
| PyText.SplitLinesCut | scripts/pilot_demo_env_loader.py:36 | the lines hold no break, and with one break after each, carriage return and line feed being one, they are the text again |
| PyText.SpacesListed | scripts/pilot_demo_env_loader.py:36-51 | white space and line breaks, code point by code point |
| PyText.WidthIsLeast | scripts/pilot_demo_env_loader.py:33 | a character counts the fewest bytes whose payload bits hold its code point |
| DotEnv.WriteSnapshot | scripts/pilot_demo_env_loader.py:88-93 | the writing loop prints one quoted line per entry, in order |
| DotEnv.SnapshotRoundTrip | scripts/pilot_demo_env_loader.py:84-93 | parsing the printed snapshot of any parsed text gives the same ordered map, and is accepted if and only if the printed text fits the size limit |
| DotEnv.NulStreamRoundTrip | scripts/pilot_demo_env_loader.py:102-105 | splitting the NUL stream at NUL and then at the first equals sign gives back the same ordered map |
| DotEnv.SnapshotCanOverflow | scripts/pilot_demo_env_loader.py:32-35 | for one unquoted value of every length: accepted up to the limit, read back only up to three bytes less |
| ArchiveNames.NormalTestIsRedundant | scripts/pilot_ci_evidence_restore.py:25-37 | a name is accepted exactly when its start is good and every part is plain; the normalisation test adds nothing |
| ArchiveNames.SafeNameIs | scripts/pilot_ci_evidence_restore.py:25-37 | a name means a path exactly when it is the plain parts joined by slashes, any slashes behind, without backslash or control character |
| ArchiveNames.StartIs | scripts/pilot_recovery_pair.py:108-116 | the start test passes exactly for clean names with a first character other than a slash |
| ArchiveNames.RelativeText | scripts/pilot_recovery_pair.py:108-123 | a relative name names the directory itself exactly when no part of it is kept, and else is its kept parts joined |
| ArchiveNames.ResolvesBelow | scripts/pilot_ci_evidence_restore.py:25-37 | an accepted path joined to any directory resolves to a place strictly below it |
| ArchiveNames.NormalNameIsPath | scripts/pilot_recovery_pair.py:108-116 | on names the restore walk accepts, the recovery walk normalises to the same path |
| ArchiveNames.NormalNameInjective | scripts/pilot_recovery_pair.py:116-123 | normalised names are equal exactly when the paths are |
| EvidenceArchive.RestoreDir.MakeDirs | scripts/pilot_ci_evidence_restore.py:64-72 | creating directories succeeds exactly when no file stands in the way and changes nothing else |
| EvidenceArchive.RestoreDir.CreateFile | scripts/pilot_ci_evidence_restore.py:73-79 | exclusive creation adds one file at a plain path below the root and never replaces anything; the tree stays safe |
| EvidenceArchive.ExtractDirectory | scripts/pilot_ci_evidence_restore.py:61-65 | one directory member is extracted, or the archive as a whole cannot be |
| EvidenceArchive.ExtractFile | scripts/pilot_ci_evidence_restore.py:72-82 | one regular member is written once, at most as a beginning of its own stream, or the archive as a whole cannot be extracted |
| EvidenceArchive.Extract | scripts/pilot_ci_evidence_restore.py:54-86 | for any member sequence, accepted or refused, the tree stays safe, at most 5000 files and 2147483648 bytes are written, and every write copies a beginning of a member to its own path; it is accepted exactly when the order-free condition holds, and then every regular member stands at its path with exactly its declared bytes |
| EvidenceArchive.Reconcile | scripts/pilot_ci_evidence_restore.py:88-110 | accepted exactly when the document keys are distinct and each is a whole regular member of its size whose declared bytes have its digest |
| EvidenceArchive.RestoreAndReconcile | scripts/pilot_ci_evidence_restore.py:40-110 | the whole call: exact acceptance, exact counts, every member with its own bytes at its own path, every document with the digest of those bytes of the member of its name, and no write at all outside an empty directory |
| EvidenceArchive.FileDataIs | scripts/pilot_ci_evidence_restore.py:73-82 | the bytes at a path are those of the one member written there |
| EvidenceArchive.TreeHoldsFiles | scripts/pilot_ci_evidence_restore.py:72-82 | the tree of an extracted archive holds each regular member at its path with its first declared bytes |
| EvidenceArchive.CompatibleStep | scripts/pilot_ci_evidence_restore.py:64-81 | members that meet no conflict in the tree so far stay free of conflicts with every earlier member |
| EvidenceArchive.BlockedIsConflict | scripts/pilot_ci_evidence_restore.py:64-72 | a blocked directory in the tree is a conflict between two members of the archive |
| EvidenceArchive.ExtractionIgnoresOrder | scripts/pilot_ci_evidence_restore.py:57-85 | reordering an archive changes neither acceptance nor the resulting tree, although the walk stops at the first conflict |
| EvidenceArchive.BackedByFile | scripts/pilot_ci_evidence_restore.py:89-109 | looking at the restored file decides exactly whether an archive member backs the document |
| RecoveryRecord.EvidenceIdentity | scripts/pilot_recovery_pair.py:97-140 | the recording walk accepts exactly the identifiable archives and reports their entry count and declared bytes |
| RecoveryRecord.WalksAgree | scripts/pilot_recovery_pair.py:97-140 | an extractable archive is recordable exactly when it is nonempty, not too long and lists no path twice; its declared bytes are what extraction writes |
| RecoveryRecord.RecordedExtracts | scripts/pilot_recovery_pair.py:97-140 | conversely, a recordable archive is extractable exactly when its members are usable, no file stands in the way of a member and the restore limits hold |
| RecoveryRecord.TwiceListedDirectory | scripts/pilot_recovery_pair.py:121-123 | a directory listed twice, under any accepted name, extracts and is not recorded |
| RecoveryRecord.DotPrefixedMember | scripts/pilot_recovery_pair.py:113-123 | a file named with a leading dot segment is recorded and does not extract |
| RecoveryRecord.DotPrefixNeverExtracts | scripts/pilot_ci_evidence_restore.py:31-33 | no archive with such a name extracts |
| RecoveryRecord.ExtractThenRecord | scripts/pilot_recovery_pair.py:97-140 | whenever both walks accept one archive, bytes written equal bytes declared |
| RecoveryRecord.DistinctNames | scripts/pilot_recovery_pair.py:116-123 | the recorded names are distinct exactly when the extracted paths are |
| OcrStudy.IncrementsAreExact | scripts/persian_ocr_local_validation_metrics.py:141-164 | the branches increment exactly the counters whose condition the span meets, and list none of them twice |
| OcrStudy.ContainsIs | scripts/persian_ocr_local_validation_metrics.py:136-162 | a literal is in a text exactly when the text is something, the literal and something |
| OcrStudy.KindsAre | scripts/persian_ocr_local_validation_metrics.py:19-26 | the six kinds, one by one |
| OcrStudy.CheckSpan | scripts/persian_ocr_local_validation_metrics.py:121-140 | the tests on one span accept exactly the well-formed spans |
| OcrStudy.CheckHeader | scripts/persian_ocr_local_validation_metrics.py:94-117 | the tests on one page before its spans accept exactly the well-formed pages |
| OcrStudy.CountPage | scripts/persian_ocr_local_validation_metrics.py:115-164 | one page is accepted exactly when its spans are well formed with new references and literals, and all buckets stay exact |
| OcrStudy.EvaluateLocalStudy | scripts/persian_ocr_local_validation_metrics.py:81-164 | the nested loops accept exactly the valid studies, and every counter, overall and per kind, is the number of spans with its meaning |
| OcrStudy.BucketPartitions | scripts/persian_ocr_local_validation_metrics.py:141-164 | positives = measured + unknown, measured = found + missing, found = searched + unsearched, searched = hit + miss, negatives = measured + unknown, insertions at most measured negatives, in every bucket |
| OcrStudy.OverallIsSumOfKinds | scripts/persian_ocr_local_validation_metrics.py:88-164 | each overall counter of an accepted study is the sum of the six kind counters |
| OcrStudy.FlattenKeysDistinct | scripts/persian_ocr_local_validation_metrics.py:94-140 | an accepted study has one key per span, by case, locator and reference |
| Wilson.WilsonInterval | scripts/persian_ocr_local_validation_metrics.py:52-60 | in exact reals 0 <= lower <= share <= upper <= 1 before clamping, so no clamp bites; an end is touched exactly at no success or no failure |
| Wilson.WilsonMirror | scripts/persian_ocr_local_validation_metrics.py:52-60 | exchanging successes and failures mirrors the interval about one half |
| Wilson.EndsSolve | scripts/persian_ocr_local_validation_metrics.py:52-60 | seen from either end x, the share p satisfies total (x - p)^2 = z^2 x (1 - x) exactly |
| Wilson.StudyIntervalCovers | scripts/persian_ocr_local_validation_metrics.py:52-60 | the interval exists exactly with observations; its two different ends are the solutions of the score equation at the quantile 1.959963984540054, it lies in [0, 1], contains the observed share, and touches 0 only without a success and 1 only without a failure |
| OcrReport.SummaryIsExact | scripts/persian_ocr_local_validation_metrics.py:166-183 | from an exact bucket: recall is found against missing, inside the interval whose ends solve the score equation, insertions are a share of measured negatives, retrieval is hits against misses; each is absent exactly without observations and 0 or 1 exactly without successes or failures |
| OcrReport.PublishStudy | scripts/persian_ocr_local_validation_metrics.py:81-197 | the whole report is published exactly for valid studies, and every counter, rate and interval in it, overall and per kind, has its meaning on the spans |
| OcrPaired.PairIncrementsAreExact | scripts/persian_ocr_paired_holdout_comparison.py:121-150 | the branches increment exactly the counters whose meaning the two labels have, and list none of them twice |
| OcrPaired.ComparePage | scripts/persian_ocr_paired_holdout_comparison.py:117-150 | one matched page is accepted exactly when kind, literal and expectation agree for every span, and the buckets stay exact |
| OcrPaired.CheckSource | scripts/persian_ocr_paired_holdout_comparison.py:93-109 | two pages are comparable exactly when version, source and reference text agree, the span references are the same, and different complete transcripts have different digests |
| OcrPaired.KeysDecide | scripts/persian_ocr_paired_holdout_comparison.py:77 | comparing the key sets decides whether every page has a counterpart |
| OcrPaired.ComparePages | scripts/persian_ocr_paired_holdout_comparison.py:96-155 | the page loop accepts exactly the matching and covering studies and counts every pair |
| OcrPaired.ComparePaired | scripts/persian_ocr_paired_holdout_comparison.py:62-155 | the whole comparison accepts exactly the comparable studies; its counters, both studies' own counters and the table of risks are exact |
| OcrPaired.RiskIsExact | scripts/persian_ocr_paired_holdout_comparison.py:160-205 | each risk total is the overall counter less the last kind's, and each of the three alarms rings exactly when a pair of a critical kind gives reason |
| OcrPaired.FoundPage | scripts/persian_ocr_paired_holdout_comparison.py:27-32 | the page index finds a page exactly when one has the key |
| OcrPaired.StudiesAgree | scripts/persian_ocr_paired_holdout_comparison.py:126-150 | for each kind and overall, in any two listing orders: found = both present + lost (or recovered) + counterpart unmeasured, the same for insertions; nothing is unmeasured when all pages are complete |
| OcrPaired.PairsSwap | scripts/persian_ocr_paired_holdout_comparison.py:96-150 | each counter of the swapped comparison is the mirrored counter |
| OcrPaired.SwapTheorem | scripts/persian_ocr_paired_holdout_comparison.py:62-155 | swapping the studies preserves acceptance, exchanges recovered with lost and new with removed insertions, and leaves the others alone |
| OcrLedger.IndexDistinct | scripts/persian_ocr_review_disagreement_metrics.py:79-90 | in an accepted study the index of positive spans never meets a key twice |
| OcrLedger.RowIncrementsAreExact | scripts/persian_ocr_review_disagreement_metrics.py:128-145 | the branches of one row increment exactly the counters whose condition it meets, each once |
| OcrLedger.CheckRow | scripts/persian_ocr_review_disagreement_metrics.py:99-127 | the tests on one row accept exactly the rows that agree with their index entry and carry valid, independent verdicts |
| OcrLedger.FitsIsOk | scripts/persian_ocr_review_disagreement_metrics.py:79-113 | a row agrees with the index entry of its key exactly when it names a positive span of the study with the hashes of that page |
| OcrLedger.PlannedSpans | scripts/persian_ocr_review_disagreement_metrics.py:162 | the planned count is the number of positive spans of the study |
| OcrLedger.TallyReviews | scripts/persian_ocr_review_disagreement_metrics.py:91-145 | the counting loops accept exactly when every row reviews a positive span of the study, none twice, with valid records, and keep every counter exact |
| OcrLedger.BuildIndex | scripts/persian_ocr_review_disagreement_metrics.py:79-90 | the index loop returns every positive span once, in study order, and never refuses |
| OcrLedger.SummarizeReviews | scripts/persian_ocr_review_disagreement_metrics.py:66-166 | accepted exactly when every row names a positive span once with valid records; every published figure, the missing rows and the rate of agreement included, is exact for each kind and overall |
| OcrLedger.LedgerBalances | scripts/persian_ocr_review_disagreement_metrics.py:120-145 | rows = agreed + disagreed, required = supplied + missing, supplied = the three verdicts, for each kind and overall |
| OcrLedger.MissingRowsAreExact | scripts/persian_ocr_review_disagreement_metrics.py:147-157 | positives less rows is exactly the number of positive spans without a row, never negative |
| OcrLedger.FinalizeIsExact | scripts/persian_ocr_review_disagreement_metrics.py:147-157 | finalizing publishes the number of positive spans without a row, never negative, and a rate in the unit interval that is one exactly without disagreement |
| OcrLedger.LedgerSeesStudy | scripts/persian_ocr_review_disagreement_metrics.py:92-96 | indexed positive spans and positive spans of the study are equally many, for each kind and overall |
| OcrLedger.LedgerEqualsStudy | scripts/persian_ocr_review_disagreement_metrics.py:92-96 | the published positive counters of ledger and study are equal in every scope |
| OcrLedger.ThreeCountsAgree | scripts/persian_ocr_paired_holdout_comparison.py:134-136 | ledger, both studies and the paired comparison publish one number of positive spans, for each kind and overall |
| OcrLedger.CompletenessFlag | scripts/persian_ocr_offline_study_run.py:94-101 | the flag holds exactly when every positive span has a row and every row without a ruling has two preserved findings |
| OcrLedger.EvaluatePacket | scripts/persian_ocr_offline_study_run.py:28-104 | the packet is accepted exactly when its parts are; it carries the exact study metrics and ledger, which show the same positives, and a flag with the meaning above |
| IndependentRestore.Attempt | scripts/pilot_ci_independent_postgres.py:125-138 | one probe stops at the first answer that is not ready and succeeds only with all three good answers |
| IndependentRestore.AwaitReady | scripts/pilot_ci_independent_postgres.py:119-142 | at most sixty attempts with pauses between; ready exactly when two neighbouring attempts succeed, at the first such pair |
| IndependentRestore.CollectLineage | scripts/pilot_ci_lineage_reconcile.py:74-81 | all families are read in order, stopping at exactly the first unreadable or wrongly empty one |
| IndependentRestore.ReconcileIsMatch | scripts/pilot_ci_lineage_reconcile.py:84-94 | comparing the dictionaries decides whether every answer equals the source's fingerprint of its own table |
| IndependentRestore.PublishedRows | scripts/pilot_ci_lineage_reconcile.py:91-94 | the published row count is the sum of the rows in the seven answers |
| IndependentRestore.MatchEvidence | scripts/pilot_ci_independent_postgres.py:164-178 | the archive restored into a new directory matches the answered rows exactly when it is extractable and every distinct row is backed by a member; the count is the number of rows and at least one, so the test for none never decides |
| IndependentRestore.RestoreHead | scripts/pilot_ci_independent_postgres.py:147-157 | restore, claim count and revision are issued in this order, each only after the one before was good |
| IndependentRestore.RestoreAndCompare | scripts/pilot_ci_independent_postgres.py:144-188 | one restore, then the script, which goes on exactly while no answer is a surprise; succeeds exactly when claim count, revision and every family agree, the archive is extractable and every document row, at least one, is backed by a member; the published rows are the sum over the seven answers |
| IndependentRestore.RestoreAndVerify | scripts/pilot_ci_independent_postgres.py:86-193 | every run has the one shape start, probes, script, removal with the environment's own replies, going on exactly while nothing fails; a normal return means everything agreed, the archive is extractable, every document row is backed by a member, the removal succeeded, and the published rows are those of the seven answers |
| IndependentRestore.RunsAreSafe | scripts/pilot_ci_independent_postgres.py:98-193 | over every run: at most one restore, directly after two successful probes one pause apart; one start; removal exactly when our own start succeeded, once and last |
| CiTiming.JobsOk | docs/operations/validation/ci_v2_pair_observation.py:61-65 | the job loop accepts exactly finished jobs with the conclusion their name requires |
| CiTiming.WindowsOk | docs/operations/validation/ci_v2_pair_observation.py:66-70 | every executed job has ordered times not before the dispatch |
| CiTiming.RequiredStepsOk | docs/operations/validation/ci_v2_pair_observation.py:72-88 | each required step occurs exactly once, succeeded and lies inside its job |
| CiTiming.TotalsHold | docs/operations/validation/ci_v2_pair_observation.py:92-108 | the counting over all executed steps succeeds exactly with sixty-four runs, the due installations, all successful, and readable times of every counted step |
| CiTiming.NamesCheckIsExact | docs/operations/validation/ci_v2_pair_observation.py:51-57 | comparing set sizes and names decides that the expected jobs are there, each once, under distinct numbers |
| CiTiming.SummarizeRun | docs/operations/validation/ci_v2_pair_observation.py:43-114 | accepts exactly the valid snapshots, with jobs for shards 0 to 63, and publishes figures with their meaning: times from the dispatch to attained ends and starts, the producer's own times, and sums over the executed jobs and their own steps |
| CiTiming.FiguresFor | docs/operations/validation/ci_v2_pair_observation.py:85-114 | each published figure obeys its own law about the executed jobs: attained latest end, attained first and last shard start, producer window, and one sum per step name |
| CiTiming.ExecutedIs | docs/operations/validation/ci_v2_pair_observation.py:57-71 | the executed jobs are the backend jobs, the classifier and the gate, and nothing else |
| CiTiming.CombinedWithinShards | docs/operations/validation/ci_v2_pair_observation.py:93-106 | every shard job has one test step and no other executed job has any, so combined test-step time never exceeds shard time |
| CiTiming.InstallsWithinBackend | docs/operations/validation/ci_v2_pair_observation.py:97-105 | every shard and the producer have one install step and no other executed job has any, so install time never exceeds backend time |
| CiTiming.ExecutedAddsUp | docs/operations/validation/ci_v2_pair_observation.py:102-104 | executed time = backend time + classifier + gate |
| CiTiming.WindowsFit | docs/operations/validation/ci_v2_pair_observation.py:101-112 | delay of the first shard and spread of shard starts are non-negative and together at most the wall time |
| CiTiming.CostBounded | docs/operations/validation/ci_v2_pair_observation.py:101-103 | shard time is at most 64 wall times and backend time at most 65 |
| CiTiming.ComparePair | docs/operations/validation/ci_v2_pair_observation.py:116-142 | accepts exactly the sequential pairs over one source contract; both reports carry figures with their meaning, the percentages are exact, and isolation means no competing workflow in either |
| CiTiming.PairIsSequential | docs/operations/validation/ci_v2_pair_observation.py:125 | in an accepted pair every executed candidate job starts no earlier than every executed baseline job ends |
| Sharding.KeptAreNodes | scripts/backend_shard_selector.py:22-29 | the collected list holds exactly the lines that start with tests/ and have two colons somewhere, in their order |
| Sharding.CollectedIsExact | scripts/backend_shard_selector.py:22-29 | a collection is accepted exactly when some line is a node, none holds a NUL or carriage return, and no two are equal |
| Sharding.SelectionIsExact | scripts/backend_shard_selector.py:14-38 | a selection succeeds exactly for a shard in range, over nodes only, that the residue of some node names |
| Sharding.SelectionsPartition | scripts/backend_shard_selector.py:32-38 | selections keep the list order, take each node by its assigned shard and no other, and together are the list; a shard refuses exactly when it is empty |
| Sharding.AssignmentIgnoresOrder | scripts/backend_shard_selector.py:14-38 | reordering the collected list never moves a node to another shard |
| Sharding.OutputDecodes | scripts/backend_shard_selector.py:63 | the NUL stream of a shard job splits back into its selection |
| Sharding.Classify | scripts/pilot_backend_execution_evidence.py:64-82 | every job goes onto one of three lists, or the evidence is refused |
| Sharding.ShardNumberIs | scripts/pilot_backend_execution_evidence.py:23 | a job has number k exactly when its name is the prefix followed by k in decimal, leading zeros allowed |
| PyText.DigitsPrint | scripts/pilot_backend_execution_evidence.py:23-102 | reading decimal digits inverts printing them |
| Sharding.StepIsSole | scripts/pilot_backend_execution_evidence.py:41-48 | a step reads as a conclusion exactly when it is the only one of its name |
| Sharding.ShardsRan | scripts/pilot_backend_execution_evidence.py:98-107 | the loop over shard jobs succeeds exactly when all succeeded with distinct numbers that are all of 0 to 63 |
| Sharding.SixtyFour | scripts/pilot_backend_execution_evidence.py:97-111 | distinct numbers that leave none of 0 to 63 out belong to exactly sixty-four jobs |
| Sharding.Evaluate | scripts/pilot_backend_execution_evidence.py:52-126 | full and scoped verdicts hold exactly for their evidence: one successful classifier and aggregate, the two steps reading as required, and all of 0 to 63 succeeded once, or the one skipped placeholder |
| Sharding.EveryNodeRanOnce | scripts/pilot_backend_execution_evidence.py:97-111 | a full verdict means every collected node was selected by exactly one successful job |
| Rulesets.EvaluateChecks | scripts/pilot_required_check_preflight.py:31-106 | grouping and grading in loops: refused exactly for a wrong candidate, repository or unidentified expected run; the record says of every expected name whether no run, one run and with what result, or several carry it |
| Rulesets.ReadbackMeans | scripts/pilot_ruleset_evidence.py:41-126 | the evaluator answers exactly for one listed ruleset of ours with one status and one pull-request rule; counts, missing names and safety are read off these two rules, and complete means safe with exactly the eleven names |
| Rulesets.RepoIsTwoWords | scripts/pilot_ruleset_evidence.py:20-43 | a repository name is two words around one slash |
| Rulesets.Grade | scripts/pilot_required_check_preflight.py:65-102 | the grading loop: no run is missing, a single run decides by its result, several are ambiguous; the count present is the number of names with a single run, and all green means a single success each |
| Rulesets.RecordForMeans | scripts/pilot_required_check_preflight.py:84-106 | the record computed from the groups has exactly that meaning |
| Rulesets.RecordIsUnique | scripts/pilot_required_check_preflight.py:84-106 | no other record has that meaning |
| Rulesets.SoleRun | scripts/pilot_required_check_preflight.py:51-82 | a name's group is one run exactly when one run carries the name |
| Rulesets.GreenIsOneSuccessEach | scripts/pilot_required_check_preflight.py:96-98 | all green means each expected name has one completed successful run and no second run |
| Rulesets.ElevenNames | scripts/pilot_ruleset_evidence.py:22-34 | the four starting and seven added names are distinct and together the eleven expected |
| Rulesets.OurRepoIsShaped | scripts/pilot_ruleset_evidence.py:20-43 | the fixed repository passes the name test of evaluator and preflight |
| Activation.ProposalCondition | scripts/pilot_ruleset_admin_activation.py:43-91 | a proposal exists exactly for a ready record and a safe ruleset of the right id with exactly the four contexts, and what it then is; the other tests never decide |
| Activation.EligibleMeans | scripts/pilot_ruleset_admin_activation.py:53-81 | eligible means the fixed id, every safety property, and exactly the four starting contexts |
| Activation.ReadyIsGreen | scripts/pilot_ruleset_admin_activation.py:44-51 | of the six tests on a preflight's own record only the green flag decides |
| Activation.ReadyMeans | scripts/pilot_ruleset_admin_activation.py:44-51 | a record is ready exactly when it is ours, green, counts eleven, and holds a numbered pass for exactly the eleven names |
| Activation.UpdatedRules | scripts/pilot_ruleset_admin_activation.py:83-86 | replacing the list of the first status rule keeps every other rule in place |
| Activation.ProposalChangesOnlyContexts | scripts/pilot_ruleset_admin_activation.py:75-86 | installing a proposal changes nothing but the context list, whose old entries stay as the prefix |
| Activation.ProposalCompletes | scripts/pilot_ruleset_evidence.py:41-126 | after any proposal is installed the independent evaluator reports complete with eleven contexts, and any second proposal is refused |
| Activation.AddedInOrder | scripts/pilot_ruleset_admin_activation.py:84-86 | the additions stand in string order |
| Activation.CompleteIsEleven | scripts/pilot_ruleset_evidence.py:106-119 | a complete readback has eleven contexts |
| Activation.Recheck | scripts/pilot_ruleset_admin_activation.py:146-170 | the second recheck is made exactly when ruleset and proposal are unchanged; both agree exactly when also the green outcomes are |
| Activation.TicketIsSpelled | scripts/pilot_ruleset_admin_activation.py:33 | a ticket is the scheme, a letter or digit, and 3 to 99 characters of its alphabet |
| Activation.Admit | scripts/pilot_ruleset_admin_activation.py:131-134 | the run is admitted exactly for a positive number and, before a write, with the confirmed id and a ticket |
| Activation.Execute | scripts/pilot_ruleset_admin_activation.py:129-198 | against a server that may answer in any way: every recorded answer is the server's, the run stops at the first guard that fails and nowhere else, a write happens exactly with approval, a token and both rechecks and only of the agreed proposal, and success means the whole script went through |
| Activation.RunIsDetermined | scripts/pilot_ruleset_admin_activation.py:129-198 | these clauses leave one run for every server and request |
| Activation.AtMostOneWrite | scripts/pilot_ruleset_admin_activation.py:144-172 | every run sends at most one write, and none in a dry run |
| Activation.WriteCompletesRuleset | scripts/pilot_ruleset_admin_activation.py:171-181 | what any run writes would complete the ruleset it was computed from, and a readback of that state passes |
| Timestamps.PadOrder | scripts/pilot_ruleset_negative_enforcement.py:105-107 | zero-padded fields of one width compare as numbers |
| Timestamps.DigitIsPrinted | scripts/pilot_ruleset_negative_enforcement.py:105-107 | a digit of a stamp is the decimal digit of its value |
| Timestamps.StampIsFieldOrder | scripts/pilot_ruleset_negative_enforcement.py:105-107 | comparing stamps as text is comparing year, month, day, hour, minute, second in turn |
| Timestamps.DaysBeforeYearIs | scripts/pilot_ruleset_negative_enforcement.py:157 | the days before a year follow the Gregorian rule in closed form |
| Timestamps.MonthTable | scripts/pilot_ruleset_negative_enforcement.py:157 | the twelve month lengths, one by one |
| Timestamps.EveryDay | scripts/pilot_ruleset_negative_enforcement.py:157 | every day from year one to 9999 is exactly a valid date |
| Timestamps.DaysMeet | scripts/pilot_ruleset_negative_enforcement.py:157 | consecutive days meet without a gap: the second after 23:59:59 is midnight of the next valid day |
| Timestamps.FieldOrderIsTime | scripts/pilot_ruleset_negative_enforcement.py:157 | an earlier field tuple of valid dates is an earlier instant, leap years included |
| Timestamps.StampOrderIsTimeOrder | scripts/pilot_ruleset_negative_enforcement.py:157 | text order of two UTC stamps is chronological order (section 5.1 of RFC 3339) |
| Observation.PairExactly | scripts/pilot_ruleset_negative_enforcement.py:117-170 | two observed records pair exactly when pull request, ref, base, target and ruleset stamp agree, head and check run differ, and red is the earlier instant |
| Observation.CaptureIsExact | scripts/pilot_ruleset_negative_enforcement.py:52-100 | a capture is recorded exactly when the ruleset is complete under the fixed id, the pull request fits the phase, the target ran once as the phase needs, every other expected name succeeded once, and nothing else failed |
| Observation.RecordHolds | scripts/pilot_ruleset_negative_enforcement.py:93-112 | the record holds what the capture read, and the target's own run |
| Observation.CompareIsExact | scripts/pilot_ruleset_negative_enforcement.py:117-170 | any two stored records pair exactly under the stated tests, agreements, differences and order |
| Observation.ObservedIsComplete | scripts/pilot_ruleset_negative_enforcement.py:123-146 | whatever a capture records passes the stored-record tests of its own phase |
| Observation.TargetRun | scripts/pilot_ruleset_negative_enforcement.py:76-84 | the recorded run is the one completed run of the target, failed when red and successful when green |
| Observation.OnlyTargetFails | scripts/pilot_ruleset_negative_enforcement.py:72-92 | in a red capture no run of any name but the target's failed, timed out, was cancelled or wants action; in a green capture none did |
| RepeatSmoke.CountRow | scripts/pilot_local_ai_hm_repeat_smoke.py:53-99 | one row is accepted exactly when it is well formed for its status, and moves each counter by its contribution |
| RepeatSmoke.CountRound | scripts/pilot_local_ai_hm_repeat_smoke.py:44-99 | a round is accepted exactly when it lists the scenarios in order with good rows, each counted under its own name |
| RepeatSmoke.RunThreeRounds | scripts/pilot_local_ai_hm_repeat_smoke.py:27-119 | three rounds are accepted exactly when all are well formed; the report is their exact tally with true minima and maxima |
| RepeatSmoke.TallyBounds | scripts/pilot_local_ai_hm_repeat_smoke.py:63-95 | over any number of rows: outcomes and context outcomes each sum to the number of rows, and incomplete <= missing pairs <= 3 x incomplete |
| RepeatSmoke.GuardReport | scripts/pilot_local_ai_hm_digest_guard_smoke.py:57-111 | the guard accepts exactly the reports that satisfy its ranges, sums and pair bounds, and keeps the seven counts of every record under their own names |
| RepeatSmoke.RunnerSatisfiesGuard | scripts/pilot_local_ai_hm_digest_guard_smoke.py:57-111 | every report the runner returns passes the guard |
| RepeatSmoke.RunGuarded | scripts/pilot_local_ai_hm_digest_guard_smoke.py:50-134 | the guarded smoke refuses only for a bad round or digest observation, publishes each scenario's exact tallies over all rounds, and accepts for review exactly with equal digests and every row accepted |
| RepeatSmoke.GuardIsExact | scripts/pilot_local_ai_hm_digest_guard_smoke.py:80-110 | conversely, any counts the guard accepts are the tally of three possible rows |
| ChangeScope.ParsePrinted | scripts/ci_backend_narrow_scope.py:31-38 | reading inverts NUL printing of every nonempty NUL-free entry list with ASCII statuses |
| ChangeScope.PrintParsed | scripts/ci_backend_narrow_scope.py:31-38 | whatever is read prints back to the same data |
| ChangeScope.Classify | scripts/ci_backend_narrow_scope.py:41-69 | the scan's answer is the one that the collection of changes determines: full, narrow with the sorted touched tests, or none |
| ChangeScope.BackendPaths | scripts/ci_backend_narrow_scope.py:60-66 | which paths force the full run, written out |
| ChangeScope.BaseNameIs | scripts/ci_backend_narrow_scope.py:69 | the test name is what follows the last slash |
| ChangeScope.ModeIsUnique | scripts/ci_backend_narrow_scope.py:41-69 | one answer per collection: entry order never matters, not even for the narrow test list |
| ChangeScope.MoreEntries | scripts/ci_backend_narrow_scope.py:41-69 | a nonempty full change stays full under added entries, and none never becomes narrow |
| ChangeScope.EmptyFullIsNotKept | scripts/ci_backend_narrow_scope.py:43-44 | the empty list is full, and adding one modified audited file free of database use gives narrow |
| ChangeScope.FullIsKeptIff | scripts/ci_backend_narrow_scope.py:41-69 | a full answer stays full under all additions if and only if the list is not empty |
| ChangeScope.Eligible | scripts/ci_browser_offline_hm_scope.py:25-35 | admission means nonempty, only modified registered database-free files, each once; the length test never decides |
| ChangeScope.NarrowIffEligible | scripts/ci_browser_offline_hm_scope.py:16-35 | a registry inside the audited one admits only narrow changes; with equal registries narrow and admission are the same |
| ChangeScope.RegistriesAgree | scripts/ci_browser_offline_hm_scope.py:18-22 | the two independently kept registries are equal |
| PyText.SortedFacts | scripts/ci_backend_narrow_scope.py:68 | sorting distinct strings gives the increasing list of the same strings |
| PyText.HexDigits | scripts/pilot_ci_evidence_restore.py:18 | the digest pattern, digit by digit |
| PyText.IncreasingIsUnique | scripts/ci_backend_narrow_scope.py:68 | a set of strings has one increasing list |

## Left out

- Error texts: every exception of a script is the one value `Refused`; which message is raised is not modelled.
- JSON typing: values that are not of the expected JSON type are outside the models' types, and so are the constant "not authorized" fields of the reports.
- Digests, the shard hash, canonical fingerprints, the JSON reading of document rows and the AST test for database use are function or set parameters; `canonical_fingerprint` itself is not part of this model.
- Docker, HTTP, git and subprocess calls: only their outcomes, as arbitrary replies. Pagination of the check-run fetch is not modelled.
- Byte encodings: NUL streams and archive names are sequences of characters; decoding errors of paths in a change list are not modelled, only non-ASCII statuses.
- I/O errors in the middle of a copy: a copy delivers at most the declared bytes or the member is refused; a short copy leaves what was written.
- DotEnv.ParseEnv: the caller's rejection of placeholder values and the file-permission checks are not modelled.
- EvidenceArchive.RestoreAndReconcile: creation of the restore directory and its permission bits are not modelled.
- OcrPaired.ComparePaired: the cohort manifest and source-byte checks enter as one flag.
- OcrLedger.SummarizeReviews: the envelope checks before the rows enter as one flag.
- OcrLedger.EvaluatePacket: the fields copied from the source-byte and cohort checks are not modelled.
- Wilson.WilsonInterval: rounding of bounds to four decimals is not modelled; the square root is any nonnegative real with the given square.
- OcrReport.PublishStudy: rounding of rates to four decimals is not modelled, and the constant fields of the report are left out.
- IndependentRestore.RestoreAndVerify: the environment and artifact guards before the first command enter as one flag, and only the stripped output of a command is visible.
- CiTiming.SummarizeRun: times are integers in one unit instead of fractional minutes.
- Sharding.Evaluate: run-level identity checks enter as one flag.
- Activation.Execute: the answer to the write is accepted or not; the server's own state is not modelled, so nothing is claimed about a change between the last recheck and the write.
- Observation.PairExactly: speaks about records made by captures; the reading of stored records from files is not modelled.
- RepeatSmoke.RunThreeRounds: the model call behind a round is an arbitrary function of the round number.
- ChangeScope.Classify: the audited registry is the fixed one; the set of database-free files is arbitrary.
- The API service, migrations, front end and the flat attestation scripts: routing, declarative schema, or one-branch properties.
