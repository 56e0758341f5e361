# Atlas Research verification

A Dafny model of the Atlas Research worker and proofs of what it promises: the hash-chained receipt
log and the worker that publishes results against it, the ranking metrics and gates, canonical JSON,
frozen datasets, lease-supervised claims, the generation result cache and the telemetry watermark.
`dafny verify dfyconfig.toml` checks the whole project.

## How it is organised

Each component has a file for the model (specification functions beside the imperative methods that
refine them) and, where the results are long, a file for its laws.

| files | component |
|---|---|
| `Receipts`, `ReceiptRuns`, `EntryNames`, `Listings` | the receipt log as a class over entry files and HEAD, and every run over it |
| `Workspace`, `Worker`, `WorkerRuns`, `Admission` | the byte budget, one job run, every run against the log, and what admission decides |
| `Pairs`, `Ranks`, `Gain`, `Calibration`, `F1Score`, `MetricInputs` | the metrics over exact reals |
| `Decimals`, `Candidate`, `Evaluation`, `EvaluationLaws`, `Experiment` | quantized decimals, linear evaluators, gates, the canonical result and its validator |
| `JsonNumbers`, `NumberLaws`, `JsonStrings`, `Canonical`, `CanonicalLaws`, `JsonForms` | canonical JSON printing and strict reading |
| `Dataset`, `Freezing`, `DatasetLaws`, `DatasetTheorems`, `DatasetRefusals`, `SourceTheorems`, `ScoringRecords`, `RecordFormat` | freezing and verifying datasets, and the scoring record format they use |
| `Claims`, `ClaimLaws` | one remote claim as an interleaving of two threads and an environment |
| `ResultNames`, `Generation`, `GenerationSteps`, `GenerationRuns`, `ScoreResults` | the generation result cache across deaths and restarts, and which score results survive it |
| `Telemetry` | snapshot parsing, the projection file and its watermark |
| `Outcomes`, `Ordering`, `Digits`, `Division`, `Reals`, `Identifiers` | shared vocabulary |

A function whose name ends in `Outcome` is the specification of the operation it is named after:
it gives the new durable state and the answer or the refusal. The method that follows the source's
own loops and updates is proved equal to it, and the lemmas are about it. The bounds, grammars and
orders of refusal of single functions are stated in numbers beside them or in `DatasetRefusals`, by
lemmas whose names mostly end in `Refusals` or `Exactly`; where such a lemma says no more than one
function does, it has no row below.

## What the code turned out to do

- A commit never looks at whether its receipt ID is fresh, while the scan refuses a repeated ID: a
  repeated ID is linked and makes the log unreadable. `LinkedLogScansExactlyWhenFresh` says exactly
  when; `WorkerReceiptsAreFresh` says why the worker never does it.
- A failure right after the entry link is published as a rejection although the entry exists
  (src/atlas_research/worker.py:1468-1488). `RejectionContradictsExactlyAfterLink` says that this is
  the only way a rejection contradicts the log, and `FailureAfterLinkContradicts` gives the input.
- A run reads its start time before the expiry check (src/atlas_research/worker.py:1323), while a stored
  result is refused when its start lies before the job's creation (src/atlas_research/worker.py:1021). A
  run that waits across the creation time therefore stores a rejection, or a completed result for an
  evaluation error turned into a receipt, that no rerun ever returns. `CompletedResultReplaysExactly` and
  `RejectionReplaysExactlyWhenStartedInWindow` say exactly when.
- On a log of one entry a HEAD with `true` for its sequence is accepted, since true equals one
  (src/atlas_research/receipts.py:380-384). No run writes one (`SoundHeadMatches`).
- A score with a fraction never survives the result cache: the file gives a Decimal back, and revalidation
  takes only integers and floats (src/atlas_research/production_generation.py:1031-1037). Its ambiguously
  acknowledged completion becomes a failure for the same lease, against
  docs/production-generation-worker.md:85-86. `ScoreReloadsExactlyWhenWhole` says exactly when.
- A temporary file that a death leaves in the results directory stops the generation worker for good
  (`TemporaryStopsTheWorker`).
- A decimal such as 10^20 prints as an integer that the printer refuses when it is read back.
- A status write that fails with a plain Atlas error after an accepted completion sends a second
  terminal message, a failure, for the accepted claim (src/atlas_research/remote_worker.py:1812-1849).
  What docs/scout-worker-client.md:50-53 promises, that an ambiguous acknowledgement never becomes a
  second decision, holds (`AmbiguityIsFinal`).
- The range and zero-change refusals at the end of `verify_candidate_change`, the overlap refusal of
  `verify_frozen_dataset` and a failure of the check that closes `freeze_records` can never be reached.
- The telemetry check against the watermark in memory decides nothing that the check against the file
  does not decide.

## Model

Members are named with their module. Paths are those of the repository.

| member | source | states |
|---|---|---|
| Receipts.ReceiptLog.ScanEntries | src/atlas_research/receipts.py:312-360 | the scan loop over the sorted directory returns the parsed chain or the first refusal, and changes nothing |
| Receipts.ReceiptLog.Commit | src/atlas_research/receipts.py:151-232 | every path of a commit, with a failure or a death before or after the entry link and inside the HEAD write: which files change, what is answered, which refusal wins |
| Receipts.ReceiptLog.WriteHead | src/atlas_research/receipts.py:390-399 | HEAD is replaced as a whole or not at all, whatever point the write fails at |
| Receipts.ReceiptLog.Find | src/atlas_research/receipts.py:234-261 | a lookup answers with the one entry under the key, refuses another job digest, and requires a matching HEAD |
| Receipts.ReceiptLog.Verify | src/atlas_research/receipts.py:263-283 | verification reads only; recovery rewrites HEAD and never an entry |
| Receipts.ScanAcceptsExactlyLayouts | src/atlas_research/receipts.py:312-360 | the scan succeeds exactly on directories laid out by a chain: numbered from one, linked by digest, canonical, distinct keys and IDs, no other name |
| Receipts.HeadMatchesExactly | src/atlas_research/receipts.py:362-388 | the HEAD check accepts exactly the document that names the last entry (none on an empty log) and, on a log of one entry, the same document with true for its sequence |
| ReceiptRuns.RunsKeepTheLog | src/atlas_research/receipts.py:151-283 | over every run of commits, failures, deaths and recoveries with fresh receipt IDs: the scan keeps succeeding, earlier entries stay byte-identical, HEAD is at most one entry behind |
| ReceiptRuns.EmptyLogIsSound | src/atlas_research/receipts.py:151-283 | the empty log, from which every run starts, satisfies the invariant the runs keep |
| ReceiptRuns.RecoveryRestoresHead | src/atlas_research/receipts.py:263-283 | recovery leaves an accepted HEAD without touching an entry: the proper one, unless HEAD was already accepted; verification then passes without recovering |
| ReceiptRuns.SoundHeadMatches | src/atlas_research/receipts.py:362-388 | in every log that runs can reach the HEAD check accepts the proper document alone |
| ReceiptRuns.LinkedLogScansExactlyWhenFresh | src/atlas_research/receipts.py:197-222 | a commit never checks its receipt ID: after the link the log still scans if and only if the ID was fresh and the sequence number still has sixteen digits |
| ReceiptRuns.UnreadableLogIsFrozen | src/atlas_research/receipts.py:312-330 | a log the scan refuses stays byte-for-byte as it is under every further operation |
| ReceiptRuns.TemporaryMakesUnreadable | src/atlas_research/receipts.py:318-326 | a leftover temporary name in the entries directory makes the scan refuse: fail closed |
| ReceiptRuns.HeadDigestPinsTheLog | src/atlas_research/receipts.py:312-360 | with a collision-free hash two scanned logs with one head digest are the same entries under the same names |
| ReceiptRuns.BoundKeyReplaysExactly | src/atlas_research/receipts.py:164-196 | a bound key replays the stored bytes exactly for the identical receipt, conflicts for any other, and writes nothing |
| ReceiptRuns.HeadNamesTheLastEntry | src/atlas_research/receipts.py:362-399 | for a log that scans HEAD is absent or holds the number, the name and the digest of the last entry, whose name, bytes and digest belong together |
| ReceiptRuns.VerificationExactly | src/atlas_research/receipts.py:263-283 | of every log that scans: without recovery the answer is the count and the last digest if and only if HEAD is the proper document (or the true-valued one on one entry), and otherwise a refusal with nothing changed; recovery rewrites HEAD only where it is refused, and every failing recovery has its answer and its HEAD |
| ReceiptRuns.LookupExactly | src/atlas_research/receipts.py:234-261 | a lookup in a log that scans: a wrong HEAD refuses first, an unbound key is nothing, a bound one the entry for the same job or a conflict |
| ReceiptRuns.CommitExactly | src/atlas_research/receipts.py:151-232 | a commit of an unbound key in a log that scans: the refusals in order, and for each fault which entry, HEAD and answer it leaves |
| ReceiptRuns.UnscannedIsRefused | src/atlas_research/receipts.py:312-360 | a log that does not scan answers commit, lookup and verification with the scan's own refusal and stays as it is |
| ReceiptRuns.ScanRefusesFirst | src/atlas_research/receipts.py:319-360 | the scan answers with the refusal of the first name it cannot read on from |
| EntryNames.NamesSortBySequence | src/atlas_research/receipts.py:314-322 | entry names sort as their sequence numbers do below ten to the sixteenth, whatever the IDs are |
| EntryNames.NameReadsBack | src/atlas_research/receipts.py:207-212 | an entry name reads back to its sequence number and receipt ID |
| EntryNames.ReadNameIsEntryName | src/atlas_research/receipts.py:322-330 | only printed entry names are read |
| EntryNames.OverflowingNameUnreadable | src/atlas_research/receipts.py:207-212 | the first sequence number beyond sixteen digits prints a name the scan refuses |
| EntryNames.NameForm | src/atlas_research/receipts.py:207-215 | an entry name is sixteen digits that spell the number, a hyphen, the receipt ID and the suffix |
| Listings.ListDirectory | src/atlas_research/receipts.py:314-318 | the directory listing is the one ascending listing of its names |
| Workspace.WalkBytes | src/atlas_research/worker.py:1191-1212 | the stack walk with early stop returns the full byte total, or some total above the stop bound |
| Workspace.EnforceWrites | src/atlas_research/worker.py:1231-1251 | the budget loop accepts exactly when the planned steady and peak totals fit |
| Workspace.AdmittedExactlyWhenWithin | src/atlas_research/worker.py:1231-1251 | for distinct paths the budget check accepts if and only if every intermediate physical total of the writes stays within the maximum |
| Workspace.RepeatedPathCanOverrun | src/atlas_research/worker.py:1231-1251 | distinctness is needed: a concrete plan with a repeated path is accepted and overruns |
| Workspace.EarlyStopDecidesTheSame | src/atlas_research/worker.py:1191-1212 | stopping the walk early never changes the decision |
| Workspace.LaterCheckCannotFail | src/atlas_research/worker.py:1272-1285 | once a plan was accepted, the check before its last write accepts too |
| Worker.OutputRoot.WriteResult | src/atlas_research/worker.py:1272-1297 | a result file is created once, replayed when identical, refused when different, within the byte budget |
| Worker.OutputRoot.Execute | src/atlas_research/worker.py:1383-1467 | evaluation, admission of receipt and result together, commit, and the completed document naming the commit |
| Worker.OutputRoot.RunJob | src/atlas_research/worker.py:1300-1494 | the whole run: replay of an existing result, rebuild from an existing receipt, execution, rejection, and what each leaves on disk |
| WorkerRuns.WorkerReceiptsAreFresh | src/atlas_research/worker.py:897-944 | the receipt ID the worker derives is new whenever its key is, which is what a commit needs and never checks |
| WorkerRuns.RunKeepsConsistent | src/atlas_research/worker.py:1300-1494 | after any run a completed result names the exact digest, size and path of an entry with its key, job digest and worker; earlier results and entries stay |
| WorkerRuns.EveryRunKeepsConsistent | src/atlas_research/worker.py:1300-1494 | the same over every sequence of runs, recoveries and faults |
| WorkerRuns.EmptyRootIsConsistent | src/atlas_research/worker.py:1300-1330 | the empty output root, from which every sequence of runs starts, satisfies the invariant the runs keep |
| WorkerRuns.RejectionContradictsExactlyAfterLink | src/atlas_research/worker.py:1468-1488 | a published rejection contradicts the log if and only if the commit began and failed right after its entry was linked |
| WorkerRuns.FailureAfterLinkContradicts | src/atlas_research/worker.py:1468-1494 | the failing input: such a failure, with room for the rejection, publishes a result that is not completed while the log holds an entry for the key |
| WorkerRuns.RerunReturnsTheStoredResult | src/atlas_research/worker.py:1325-1353 | in every consistent state with a matching HEAD a rerun on a completed result changes no file, and returns the result if and only if it is the job's own and its start is not before the job's creation; any other rerun is a conflict |
| WorkerRuns.CompletedResultReplaysExactly | src/atlas_research/worker.py:1324-1494 | a completed result that a run published is returned by every later rerun if and only if the child gave the packet itself or the run read its start at or after the job's creation (for a rebuilt result: the bound entry's start) |
| WorkerRuns.EarlyStartNeverReplays | src/atlas_research/worker.py:1403-1411 | the failing input: a start read before the job's creation, admission after it, and an evaluation error turned into a receipt publish a completed result that every rerun refuses |
| WorkerRuns.RejectionReplaysExactlyWhenStartedInWindow | src/atlas_research/worker.py:1017-1022 | a stored rejection replays if and only if its start was read neither before the job's creation nor after its end; the start is read before the expiry check |
| WorkerRuns.EarlyRejectionNeverReplays | src/atlas_research/worker.py:1323-1494 | the failing input: a run that starts before the job's creation, is admitted after it and fails its preflight stores a rejection that every rerun refuses |
| WorkerRuns.AdmittedRunPublishes | src/atlas_research/worker.py:1420-1467 | an admitted run without faults publishes its entry, HEAD and result within the budget at every step |
| WorkerRuns.InterruptedRunResumes | src/atlas_research/worker.py:1355-1381 | after an interruption anywhere between the entry link and the result link, and a recovery, running again publishes exactly what the uninterrupted run would have |
| Admission.ChangesComeFromTheWindow | src/atlas_research/job.py:69-87 | a run at a free URI of an unbound key that changes anything was admitted with created <= now <= deadline and no approval later than now; one that adds an entry met the same when evaluated and when stamped, and committed before the deadline |
| Admission.OutsideTheWindowNothingHappens | src/atlas_research/job.py:69-87 | admitted outside that window the run leaves every file as it is and answers, in this order, not yet valid, expired or not authorized |
| Admission.RefusalsInOrder | src/atlas_research/worker.py:1383-1446 | the guarded part refuses in the source's order (preflight, packet, window, provenance, window again, schema, size, deadline, budget) without writing, and otherwise writes the entry and HEAD of its receipt |
| Admission.CommittedRunRecordsItself | src/atlas_research/worker.py:897-960 | a faultless run that adds an entry records job, key, attempt, inputs, identity, times and evidence in it, field by field, and publishes the result that names the entry's path, digest and size |
| Admission.RejectionRecordsRefusal | src/atlas_research/worker.py:1468-1488 | what a published rejection says: the job, the worker, the refusal and the clock's readings; expired if and only if past the deadline or refused as expired, cancelled if and only if timed out or over its output, rejected otherwise |
| Admission.BoundKeyIsRebuilt | src/atlas_research/worker.py:1355-1381 | a key with an entry is never evaluated again: the result is rebuilt from the entry's own fields, or the job conflicts, recovery fails or the budget refuses, with nothing changed |
| Admission.ForeignEntryIsRefused | src/atlas_research/worker.py:1355-1381 | an entry under the key and digest whose job, attempt or inputs differ is refused and nothing is written |
| Admission.OthersDocumentConflicts | src/atlas_research/worker.py:1000-1024 | a stored result of another job, attempt, key or digest, or with times out of order, is a conflict whatever the log holds |
| Admission.ReturnedResultIsBacked | src/atlas_research/worker.py:1325-1353 | in any output root a completed result is returned only if the log scans, HEAD matches and the entry under its key is the job's own and the very one the result names |
| Admission.CompletedResultIsJudged | src/atlas_research/worker.py:1325-1353 | in any output root the job's own completed document is returned, or refused for the log's own refusal, a missing entry, an entry of another job, or an entry it does not name, in that order, with nothing changed |
| Admission.ResultWriteFaults | src/atlas_research/worker.py:1272-1297 | a failing result write leaves the result exactly past its link, never touches the log or another result, and answers with success only without a fault |
| Admission.FitsExactlyWhenWithin | src/atlas_research/worker.py:1231-1251 | the worker's budget test over the files of its output root accepts if and only if every intermediate total stays within the bound |
| Pairs.UnrankPair | src/atlas_research/metrics.py:128-141 | the binary search finds the pair that walking along the rows finds |
| Pairs.PairNumberingIsBijective | src/atlas_research/metrics.py:124-141 | numbers below n(n-1)/2 and pairs i < j < n correspond one to one |
| Pairs.RanksFollowLexicographicOrder | src/atlas_research/metrics.py:124-141 | the numbering preserves the lexicographic order of pairs |
| Pairs.SampleIsSpread | src/atlas_research/metrics.py:144-150 | sampled indices are in range, strictly increasing, with gaps of floor or ceiling of total over count |
| Pairs.PairwiseAccuracy | src/atlas_research/metrics.py:153-191 | the pair loop computes the exact share of credit over the sampled comparable pairs, and the refusals come first |
| Pairs.CompleteSampleIsDoubleLoop | src/atlas_research/metrics.py:153-191 | when every pair fits the bound the accuracy is the plain double loop's |
| Pairs.NegatingPredictionsComplements | src/atlas_research/metrics.py:153-191 | negating all predictions turns accuracy a into 1 - a when some sampled pair is comparable |
| Pairs.AccuracyBounds | src/atlas_research/metrics.py:153-191 | accuracy lies in [0, 1] |
| Pairs.AccuracyOfAttitude | src/atlas_research/metrics.py:153-191 | on different labels predictions in the same order score 1, in the opposite order 0, all alike one half, under any pair bound |
| Pairs.SampleHoldsTheMiddle | src/atlas_research/metrics.py:144-150 | each sampled index holds the middle of its share of all pairs |
| Ranks.AverageRanks | src/atlas_research/metrics.py:73-86 | the tie-group loop gives every value (number smaller) + (number equal + 1)/2 |
| Ranks.RanksSum | src/atlas_research/metrics.py:73-86 | ranks sum to n(n+1)/2, ties or not |
| Ranks.CovarianceBounded | src/atlas_research/metrics.py:101-116 | Cauchy-Schwarz: the squared rank covariance is at most the product of the rank variances |
| Ranks.SpearmanClampIsIdle | src/atlas_research/metrics.py:89-121 | in exact arithmetic the correlation already lies in [-1, 1]: the clamp only removes rounding |
| Ranks.SelfCorrelationIsOne | src/atlas_research/metrics.py:89-121 | a vector with rank variance correlates perfectly with itself |
| Ranks.OppositeCorrelates | src/atlas_research/metrics.py:89-121 | predictions in the opposite order have the opposite correlation |
| Gain.TopSumIsLargest | src/atlas_research/metrics.py:220-223 | no selection of values sums to more than the largest ones |
| Gain.DominatedGain | src/atlas_research/metrics.py:194-205 | summation by parts: larger prefix sums give a larger discounted sum |
| Gain.IdealGainIsLargest | src/atlas_research/metrics.py:208-224 | the observed gain never exceeds the ideal gain, for any predictions, labels and k |
| Gain.NdcgClampIsIdle | src/atlas_research/metrics.py:224-227 | for non-negative labels the clamp of NDCG changes nothing in exact arithmetic |
| Gain.NdcgIsClosest | src/atlas_research/metrics.py:208-227 | for labels of any sign the measure is the point of [0, 1] closest to the exact ratio |
| Gain.OneMoreRelevance | src/atlas_research/metrics.py:194-205 | one more record adds its label times the discount of its rank |
| Gain.RecordsTakenByScore | src/atlas_research/metrics.py:214-219 | records are taken by falling score, equal scores in the order of the records |
| Calibration.FillBins | src/atlas_research/metrics.py:280-287 | the bin loop counts and sums exactly the records of each bin |
| Calibration.CalibrationError | src/atlas_research/metrics.py:263-300 | the error loop computes the size-weighted distance of the bin means |
| Calibration.BinsPartition | src/atlas_research/metrics.py:280-287 | the bins partition the records: counts add up to n |
| Calibration.CalibrationWithinMae | src/atlas_research/metrics.py:263-300 | calibration error lies in [0, 1] and is at most a hundredth of the mean absolute error |
| Calibration.MaeBounds | src/atlas_research/metrics.py:59-70 | on scores in [0, 100] the mean absolute error lies in [0, 100] |
| Calibration.OneMoreError | src/atlas_research/metrics.py:59-70 | one more record adds its own distance to the sum of errors, and alone is the mean |
| Calibration.ErrorIsNetSum | src/atlas_research/metrics.py:288-300 | the size-weighted error of the bin means is the sum over the bins of the distance of their label and prediction sums, divided by the number of records |
| Calibration.BinHolds | src/atlas_research/metrics.py:280-284 | each bin holds exactly the scores of its share of [0, 100), the last one 100 as well |
| Calibration.CalibrationOfOneBin | src/atlas_research/metrics.py:263-300 | records that share a bin have the distance of their two means as calibration error |
| F1Score.BinaryF1 | src/atlas_research/metrics.py:230-260 | the counting loop computes F1 from the four outcome counts |
| F1Score.F1IsHarmonicMean | src/atlas_research/metrics.py:253-260 | the computed ratio is the harmonic mean of precision and recall |
| F1Score.F1Symmetric | src/atlas_research/metrics.py:230-260 | swapping labels and predictions keeps F1 |
| F1Score.HitsCountRecords | src/atlas_research/metrics.py:243-252 | each of the four counts is the number of records on its sides of the threshold |
| F1Score.ThresholdIsPositive | src/atlas_research/metrics.py:243-260 | a value at the threshold is positive, one below it negative, for labels and predictions alike |
| Decimals.HalfEvenUnique | src/atlas_research/canonical.py:348-361 | half-even rounding is the only nearest choice with ties to even |
| Decimals.QuantizeExact | src/atlas_research/canonical.py:348-361 | quantizing a quantized value changes nothing |
| Decimals.QuantizeComplement | src/atlas_research/canonical.py:348-361 | a value and its complement to one quantize to complements |
| Decimals.QuantizeLipschitz | src/atlas_research/canonical.py:348-361 | quantizing moves two values apart by at most one unit more |
| Decimals.SpellingReadsBack | src/atlas_research/canonical.py:364-373 | the normalized spelling matches the receipt grammar and denotes exactly the quantized value |
| Decimals.SpellingUnique | src/atlas_research/receipts.py:45-50 | every string of the receipt grammar is the normalized spelling of its value |
| Decimals.SpellingIsShort | src/atlas_research/receipts.py:492-495 | spellings of values below ten to the eighteenth fit the validator's 32 characters |
| Decimals.CheckedExactly | src/atlas_research/canonical.py:348-361 | a value is refused if and only if its quantized coefficient has more than fifty digits |
| JsonNumbers.RenderedFromCore | src/atlas_research/canonical.py:196-233 | the rendering depends only on the significant digits and the decimal position |
| JsonNumbers.SpellingDoesNotMatter | src/atlas_research/canonical.py:196-233 | every spelling of one value renders to the same text |
| JsonNumbers.PlainRangeIsPosition | src/atlas_research/canonical.py:218-224 | plain notation is used exactly for positions from 10^-6 up to 10^21, as RFC 8785 section 3.2.2.3 has it |
| JsonNumbers.NumberReadsBack | src/atlas_research/canonical.py:41-53 | a printed number followed by anything that ends a token reads back as its normal form |
| JsonNumbers.NormalIsSameNumber | src/atlas_research/canonical.py:41-53 | the normal form is numerically the number printed |
| JsonNumbers.ReprintsExactlyWhenSafe | src/atlas_research/canonical.py:236-259 | printing the read-back number gives the same text if and only if it did not come back as an unsafe integer |
| JsonNumbers.TenToTheTwentyPrintsOnce | src/atlas_research/canonical.py:236-259 | 10^20 prints as an integer, and that integer is refused |
| NumberLaws.SamePrintableText | src/atlas_research/canonical.py:236-259 | numerically equal numbers that print at all print alike, integer or decimal |
| NumberLaws.RefusedAgain | src/atlas_research/canonical.py:236-259 | a printed number is refused the second time exactly when it is an integer above 2^53 - 1 in magnitude and below 10^21 |
| JsonStrings.StringReads | src/atlas_research/canonical.py:182-184 | an escaped string followed by its quote reads back |
| JsonStrings.Utf16Injective | src/atlas_research/canonical.py:187-193 | different keys have different UTF-16 sort keys |
| JsonStrings.PrintedForms | src/atlas_research/canonical.py:182-184 | the short escapes, the lower-case hexadecimal escapes of other control characters, and all else as it is |
| JsonForms.DecimalForm | src/atlas_research/canonical.py:196-233 | from the significant digits and the position of the point, the printed number exactly: plain forms from 10^-6 to below 10^21, otherwise one digit, a point, the rest, and an exponent that always has its sign |
| JsonForms.IntegerForm | src/atlas_research/canonical.py:236-244 | integers print as their digits up to 2^53 - 1 in magnitude and are refused beyond |
| JsonForms.TokensAreRead | src/atlas_research/canonical.py:41-53 | every number token of the grammar (RFC 8259 section 6) is read with its meaning, capital or small exponent letter, with or without sign |
| JsonForms.OnlyTokensAreRead | src/atlas_research/canonical.py:41-53 | whatever is read as a number is such a token, with that meaning and the rest of the text left over |
| JsonForms.EscapedConcat | src/atlas_research/canonical.py:182-184 | a string is printed character by character |
| JsonForms.CodeUnits | src/atlas_research/canonical.py:187-193 | the sort key of a character is its code, or beyond 2^16 a surrogate pair that stands for it |
| JsonForms.UnitEscapes | src/atlas_research/canonical.py:135-170 | an escaped code unit stands for its character, unless it is a surrogate without its partner |
| JsonForms.PairEscapes | src/atlas_research/canonical.py:135-170 | a high and a low surrogate stand for one character; anything else after a high one is refused |
| Canonical.FillDictionary | src/atlas_research/canonical.py:32-38 | filling the dictionary pair by pair refuses exactly the repeated keys and otherwise holds exactly the pairs |
| Canonical.ReadValue | src/atlas_research/canonical.py:135-170 | the strict reader consumes input and returns only trees without repeated keys |
| Canonical.ValueReads | src/atlas_research/canonical.py:262-285 | every printed value reads back, whatever closes the surrounding container |
| CanonicalLaws.CanonicalTextReadsBack | src/atlas_research/canonical.py:135-179 | loading canonical text, with or without a final newline, gives back the value that was printed, under the same limits |
| CanonicalLaws.SameTextExactlyWhenEqual | src/atlas_research/canonical.py:262-299 | two values have one canonical text if and only if they are equal |
| CanonicalLaws.InsertionOrderLeavesNoTrace | src/atlas_research/canonical.py:271-282 | the insertion order of an object's members does not show in the text |
| CanonicalLaws.PrintsTheSameAgain | src/atlas_research/canonical.py:236-299 | printing what was loaded gives the same text if and only if no number is a large integral one; otherwise the printer refuses |
| JsonForms.PrintedKeysAscend | src/atlas_research/canonical.py:271-282 | in the printed value the keys of every object ascend by their UTF-16 code units |
| Ordering.LexLessExactly | src/atlas_research/canonical.py:187-193 | the order behind keys, IDs and file names: the first difference decides, and a proper prefix comes first |
| JsonForms.ArrayForm | src/atlas_research/canonical.py:262-285 | arrays print as brackets around the items with one comma between two of them and no blanks |
| JsonForms.ObjectForm | src/atlas_research/canonical.py:262-285 | objects print as braces around the members with a colon after each key, one comma between two members and no blanks |
| Canonical.WithinLimitsExactly | src/atlas_research/canonical.py:56-100 | a tree is within its limits if and only if its deepest nesting and its longest string are |
| Canonical.LoadRefusals | src/atlas_research/canonical.py:135-179 | which refusal a text meets: bytes, grammar or trailing text, then nesting and string length of what it holds |
| Canonical.PrintRefusals | src/atlas_research/canonical.py:262-299 | a value prints if and only if its nesting and strings fit and every integer is safe, and the order of the two refusals |
| Dataset.ParseJsonl | src/atlas_research/dataset.py:136-193 | the line loop parses exactly the lines of the file, with the first refusal in line order |
| Dataset.VerifyFrozenDataset | src/atlas_research/dataset.py:395-445 | the checker's loops decide as its specification does, refusal by refusal |
| Dataset.CheckMembership | src/atlas_research/dataset.py:432-442 | the membership loop reports the first record in the wrong split or seen before |
| Freezing.FreezeRecords | src/atlas_research/dataset.py:271-335 | collecting, sorting, writing rows into three files and the closing check, refusal by refusal |
| Freezing.FreezeJsonlSources | src/atlas_research/dataset.py:355-392 | the source loop under global byte, record and ID bounds |
| Freezing.WriteRows | src/atlas_research/dataset.py:300-314 | every row goes to the file and the count of its own split |
| DatasetLaws.FramingRoundTrip | src/atlas_research/dataset.py:132-193 | the lines of a file of rows are the rows |
| DatasetLaws.FileReadsBack | src/atlas_research/dataset.py:136-193 | decoding a file of rows succeeds and reproduces the file |
| DatasetLaws.ClosingCheckPasses | src/atlas_research/dataset.py:334 | the check that ends a freeze cannot fail |
| DatasetTheorems.FreezeSucceedsExactly | src/atlas_research/dataset.py:271-335 | freezing succeeds if and only if the records are valid, distinct, within the limits; it then holds them sorted by ID |
| DatasetTheorems.OrderDoesNotMatter | src/atlas_research/dataset.py:271-335 | records in another order give the same dataset |
| DatasetTheorems.VerifiedIsFrozen | src/atlas_research/dataset.py:395-445 | a verified dataset is what freezing its own decoded records with its seed gives |
| DatasetTheorems.VerifiesExactlyFrozen | src/atlas_research/dataset.py:395-445 | the checker accepts a dataset if and only if some freeze with its seed emits it |
| DatasetTheorems.OverlapNeverReported | src/atlas_research/dataset.py:432-442 | the overlap refusal is dead: an ID seen in an earlier split already failed membership |
| SourceTheorems.SplitsPartition | src/atlas_research/dataset.py:221-335 | every record is in exactly the split its ID hashes to, sorted by ID, and the counts add up |
| SourceTheorems.BucketsDecideFiles | src/atlas_research/dataset.py:221-335 | after a freeze the train file decodes to exactly the inputs whose bucket is below 14757395258967641292, the validation file to those from there to below 16602069666338596454, the test file, the only sealed one, to the rest, each in ascending order of IDs |
| SourceTheorems.BoundariesAreTenths | src/atlas_research/dataset.py:221-234 | the two boundaries are eight and nine tenths of 2^64 rounded down: ten times a train bucket is below eight times 2^64 |
| SourceTheorems.DivisionDoesNotMatter | src/atlas_research/dataset.py:355-392 | freezing exports made of canonical rows gives what freezing their records in one go gives, however they were divided |
| SourceTheorems.RecordsDecideSources | src/atlas_research/dataset.py:355-392 | any two lists of exports that parse to the same IDs and rows in some order both freeze, to one dataset, or neither does: spacing, key order, number spelling, record order and division leave no trace |
| SourceTheorems.RowsDecideDataset | src/atlas_research/dataset.py:300-333 | a dataset depends on its records only through their IDs and rows |
| DatasetRefusals.FirstBadLineDecides | src/atlas_research/dataset.py:163-193 | a file within its size is refused with the refusal of its first bad line |
| DatasetRefusals.CarriageReturnIsDropped | src/atlas_research/dataset.py:165-174 | one carriage return before a newline belongs to the line ending, and only there |
| DatasetRefusals.FirstStrayDecides | src/atlas_research/dataset.py:432-442 | the first record that hashes to another split refuses the dataset, whatever comes after it |
| ScoringRecords.RecordReadsBack | src/atlas_research/dataset.py:83-129 | a record written to JSON reads back to the same record with its numbers in normal form |
| ScoringRecords.FieldsRead | src/atlas_research/dataset.py:83-129 | a dictionary of ID, features and label is read as a record if and only if the ID is proper, it has one to 256 features with proper names and values within a million, and its label lies in [0, 100]; the record holds exactly these |
| ScoringRecords.OnlyFieldsRead | src/atlas_research/dataset.py:83-129 | nothing but a dictionary with exactly these three fields, of these types, is read as a record |
| RecordFormat.RecordFormatIsLawful | src/atlas_research/dataset.py:83-133 | the scoring record format over canonical JSON satisfies every law the dataset results rest on |
| RecordFormat.ScoringDatasetsVerifyExactly | src/atlas_research/dataset.py:395-445 | with the real record format the checker accepts exactly the datasets that freezing emits |
| Candidate.ScoreLinearEvaluator | src/atlas_research/candidate.py:111-149 | the score is the quantized, clamped bias plus weighted features |
| Candidate.VerifyCandidateChange | src/atlas_research/candidate.py:208-297 | the difference loop and the checks around it, refusal by refusal |
| Candidate.PathTextInjective | src/atlas_research/candidate.py:191-205 | a declared change path names one leaf: no two leaves share the text of their path |
| Candidate.AcceptedExactlyOneLeaf | src/atlas_research/candidate.py:208-297 | a candidate is accepted if and only if it differs from its parent at the declared leaf alone, from the declared old to the declared new value; the last two refusals are unreachable |
| Candidate.AcceptedChangeBoundsScore | src/atlas_research/candidate.py:140-149 | an accepted candidate moves any score by at most the change times the leaf's influence, and one unit more after quantizing |
| Candidate.UnclampedScoreMovesExactly | src/atlas_research/candidate.py:140-149 | where both exact scores lie inside the scale, they differ by exactly the change of the bias, or the change of a weight times its feature |
| Candidate.UnweighedFeaturesLeaveTheBias | src/atlas_research/candidate.py:140-149 | with no weighed feature the score is the bias, clamped to [0, 100] |
| Candidate.ChangeJudgements | src/atlas_research/candidate.py:251-297 | the number of differing leaves decides first, then the declared path, old value and new value |
| Evaluation.ParseMetricSpecs | src/atlas_research/evaluation.py:111-217 | the metric loop parses the definitions in the fixed order or reports the first refusal |
| Evaluation.RecomputeCanonicalResult | src/atlas_research/evaluation.py:307-350 | the gate loop builds the result table and the failed list |
| Evaluation.ValidateCanonicalResult | src/atlas_research/receipts.py:471-551 | the receipt validator's loop accepts exactly the results its conditions describe |
| Evaluation.BetterCandidateStillPasses | src/atlas_research/evaluation.py:330-338 | a better candidate value passes every gate a worse one passes |
| Evaluation.MetricInRange | src/atlas_research/evaluation.py:220-237 | every metric, quantized, stays in the range its gates are checked against |
| EvaluationLaws.ParsedBenchmark | src/atlas_research/evaluation.py:111-217 | a parsed benchmark defines exactly the metrics asked for, validly and in order |
| EvaluationLaws.GateAccepted | src/atlas_research/evaluation.py:325-345 | a gate's three decimals match the receipt grammar and candidate minus baseline is the delta exactly |
| EvaluationLaws.RecomputedResultAccepted | src/atlas_research/evaluation.py:307-350 | the recomputed result exists, passes the receipt validator, and keeps the candidate if and only if every gate passes |
| EvaluationLaws.ValidatorDeterminesTheRest | src/atlas_research/receipts.py:471-551 | accepted results that agree on values and gates are equal: delta, decision, flag and reasons are determined |
| EvaluationLaws.AcceptedKeepsExactly | src/atlas_research/receipts.py:522-535 | an accepted result keeps the candidate if and only if at least two metrics are reported and all passed |
| EvaluationLaws.KeptExactlyWhenGoodEnough | src/atlas_research/evaluation.py:325-350 | the candidate is kept if and only if for every metric its quantized value is at least the threshold and beats the baseline by the least improvement (for the two error measures: at most the threshold and below the baseline by it), and each reported flag is that same condition |
| EvaluationLaws.SpecTakenExactly | src/atlas_research/evaluation.py:111-217 | a specification is taken if and only if its direction is the metric's own, its gates lie in the metric's ranges and it has only the metric's parameters, within their bounds; the defaults are filled in |
| EvaluationLaws.ErrorAcceptedExactly | src/atlas_research/receipts.py:471-521 | an error result is accepted if and only if it has no metrics, its code as the one reason, and code and message within their grammar and bounds |
| EvaluationLaws.AcceptedResultIsBounded | src/atlas_research/receipts.py:471-551 | an accepted result reports two to seven metrics whose decimals are short, grammatical and differ by exactly the delta; a discard names exactly the failed gates |
| Experiment.OrderRecords | src/atlas_research/evaluation.py:254-285 | records are checked for count, ID grammar and repetition and put in ID order |
| Experiment.ScoreRecords | src/atlas_research/evaluation.py:288-304 | the scoring loop yields the labels and the quantized scores in ID order |
| Experiment.RecordOrderDoesNotMatter | src/atlas_research/evaluation.py:254-285 | evaluation sees the records in ID order, whatever order they came in |
| Experiment.ExperimentPassesValidator | src/atlas_research/evaluation.py:353-363 | for every valid benchmark, payload pair and records with labels in [0, 100] the result passes the receipt validator |
| Experiment.ExperimentReportsBoth | src/atlas_research/evaluation.py:288-363 | the experiment reports for each metric the parent's value as baseline and the proposed evaluator's as candidate, each on its own scores |
| Experiment.OrderedExactly | src/atlas_research/evaluation.py:254-285 | ordering succeeds if and only if there are one to a million records with proper and distinct IDs; it permutes them into strictly ascending order |
| Experiment.FirstBadIdDecides | src/atlas_research/evaluation.py:262-281 | the first record with an improper or repeated ID decides the refusal |
| Claims.ClaimSupervisor.SendHeartbeat | src/atlas_research/remote_worker.py:330-346 | one heartbeat: the number sent, the lease and cancellation taken, the exception raised |
| Claims.ClaimSupervisor.Check | src/atlas_research/remote_worker.py:380-394 | the check raises in the source's order: stop, cancellation, failure, deadline, lease |
| Claims.ClaimSupervisor.Stop | src/atlas_research/remote_worker.py:396-405 | stopping sets the flag and records a thread that is still alive as stuck |
| Claims.NextKeepsSafe | src/atlas_research/remote_worker.py:1773-1857 | every event of main thread, heartbeat thread and environment keeps the claim's invariant |
| Claims.TerminalsAreSupervised | src/atlas_research/remote_worker.py:1811-1849 | complete or fail is sent only after the heartbeat thread has ended without cancellation or failure and a check saw a live lease and time left |
| Claims.HeartbeatsAreNumbered | src/atlas_research/remote_worker.py:359-378 | heartbeats are numbered 1, 2, 3, ... and none follows a terminal message |
| Claims.CancellationIsFinal | src/atlas_research/remote_worker.py:380-394 | once cancelled or failed, a claim never sends a terminal message |
| Claims.AmbiguityIsFinal | src/atlas_research/remote_worker.py:1812-1823 | a completion whose acknowledgement is refused or ambiguous is never followed by another terminal message |
| Claims.AtMostOneTerminal | src/atlas_research/remote_worker.py:1773-1857 | at most one terminal message, unless a status write after an accepted completion fails without an operating-system cause |
| Claims.LateErrorFailsAcceptedClaim | src/atlas_research/remote_worker.py:1812-1849 | and then the second message goes out if and only if stop event, deadline and lease let the check pass |
| Claims.AcceptedThenFailed | src/atlas_research/remote_worker.py:1812-1849 | a concrete run whose log holds a completion and then a failure |
| ClaimLaws.LeaseIsLastAnswered | src/atlas_research/remote_worker.py:330-346 | after every run the supervisor holds the lease and the cancellation of the last answered heartbeat, the claim's own lease before the first answer; a refused heartbeat leaves both |
| ClaimLaws.TerminalsHoldTheLastLease | src/atlas_research/remote_worker.py:1811-1849 | a terminal message goes out only when the check read a time before the lease of the last answer and before the deadline, that answer was no cancellation, and the thread had ended without failure |
| ClaimLaws.CheckFollowsTheLastAnswer | src/atlas_research/remote_worker.py:380-394 | once the thread has ended clear of failure and cancellation, the check before a terminal message passes if and only if no stop was requested, time is left, and the lease of the last answer is still alive |
| ClaimLaws.CheckObjectsInOrder | src/atlas_research/remote_worker.py:380-394 | for which states a check raises which exception: stop, confirmed cancellation, the recorded failure, then deadline and lease |
| ClaimLaws.FirstFailureStays | src/atlas_research/remote_worker.py:325-328 | over every run a recorded failure is never replaced |
| ClaimLaws.BeatsComeBeforeTheDeadline | src/atlas_research/remote_worker.py:359-376 | the thread sends only before the deadline, and then the next number |
| ClaimLaws.AnswersEndOrGoOn | src/atlas_research/remote_worker.py:330-346 | a live lease or a cancellation lets the thread go on; an expired lease or a refusal ends it with that failure |
| ClaimLaws.OnlyPlainErrorsFailTheClaim | src/atlas_research/remote_worker.py:1773-1849 | of all that the work can raise only an Atlas error without an operating-system cause goes on to fail the claim; a first heartbeat that is refused, or answered with an expired lease, ends it silently |
| ClaimLaws.StuckThreadSilencesTheClaim | src/atlas_research/remote_worker.py:396-405 | a thread that does not end in time is a failure, and from then on no terminal message is ever sent |
| ClaimLaws.MessagesCarryCauses | src/atlas_research/remote_worker.py:1773-1849 | over every run a completion carries the digest of a result that became ready, and a failure the code of an Atlas error, without an operating-system cause, that the work raised |
| ResultNames.ResultNameReadsBack | src/atlas_research/production_generation_worker.py:773-804 | the cache name of a lease identity reads back to it |
| ResultNames.ResultNamesDiffer | src/atlas_research/production_generation_worker.py:773-777 | different lease identities never share a cache file |
| ResultNames.ResultNameForm | src/atlas_research/production_generation_worker.py:773-777 | a cache name is job, attempt one, fence, cancellation counter and assignment digest joined by hyphens |
| ResultNames.ReadableNameIsPrintedExactly | src/atlas_research/production_generation_worker.py:52-57 | a readable name is a printed one if and only if its cancellation counter has no leading zero |
| Generation.ReloadSendsSameBytes | src/atlas_research/production_generation_worker.py:839-853 | a cached result is sent again with the same bytes if and only if it still validates after reload and holds no large integral number |
| Generation.ResultCache.Store | src/atlas_research/production_generation_worker.py:855-868 | a result is stored as its canonical text and a newline under its identity, or refused; a file that is there already is a conflict and stays |
| Generation.ResultCache.Cached | src/atlas_research/production_generation_worker.py:839-853 | a cached file is reloaded, validated and canonicalized again |
| Generation.ResultCache.Reconcile | src/atlas_research/production_generation_worker.py:822-837 | the reconcile loop removes the files whose receipts match, in name order, and stops at a name it cannot read |
| Generation.SweepKeepsUnmatched | src/atlas_research/production_generation_worker.py:822-837 | reconciling keeps every unmatched file byte for byte |
| Generation.CompleteSweepLeavesUnmatched | src/atlas_research/production_generation_worker.py:822-837 | a sweep is complete if and only if there are at most eight files and all have cache names; then exactly the unmatched files remain |
| GenerationSteps.MessagesExactly | src/atlas_research/production_generation_worker.py:895-957 | which step of the worker sends which message, starts the model or records a removal; no other step adds anything |
| GenerationSteps.FilesChangeExactly | src/atlas_research/production_generation_worker.py:822-957 | which step writes or removes which cache file; every other file and every other step leaves the cache as it is |
| GenerationSteps.WhatFollows | src/atlas_research/production_generation_worker.py:926-957 | an unaccepted message ends the cycle and keeps the file; after an accepted completion an unsafe file or a failing status sends a failure, after an accepted failure it ends |
| GenerationSteps.CycleBeginsExactly | src/atlas_research/production_generation_worker.py:822-829 | with nine or more files the worker never gets past the start of a cycle; otherwise it asks about the sorted names |
| GenerationRuns.NextKeepsSound | src/atlas_research/production_generation_worker.py:895-957 | every event, restarts and deaths with or without a leftover temporary file included, keeps cache and log sound |
| GenerationRuns.CompletionsRepeatTheBytes | src/atlas_research/production_generation_worker.py:895-957 | after a completion was sent for an identity, every later one carries the same bytes and the model does not run, until the file is removed |
| GenerationRuns.RemovalFollowsAcceptance | src/atlas_research/production_generation_worker.py:870-957 | a cache file is removed only right after an accepted terminal message or a matching receipt |
| GenerationRuns.SentResultIsOnDisk | src/atlas_research/production_generation_worker.py:905-935 | what was sent is still on disk, so a restart can send it again |
| GenerationRuns.ReclaimIsDecidedByReload | src/atlas_research/production_generation_worker.py:909-957 | a claim on an identity whose completion was sent sends that completion again if the stored result reloads, and a failure if it is refused |
| GenerationRuns.FailureFollowsCompletionOnlyWhenRefused | src/atlas_research/production_generation_worker.py:895-957 | over every run without other trouble a failure follows a completion of the same identity, its file not removed in between, only when the stored result is refused on reload |
| GenerationRuns.RefusedCompletionBecomesFailure | src/atlas_research/production_generation_worker.py:895-957 | the failing case: a completion acknowledged ambiguously, whose stored result is refused on reload, is followed by a failure |
| GenerationRuns.TemporaryStopsTheWorker | src/atlas_research/production_generation_worker.py:822-837 | a temporary name left in the results directory stops the worker: from then on no claim, no model run and no terminal message |
| ScoreResults.FieldReadBack | src/atlas_research/production_generation.py:221-250 | a field of what a cache file gives back is what the field itself gives back, wherever sorting has put it |
| ScoreResults.WholeComesBack | src/atlas_research/production_generation.py:1031-1037 | a number up to a hundred comes back as an integer, not a Decimal, if and only if its value is whole |
| ScoreResults.ScoreReloadsExactlyWhenWhole | src/atlas_research/production_generation.py:1011-1063 | a stored score result that was valid when the model gave it is sent again if and only if every applicable value and confidence is a whole number (and no number is a large integral one); otherwise it is refused |
| ScoreResults.HalfConfidenceIsRefused | src/atlas_research/production_generation.py:1028-1043 | the witness: a result with an applicable confidence of 0.5 is refused on reload |
| ScoreResults.FractionalCompletionBecomesFailure | src/atlas_research/production_generation_worker.py:895-957 | the run that goes wrong: an ambiguously acknowledged completion of a valid score with a fraction is followed by a failure for the same lease identity |
| Telemetry.ParseScoutTelemetry | src/atlas_research/operations_telemetry.py:142-220 | the history loop and the checks around it, refusal by refusal |
| Telemetry.ParseAcceptsExactly | src/atlas_research/operations_telemetry.py:142-220 | a snapshot is accepted if and only if it is fresh, in range, its history a strictly later, never falling chronicle that ends at the totals |
| Telemetry.TelemetryWriter.Write | src/atlas_research/operations_telemetry.py:376-462 | temporary, watermark comparison, rename: what is visible and what is answered at every point of failure |
| Telemetry.TelemetryWriter.PublishOnce | src/atlas_research/remote_worker.py:1400-1443 | one publish: the guards, the write, and the watermark kept in memory |
| Telemetry.VisibleNeverDecreases | src/atlas_research/remote_worker.py:1400-1443 | over publishes, stale rejections, ambiguous commits, deaths and restarts the visible timestamp never decreases and memory never exceeds it |
| Telemetry.PublishesExactly | src/atlas_research/remote_worker.py:1400-1443 | a publish succeeds if and only if nothing fails and the visible projection is not newer; the check against memory decides nothing more |
| Telemetry.HistoryIsChronicle | src/atlas_research/operations_telemetry.py:180-206 | the history loop succeeds exactly on chronicles within the totals |
| Telemetry.WriteLeavesExactly | src/atlas_research/operations_telemetry.py:376-462 | a write that is too large, unsafe or fails early leaves the old projection; a newer visible one is stale; past the rename the new one is visible, whatever is answered |
| Telemetry.OnlyFullAttemptsWrite | src/atlas_research/remote_worker.py:1400-1443 | an attempt without configuration, lock, live session or snapshot, one that is cancelled, and one older than the memory change nothing |
| Telemetry.OwnProjectionIsPublished | src/atlas_research/remote_worker.py:1400-1443 | only the attempt's own projection ever becomes visible; a success says that it is, and its timestamp is the new watermark |
| Telemetry.MemoryFollowsTheFile | src/atlas_research/remote_worker.py:1400-1443 | after a committed, stale or ambiguous write the watermark in memory is the visible timestamp; after a death it is gone; otherwise it stays |

## Left out

- HTTP, TLS, name resolution, sockets and watchdog threads: a request is an event with an accepted, refused or ambiguous reply.
- Ollama and Qwen calls, prompts, text-safety rules, the command line, reports and the doctor: foreign services and user interface.
- Subprocesses, resource limits, git provenance and signals: the evaluation child is a packet or an error given from outside.
- Descriptor, symbolic-link, permission and inode checks: files are names with contents; a file the program refuses to touch is one case of its own.
- SHA-256: an arbitrary function, assumed free of collisions only where a result says so.
- The receipt codec: any encoding that reads back what it writes (`Receipts.Lawful`); field-by-field schema validation of receipts, jobs, artifacts and generation documents is a predicate given from outside.
- IEEE rounding: metrics are over exact reals, and rounding a decimal to the nearest float is a parameter of the record format with the three laws of `ScoringRecords.LawfulRounding`; canonical JSON takes a decimal to be a float's own shortest spelling, whose text is at most 1024 characters long.
- The 50-digit decimal context, and the default 28-digit context of the subtraction at src/atlas_research/evaluation.py:330: sums, quotients and differences are exact.
- Logarithms and square roots: log discounts stand for any positive sequence that never rises, the root in the correlation is given by its square.
- UTF-8 decoding: JSON texts are strings with their UTF-8 length; dataset files are strings of one character a byte, which refuses the same files because every accepted record is ASCII.
- Reference cycles in values to print: values are trees.
- Which of several refusals of one tree is reported by `_validate_json_tree`: the model refuses with one error.
- Manifests (`build_dataset_manifest`, `verify_dataset_manifest`): their semantic part is `verify_frozen_dataset`; the rest settles field by field.
- Metric names and reason codes are constructors, so the unknown-metric refusal and the upper-casing of names are not modelled.
- Limits of `parse_scoring_jsonl` below the defaults, other than the record limit, which no modelled caller passes.
- Raw operating-system errors that escape a commit after its link end the process: they are deaths in the model, not rejections.
- A temporary file whose removal fails after a failed write is the same as one left by a death.
- Result URIs are taken to lie outside the receipt directory, and cache names to be ones the locator grammar accepts.
- Replay across a changed worker session or package version, which the code refuses by design.
- The generation supervisor's thread: its `stop_and_check` is an event with any outcome; the thread interleaving is modelled for the remote worker's supervisor.
- Staging, execution, pruning and cleanup inside a claim: work that may raise any error at any moment, with checks in between.
- The telemetry publisher's background thread and lock: attempts are serialized, and a lock that cannot be taken is an attempt that does nothing.
- Telemetry field shapes and timestamp texts: snapshots carry parsed integers, times in microseconds.
- Termination of a worker's service loop, back-off delays and status file contents.
- Receipts.ReceiptLog.WriteHead: does not show the temporary file of a HEAD write; it lies beside the entries directory, where nothing reads it.
- CanonicalLaws.SameTextExactlyWhenEqual: takes a decimal to be a float's own shortest spelling; the program first rounds a longer one to the nearest float.
- EvaluationLaws.GateAccepted: subtracts exactly, where the program's 28-digit context rounds differences of values from 10^16.
- Generation.ResultCache.Cached: takes a file that cannot be read safely as outside the model, and all of revalidation but the score rule of `ScoreResults` as a predicate given from outside.
- Generation.ResultCache.Reconcile: looks at the name of a file alone, not at the identity inside its JSON, and removes without failing.
- ScoreResults.ScoreReloadsExactlyWhenWhole: leaves explanations, evidence references and the rest of the envelope to a predicate that sees values, not spellings.
- Claims.AtMostOneTerminal: does not say how often a late status error happens, because status writes are outside the model.
