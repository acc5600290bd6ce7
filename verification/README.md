# A verified model of the evaluation platform

The platform scores machine-learning models: it computes metrics and their statistics, takes runs
through a queue of workers, asks a language model to judge examples, and tells subscribers about it.
This project models the parts of it where something can go subtly wrong and proves what they promise.
Floats are modelled as reals and NaN as `None`; random draws, the tie order of a sort, clocks and the
outcome of every external call are parameters, so each theorem holds for all of them.

**Metrics.** `EditScripts.dfy` says what turning one token sequence into another costs, without any
table; `Speech.dfy` proves that the one-row in-place program computes the optimum, that the optimum is
a metric, and what the error rates are. `CommonSubsequence.dfy` does the same for the longest common
subsequence and brackets the edit distance by it; `Text.dfy` relates the n-gram counts of BLEU and
ROUGE to each other and to the subsequence. `AucRoc.dfy` proves the tie-averaged rank sum equal to
counting pairs, `CalibrationError.dfy` bounds the calibration error from both sides, and `Classic.dfy`
derives the identities among accuracy and the micro, macro and weighted averages.

**Statistics.** `CohenKappa.dfy`, `KrippendorffAlpha.dfy`, `KrippendorffBounds.dfy` and
`KrippendorffPatterns.dfy` prove the range of the two agreement coefficients, with ratings missing or not,
and when they are extreme; `Permutation.dfy`,
`Resampling.dfy`, `Percentiles.dfy` and `Bootstrap.dfy` prove what the resampling tests guarantee for every
draw. `Sums.dfy`, `PairwiseSums.dfy`,
`Bins.dfy`, `Categories.dfy`, `Shares.dfy` and `Arith.dfy` hold the shared algebra.

**Protocols.** `RunStore.dfy` is the run table with its transactions, `RunLifecycle.dfy` the transition
system of submissions, cancellations and any number of workers, crashes included, `RunHistory.dfy`
what its runs keep, and `RunQueue.dfy` how its queue is served. `JudgePlane.dfy`, `JudgeBudget.dfy`, `RateLimits.dfy` and `Webhooks.dfy` treat the
judge and its dead letters, the two Redis counters and the delivery of webhooks.

Code that changes state in place is written as methods over arrays and classes, proved against a
function of the old state; the theorems are about that function and about whole runs of it.

## Where the code does less than one might expect

- A worker writes a run's status without looking at it. A cancelled run can therefore become active
  again and complete (`CancelledRunRevives`), and a project can exceed its concurrency quota. What does
  hold: active runs that no worker holds stay within the quota; the quota itself is kept exactly as long
  as no worker writes an active status over a run that is not active while its project is at the quota
  (`QuotaKeptIff`); and a terminal status is final exactly if no live worker is processing the run
  (`FinalIff`).
- Polling does not claim a run. With two workers one run can be processed twice and both fail and
  complete (`TwoWorkersTakeTheSameRun`). A run is picked up at most once exactly as long as no poll returns
  it while a worker holds it (`PickedOnceIff`), which a single worker guarantees (`OneWorkerOneOutcome`); W
  workers process it at most W times (`OutcomesAtMostWorkers`).
- An empty idempotency key is stored but never looked up. Submitting it again does not return the original
  run; once nothing else is wrong with the request it breaks the unique constraint (`EmptyKeyIsADuplicate`).
- Two raters in perfect agreement get kappa 0, not 1, exactly when they use a single category
  (`PerfectAgreement`), because of the `1e-12` in the denominator.
- With missing ratings alpha can leave [-1, 1] even for two raters (`MissingRatingBreaksBound`). The lower
  bound -1/(R - 1) holds for a pattern of missing cells exactly if every item is rated by all or by none, or
  no item has two ratings (`BoundHoldsIff`); the exact minimum of every pattern is given, too.
- `auc_roc` counts a label other than 0 and 1 as a negative in the ranks but not in the denominator. The
  area stays in [0, 1] for all scores exactly if every label is 0 or 1 (`AreaBoundedIffBinary`).
- Scores outside [0, 1] fall in no bin. The calibration error bounds the overall gap for all labels exactly
  if every score is in [0, 1] (`LowerBoundIff`).
- A replay of dead letters in which some call fails leaves the letters it did judge in the list and queues
  the failed ones a second time (`ReplayCleanIff`).
- A refused judge request has consumed its tokens already (`RefusalConsumes`).
- The comment in the gateway speaks of a token bucket with burst 200. The code is a fixed window and
  never reads its burst constant; still no one-second window admits more than 200 (`AnyWindowAdmits200`).

## Model

| member | source | states |
|---|---|---|
| `Speech.EditDistance` | melp/metrics/speech.py:10-27 | the one-row program returns the least cost of any script of insertions, deletions and substitutions from a to b |
| `Speech.NextRow` | melp/metrics/speech.py:18-26 | the inner loop turns the row of one prefix into the row of the next, overwriting it in place |
| `Speech.NoScriptIsCheaper` | melp/metrics/speech.py:10-27 | every edit script costs at least the table entry |
| `Speech.BestScriptAttains` | melp/metrics/speech.py:10-27 | the script read off the table turns a into b at exactly the table's cost |
| `Speech.DistanceIsLipschitz` | melp/metrics/speech.py:21-25 | dropping a token moves the distance by at most one, so a match may take the diagonal unseen |
| `Speech.ZeroIffEqual` | melp/metrics/speech.py:10-27 | distance 0 if and only if the sequences are equal |
| `Speech.Symmetric` | melp/metrics/speech.py:10-27 | the distance is symmetric |
| `EditScripts.ComposeRunsBoth` | melp/metrics/speech.py:10-27 | two scripts compose to one that does both and costs no more |
| `Speech.Triangle` | melp/metrics/speech.py:10-27 | the triangle inequality |
| `Speech.LengthBounds` | melp/metrics/speech.py:10-27 | the distance lies between the length difference and the greater length |
| `Speech.RateFacts` | melp/metrics/speech.py:34-43 | an error rate is 0 only for equal texts, and at most 1 unless the prediction is longer |
| `Speech.RateInEdits` | melp/metrics/speech.py:34-43 | the rate times the reference length is the edit distance; any prediction for an empty reference has rate 1 |
| `Speech.ErrorRate` | melp/metrics/speech.py:34-55 | per-example rates and their mean; a length mismatch is an error; aggregate 0 iff all predictions are right |
| `CommonSubsequence.LcsLength` | melp/metrics/text.py:69-80 | the table program returns the length of a longest common subsequence |
| `CommonSubsequence.NoLongerCommonSubsequence` | melp/metrics/text.py:69-80 | no common subsequence is longer than the table entry |
| `CommonSubsequence.LcsWitness` | melp/metrics/text.py:69-80 | some common subsequence has exactly that length |
| `CommonSubsequence.LcsBracketsDistance` | melp/metrics/text.py:69-80 | max(m, n) - lcs <= edit distance <= m + n - 2 lcs |
| `CommonSubsequence.LcsFullIffEqual` | melp/metrics/text.py:69-80 | the common subsequence is as long as both texts iff they are equal |
| `CommonSubsequence.LcsSymmetric` | melp/metrics/text.py:69-80 | the length does not depend on the order of the texts |
| `Text.RaiseMaxima` | melp/metrics/text.py:21-25 | the per-reference loop raises each gram's count to the maximum seen |
| `Text.SumClipped` | melp/metrics/text.py:26 | the sum of clipped counts is the size of the multiset intersection, in any order of the grams |
| `Text.ModifiedPrecision` | melp/metrics/text.py:17-28 | clipped is the size of hypothesis counts cut by the per-gram maxima over the references, total the number of n-grams; (0, 0) for short hypotheses |
| `Text.GramCount` | melp/metrics/text.py:20 | the count of a gram is the number of positions where it stands |
| `Text.ClippedAtMostTotal` | melp/metrics/text.py:17-28 | clipped <= total, equal iff every n-gram occurs as often in some single reference |
| `Text.MoreReferencesNeverLower` | melp/metrics/text.py:21-26 | adding references never lowers clipped |
| `Text.SingleReferenceIsOverlap` | melp/metrics/text.py:83-89 | with one reference BLEU's clipped count is ROUGE's overlap, and ROUGE-n is clipped/total with the roles exchanged, 0 for a text shorter than n |
| `Text.RougeNIsAShare` | melp/metrics/text.py:83-89 | ROUGE-n lies between 0 and 1 |
| `Text.LcsWithinUnigramOverlap` | melp/metrics/text.py:69-89 | the longest common subsequence never exceeds the unigram overlap |
| `Text.RougeLRecallAtMostRouge1` | melp/metrics/text.py:108-119 | ROUGE-L recall never exceeds ROUGE-1 |
| `Text.RougeLClosedForm` | melp/metrics/text.py:115-117 | the F1 of the two ratios is 2 lcs / (m + n), a number in [0, 1] |
| `Text.RougeLPerfectIffEqual` | melp/metrics/text.py:114-117 | ROUGE-L is 1 iff the texts are equal and not empty |
| `Text.RougeLSymmetric` | melp/metrics/text.py:114-117 | ROUGE-L does not depend on which text is the reference |
| `Text.RougeLBracketsEdits` | melp/metrics/text.py:108-119 | ROUGE-L determines the edit distance up to a factor of two |
| `Text.RougeL` | melp/metrics/text.py:108-119 | per-example scores and their mean; a length mismatch is an error |
| `AucRoc.AverageRanks` | melp/metrics/probability.py:19-31 | the tie-averaging loops give every example the midrank of its score, for every sorting permutation |
| `AucRoc.Reindex` | melp/metrics/probability.py:19-31 | summing along a permutation changes nothing, so the tie order cannot matter |
| `AucRoc.BlockRank` | melp/metrics/probability.py:25-28 | a block of equal sorted scores has the average rank the loop gives it |
| `AucRoc.RankSumCountsPairs` | melp/metrics/probability.py:32-33 | the rank-sum formula equals wins plus half the ties over all pairs, by double counting |
| `AucRoc.Auc` | melp/metrics/probability.py:12-34 | NaN iff a class is missing, else the share of positive-negative pairs won, ties counting half |
| `AucRoc.AreaInCounts` | melp/metrics/probability.py:12-34 | the area times the numbers of positives and of negatives is the number of pairs won plus half the number of ties |
| `AucRoc.AreaInUnitInterval` | melp/metrics/probability.py:12-34 | for 0/1 labels the area is between 0 and 1 |
| `AucRoc.AreaOneIff` | melp/metrics/probability.py:12-34 | for 0/1 labels the area is 1 if and only if every positive scores higher than every negative |
| `AucRoc.FlippedArea` | melp/metrics/probability.py:12-34 | exchanging the labels gives one minus the area |
| `AucRoc.AreaBoundedIffBinary` | melp/metrics/probability.py:12-34 | the area lies in [0, 1] for all scores if and only if every label is 0 or 1 |
| `AucRoc.StrayLabelExceedsOne` | melp/metrics/probability.py:15-16 | an example: with a label 2 the result is 2 |
| `CalibrationError.BinsAreDisjoint` | melp/metrics/probability.py:76-77 | no score lies in two bins |
| `CalibrationError.BinsCover` | melp/metrics/probability.py:76-77 | every score in [0, 1] lies in a bin, for every number of bins |
| `CalibrationError.InBinIff` | melp/metrics/probability.py:72-77 | bin b of n holds the scores x with b <= xn < b + 1, the last one 1 as well |
| `CalibrationError.BinGapIs` | melp/metrics/probability.py:80-82 | a bin adds the size of the sum, over the examples it holds, of the score minus 1 for label 1 and of the score for any other |
| `CalibrationError.BinContribution` | melp/metrics/probability.py:80-82 | one bin's term is the size of its summed gap over n |
| `CalibrationError.Ece` | melp/metrics/probability.py:65-83 | the loop returns the summed absolute bin gaps over n, empty bins skipped |
| `CalibrationError.EceBounds` | melp/metrics/probability.py:65-83 | mean gap <= ECE <= mean absolute gap <= 1 for scores in [0, 1] |
| `CalibrationError.OutOfRangeScoreIsLost` | melp/metrics/probability.py:77-79 | an example: a single score outside [0, 1] contributes nothing |
| `CalibrationError.BinnedIffInRange` | melp/metrics/probability.py:76-77 | a score falls in some bin if and only if it lies in [0, 1] |
| `CalibrationError.LowerBoundIff` | melp/metrics/probability.py:76-82 | the error is at least the overall gap for all labels if and only if every score lies in [0, 1] |
| `Classic.ConfusionConservation` | melp/metrics/classic.py:33-43 | summed over the classes tp + fp and tp + fn are both n |
| `Classic.HitsAddUp` | melp/metrics/classic.py:33-37 | the true positives over the classes add up to the correct predictions |
| `Classic.MicroIsAccuracy` | melp/metrics/classic.py:48-53 | micro precision, recall and F1 all equal accuracy |
| `Classic.WeightedRecallIsAccuracy` | melp/metrics/classic.py:54-61 | support-weighted recall equals accuracy |
| `Classic.MacroOneIffEqual` | melp/metrics/classic.py:62-63 | macro scores are shares (NaN only for no examples); each of precision, recall and F1 is 1 iff all predictions are right |
| `Classic.F1BetweenPrecisionAndRecall` | melp/metrics/classic.py:45-47 | per class all scores are in [0, 1] and F1 lies between the other two |
| `Classic.ClassScoresInCounts` | melp/metrics/classic.py:33-47 | per class precision times the predictions, recall times the examples, and F1 times both are the hits, twice for F1 |
| `Classic.WeightedByExample` | melp/metrics/classic.py:54-61 | each weighted score times n adds up, over the examples, that score of the example's class |
| `Classic.MacroByClass` | melp/metrics/classic.py:62-63 | each macro score times the number of classes adds up that score over the classes |
| `Classic.AccuracyOneIffEqual` | melp/metrics/classic.py:15-21 | accuracy is 1 iff all predictions are right |
| `Classic.AccuracyInCounts` | melp/metrics/classic.py:15-21 | accuracy times n is the number of right predictions |
| `CohenKappa.ExpectedBounds` | melp/stats/significance.py:58-60 | chance agreement is in [0, 1] and at most half of one plus the observed agreement |
| `CohenKappa.KappaInCounts` | melp/stats/significance.py:54-61 | with A of n ratings equal and M of the n^2 pairs of one rating each equal, kappa (n^2 - M + 10^-12 n^2) = nA - M |
| `CohenKappa.KappaBounds` | melp/stats/significance.py:54-61 | kappa never divides by zero, is strictly between -1 and 1, and is nonnegative iff observed reaches chance agreement |
| `CohenKappa.KappaSymmetric` | melp/stats/significance.py:54-61 | exchanging the raters keeps kappa |
| `CohenKappa.PerfectAgreement` | melp/stats/significance.py:54-61 | perfect agreement gives kappa 0 iff only one category occurs, and a positive kappa otherwise |
| `KrippendorffAlpha.AppendPairs` | melp/stats/significance.py:78-80 | the two inner loops append every unordered pair's squared difference once |
| `KrippendorffAlpha.Krippendorff` | melp/stats/significance.py:64-86 | the program returns one minus observed over expected disagreement, 1 when none is expected |
| `KrippendorffAlpha.AlphaOneIffUnanimous` | melp/stats/significance.py:64-86 | alpha <= 1, with equality iff no item got two different ratings, missing ratings and the zero branch included |
| `KrippendorffBounds.AlphaClosedForm` | melp/stats/significance.py:71-86 | alpha in numbers, sums and sums of squares of the ratings, per item and overall: (1 - alpha) sum(c (c - 1)) (NQ - SS) = NN sum(cq - ss), ratings missing or not |
| `KrippendorffBounds.AlphaFloor` | melp/stats/significance.py:70-86 | with any ratings missing alpha >= 1 - VN/(2P) for N ratings, at most V of an item, and P pairs within items |
| `KrippendorffPatterns.FloorIsAttained` | melp/stats/significance.py:70-86 | for every pattern of missing cells with a pair some values attain that bound |
| `KrippendorffPatterns.BoundHoldsIff` | melp/stats/significance.py:67-86 | for a pattern, alpha >= -1/(R - 1) for all values if and only if every item is rated by all or none, or no item twice |
| `KrippendorffPatterns.AlphaLowerBound` | melp/stats/significance.py:64-86 | alpha >= -1/(R - 1) for R >= 2 complete raters |
| `KrippendorffPatterns.MissingRatingBreaksBound` | melp/stats/significance.py:75-77 | an example: two raters with one missing rating and alpha -2 |
| `Permutation.PValueInUnitInterval` | melp/stats/significance.py:41 | the p-value is in [0, 1] for every draw |
| `Permutation.ResultInTotals` | melp/stats/significance.py:37-41 | p times the number of rows is the number of rows whose signed total of absolute differences is at least as far from 0 as the observed one; the statistic times n is the difference of the totals |
| `Permutation.EffectInTotals` | melp/stats/significance.py:38-42 | the effect size times (s + 10^-12) times n is the difference of the totals, s being the sample standard deviation in sums of squares |
| `Permutation.SwapKeepsPValue` | melp/stats/significance.py:24-43 | exchanging the samples keeps the p-value and negates the statistic |
| `Permutation.SwapNegatesEffect` | melp/stats/significance.py:42 | exchanging the samples keeps the standard deviation and negates the effect size |
| `Permutation.MatchingRowIsExtreme` | melp/stats/significance.py:40-41 | a row that repeats or reverses the observed signs always counts |
| `Permutation.OneSidedExtreme` | melp/stats/significance.py:40-41 | when all differences point one way a row counts iff its signs agree on every nonzero difference |
| `Permutation.CubeIsComplete` | melp/stats/significance.py:39 | the sign cube holds every sign vector |
| `Permutation.CubeMatches` | melp/stats/significance.py:39-41 | with z zero differences, 2^z rows of the cube repeat the observed signs |
| `Permutation.CubePValue` | melp/stats/significance.py:39-41 | over the full cube p >= 2^(z + 1)/2^n, with equality for one-sided differences |
| `Permutation.NoDifferenceIsCertain` | melp/stats/significance.py:40-41 | equal samples have p-value 1 for every draw |
| `Resampling.DrawStratified` | melp/stats/bootstrap.py:49-54 | the nested loops build the stratum-by-stratum resample |
| `Resampling.StratifiedKeepsStrata` | melp/stats/bootstrap.py:46-54 | every stratified resample has size n and the original count of every stratum |
| `Resampling.ResampleKeepsStrata` | melp/stats/bootstrap.py:46-54 | so has every resample the interval is computed from, when there are strata, stratum by stratum in increasing order |
| `Resampling.EveryPlainResampleIsDrawn` | melp/stats/bootstrap.py:43-44 | without strata any sequence of selections of n examples is the outcome of some draw |
| `Resampling.EveryStratifiedResampleIsDrawn` | melp/stats/bootstrap.py:46-54 | with strata so is any that keeps the sequence of the strata: within its stratum every pick is free |
| `Percentiles.SortPermutes` | melp/stats/bootstrap.py:58 | sorting the samples for the percentile rearranges them |
| `Percentiles.PercentileSplits` | melp/stats/bootstrap.py:58 | samples below a percentile come before its fractional position, samples above come after |
| `Percentiles.TailCounts` | melp/stats/bootstrap.py:58 | at level q of n samples fewer than q (n - 1) + 1 lie below the percentile and fewer than n - q (n - 1) above |
| `Percentiles.RampPercentile` | melp/stats/bootstrap.py:58 | for 0, 1, ..., n - 1 in any order the percentile at level q is q (n - 1) |
| `Percentiles.PercentileMonotone` | melp/stats/bootstrap.py:58 | a higher level gives no smaller percentile |
| `Bootstrap.BootstrapCi` | melp/stats/bootstrap.py:28-58 | for any statistic the program returns its value and, of its n resampled values, limits with fewer than (alpha/2)(n - 1) + 1 values below the lower and above the upper one, exactly (alpha/2)(n - 1) and (1 - alpha/2)(n - 1) if the values are 0, 1, ..., n - 1 in any order; zeros for no data, an error for an unknown method or alpha outside [0, 2] |
| `Bootstrap.EverySelectionIsDrawn` | melp/stats/bootstrap.py:42-56 | the resampled values are the statistic of the selected examples, and any selection can be drawn, with strata any that keeps their sequence |
| `Bootstrap.MeanIsInternal` | melp/stats/bootstrap.py:31 | the default statistic stays within its sample's range |
| `Bootstrap.IntervalOrdered` | melp/stats/bootstrap.py:58 | for any statistic the interval is in order for all samples if and only if alpha <= 1 |
| `Bootstrap.IntervalBounds` | melp/stats/bootstrap.py:28-58 | for every draw and every statistic that stays within its sample's range, so do the estimate and the interval; low <= high for alpha <= 1 |
| `RunStore.FindKey` | melp/services/run/routes.py:98-100 | the idempotency lookup finds the project's run with the key if there is one |
| `RunStore.Store.CreateRun` | melp/services/run/routes.py:86-161 | a submission's effect on the table and its answer, in the order of the checks in the code |
| `RunStore.CreateAnswers` | melp/services/run/routes.py:96-138 | when each answer is given: a valid submission with an unused key is accepted, and stored as submitted, if and only if the project has fewer queued, running and aggregating runs than its quota |
| `RunStore.Store.CancelRun` | melp/services/run/routes.py:197-222 | a run of the project is cancelled if and only if it is QUEUED, RUNNING, AGGREGATING or PENDING_SUBMISSION; then only its status changes and one event is recorded, otherwise nothing |
| `RunHistory.CancelTakesEffect` | melp/services/run/routes.py:208-221 | in every state a run that is not over can be cancelled |
| `RunStore.Store.SetRunStatus` | melp/workers/runner.py:93-98 | only the status changes, whatever it was |
| `RunStore.Store.NextQueued` | melp/workers/runner.py:184-190 | the poll returns a queued run no queued run is older than, or none if none is queued |
| `RunStore.Store.ProcessRunLocally` | melp/workers/runner.py:137-174 | undisturbed processing performs the stage transactions in order and ends COMPLETED, or FAILED after an exception at any stage |
| `RunStore.RowOnTheWay` | melp/workers/runner.py:101-174 | the row after each transaction: RUNNING once started, AGGREGATING with the results, COMPLETED at the end; examples done none until predicted, then all |
| `RunStore.ProcessInFull` | melp/workers/runner.py:137-174 | a processing is all these transactions, or those before the exception and the one that fails the run |
| `RunHistory.ProcessFinal` | melp/workers/runner.py:137-174 | its outcome does not depend on the row's former status; it touches no other row and records its one outcome event last |
| `RunHistory.WorkerRunsProcess` | melp/workers/runner.py:137-174 | the worker's steps in the transition system, taken without interruption, are exactly that processing |
| `RunLifecycle.StepKeepsUnheldQuota` | melp/services/run/routes.py:106-118 | no step takes the active runs no worker holds above the project's quota |
| `RunLifecycle.QuotaPlusWorkers` | melp/services/run/routes.py:106-118 | in every reachable state active runs <= quota + workers, and those not held <= quota |
| `RunLifecycle.StepExceedsIff` | melp/workers/runner.py:93-98 | a step breaks the quota iff it is a worker's active status write over an inactive run at the quota |
| `RunLifecycle.QuotaKeptIff` | melp/workers/runner.py:93-98 | over a whole run the quota is kept iff no such write happens |
| `RunHistory.KeysStayUnique` | melp/services/run/routes.py:96-102 | in every reachable state a project has at most one run per key |
| `RunHistory.ResubmissionReturnsOriginal` | melp/services/run/routes.py:96-102 | submitting a used key again, at any later time, changes nothing and creates no run; it returns the original run if and only if the key is not empty |
| `RunHistory.EmptyKeyIsADuplicate` | melp/services/run/routes.py:97-138 | a run in which an empty key is accepted once and its resubmission violates the unique constraint |
| `RunHistory.CompletedIsAggregated` | melp/workers/runner.py:157-162 | in every reachable state a COMPLETED run has its aggregation transaction committed |
| `RunHistory.FinishCommitsOneOutcome` | melp/workers/runner.py:160-174 | a processing ends in one transaction with COMPLETED and its event or FAILED and its event; no other step records such an event |
| `RunHistory.LastEventNamesStatus` | melp/workers/runner.py:115-174 | in every reachable state the last event about a run names its status unless it is AGGREGATING, and its progress is none or all |
| `RunHistory.PicksAreAccountedFor` | melp/workers/runner.py:177-194 | pick-ups of a run = completed events + failed events + worker processes holding it |
| `RunQueue.PickedOnceIff` | melp/workers/runner.py:182-194 | with any number of workers a run is picked at most once if and only if no poll returns it while a worker process holds it |
| `RunQueue.OneWorkerOneOutcome` | melp/workers/runner.py:177-194 | with one worker each run is picked at most once and has at most one outcome |
| `RunQueue.OutcomesAtMostWorkers` | melp/workers/runner.py:177-194 | with W workers a run is picked at most W times and has at most W outcomes |
| `RunQueue.TakenInTurn` | melp/workers/runner.py:184-190 | with any number of workers a queued run is picked or cancelled once the polls have taken more unheld runs than were ahead of it |
| `RunQueue.PolledInTurn` | melp/workers/runner.py:184-190 | with W workers a queued run is picked or cancelled once there were more than W polls per older queued run |
| `RunQueue.PickedInTurn` | melp/workers/runner.py:184-190 | with one worker a queued run is picked or cancelled once polls outnumber the older queued runs |
| `RunHistory.OverAndReleasedIsFinal` | melp/workers/runner.py:93-98 | a terminal row that no live worker is processing never changes again |
| `RunHistory.ProcessingCanChange` | melp/workers/runner.py:93-98 | the worker processing a run can still give it another status |
| `RunHistory.FinalIff` | melp/workers/runner.py:93-98 | a terminal status is final, whatever happens next, if and only if no live worker is processing the run |
| `RunHistory.CancelledRunRevives` | melp/workers/runner.py:111-118 | a run in which a cancelled run becomes active, exceeds the quota and completes |
| `RunHistory.TwoWorkersTakeTheSameRun` | melp/workers/runner.py:182-192 | a run in which two workers process the same run, with both outcomes |
| `JudgePlane.Plane.JudgeRun` | melp/judge/orchestrator.py:105-159 | successes become judgments, failures letters, in order; other runs' letters stay |
| `JudgePlane.JudgeRunAccounts` | melp/judge/orchestrator.py:120-159 | every example ends as a judgment or a letter, and judged + failed = examples |
| `JudgePlane.Plane.Replay` | melp/scripts/dlq_replay.py:23-75 | the replay's effect and exit code on every path, the dry run and the early exits included |
| `JudgePlane.ToReplayClean` | melp/scripts/dlq_replay.py:50-56 | letters of examples of the artifact are replayed in their order, each with the last line of its id |
| `JudgePlane.ReplayKeepsAccount` | melp/scripts/dlq_replay.py:56-75 | a replay loses no example, and after one without failures every example is judged |
| `JudgePlane.ReplaysKeepAccount` | melp/scripts/dlq_replay.py:29-75 | after any number of replays every example is judged or in the list; with the list empty all are judged |
| `JudgePlane.FirstJudgingIsClean` | melp/judge/orchestrator.py:120-159 | the first judging judges nothing twice, queues nothing twice and queues nothing judged, whatever the judge answers, if and only if the ids are unique |
| `JudgePlane.ReplayCleanIff` | melp/scripts/dlq_replay.py:69-75 | a replay keeps that if and only if none of its calls fails |
| `JudgeBudget.Budget.CheckAndConsume` | melp/judge/orchestrator.py:29-40 | the tokens are consumed first, then compared with the budget |
| `JudgeBudget.AllowedIff` | melp/judge/orchestrator.py:29-40 | a request at a time in [60 m, 60 m + 60) is allowed iff all requests of its project in that minute so far fit the budget, itself included, expiry notwithstanding |
| `JudgeBudget.AllowedFormPrefix` | melp/judge/orchestrator.py:29-40 | within a project-minute the allowed requests come first |
| `JudgeBudget.GrantsWithinBudget` | melp/judge/orchestrator.py:84-86 | granted tokens of a project-minute never exceed the budget, and all are granted while they fit |
| `JudgeBudget.RefusalConsumes` | melp/judge/orchestrator.py:38-40 | after a request above the budget nothing is allowed in its project-minute any more |
| `RateLimits.Gateway.RateLimit` | melp/services/gateway/app.py:43-68 | the counter update, and admission up to 100; other paths pass uncounted |
| `RateLimits.CountIsExact` | melp/services/gateway/app.py:51-56 | the count is the project's hits in the running second, expiry notwithstanding |
| `RateLimits.AdmitsFirstHundred` | melp/services/gateway/app.py:56-57 | per project and second exactly min(hits, 100) are admitted |
| `RateLimits.AdmitsIff` | melp/services/gateway/app.py:51-57 | a request is admitted iff fewer than 100 of its project came before it in its second |
| `RateLimits.AnyWindowAdmits200` | melp/services/gateway/app.py:38-57 | any one-second window admits at most 200 requests of a project |
| `RateLimits.TwoHundredIsAttained` | melp/services/gateway/app.py:51-57 | an example in which a one-second window admits 200 |
| `Webhooks.DeliveryTable.EnqueueEvent` | melp/common/webhooks.py:22-49 | one pending row per active subscription that wants the event, and their number |
| `Webhooks.EnqueuedIff` | melp/common/webhooks.py:30-38 | a subscription gets a row if and only if it is the project's, active, and lists the event |
| `Webhooks.EnqueuedRows` | melp/common/webhooks.py:36-48 | at most one row per subscription, in their order, each pending, unattempted and due at once |
| `Webhooks.DeliveryTable.DeliverPending` | melp/common/webhooks.py:52-95 | each due row of the batch takes one attempt with its outcome; no other row changes |
| `Webhooks.AttemptInFull` | melp/common/webhooks.py:77-94 | an accepted attempt delivers; refused attempt a fails the row at the maximum, and otherwise makes it due 2, 4, ..., 512 seconds later, 600 from a = 10 on |
| `Webhooks.EnqueuedIsAllowed` | melp/common/webhooks.py:36-48 | the enqueued rows are fresh pending ones, so an enqueue is a step of the schedules below |
| `Webhooks.AfterAttemptsRow` | melp/common/webhooks.py:62-94 | a row outside the batch stays, a row in it gets exactly its own outcome |
| `Webhooks.FailureTakesBackoff` | melp/common/webhooks.py:77-94 | in every reachable state PENDING implies attempts < max, FAILED iff attempts = max, and a failed row took 2^max - 2 seconds for max up to 10 |
| `Webhooks.TerminalRowsAreFinal` | melp/common/webhooks.py:57-58 | delivered and failed rows never change |
| `Webhooks.GapAfterRefusal` | melp/common/webhooks.py:85-94 | refused attempt k is followed by a gap of at least min(2^k, 600) seconds |
| `Webhooks.DueAfterRefusal` | melp/common/webhooks.py:57-94 | until it is attempted again a row refused below the maximum is pending and due exactly from that many seconds after the refusal on |
| `Webhooks.BatchUsesRemaining` | melp/common/webhooks.py:62-94 | each attempted row uses up at least one remaining attempt |
| `Webhooks.AttemptsAreBounded` | melp/common/webhooks.py:52-95 | over any schedule attempts made plus attempts remaining never exceed max per enqueued row |

## Left out

- Float rounding and NaN or infinite inputs: the identities are over the reals; only the NaN results for a missing class, empty samples and no classes are kept.
- The tokenising regular expressions, and in ROUGE the choice of the first of several references: token sequences are the inputs.
- The BLEU and METEOR scores, `log_loss` and `perplexity`: logarithms and exponentials of the counts modelled here.
- `auc_pr`, `exact_match` and the other metric modules: they would add easier members of the same kinds.
- `Permutation.SwapKeepsPValue`: covers the p-value and the statistic; the effect size is in `Permutation.SwapNegatesEffect`, its standard deviation given by its defining equation.
- `paired_t_test` and the BCa interval: opaque library distributions.
- `Bootstrap.BootstrapCi`: for at least one resample, for strata as long as the data, and not for BCa.
- `cohen_kappa` of no ratings (NaN) and `AucRoc.Auc` on samples of different lengths: the code's answers are accidents of the library.
- Slices, the per-metric result rows and the metric subprocesses of a run: an aggregation is one atomic transaction, and no claim is made that repeating it is idempotent, since the code inserts new rows each time.
- The Temporal mode, the manual aggregate endpoint and the reproducibility script: they bypass the local lifecycle.
- Races between concurrent `create_run` transactions in the database: submissions are serialised, with strictly increasing times.
- Restarting a crashed worker: a crashed process keeps the run it held; a restart is a further worker.
- `RunQueue.PickedInTurn`: for one worker; `RunQueue.TakenInTurn` and `RunQueue.PolledInTurn` are the forms for several.
- `RunStore.Store.SetRunStatus`: the timestamps and the error text written along with a status are not modelled.
- Changes of a project's quota while runs exist.
- Ids, names, audit rows, error texts and timestamps of runs, and progress other than the two counters.
- `RunStore.Store.CreateRun`: the role check before it is not modelled; the reference checks are one parameter, and the response body is reduced to the run's id.
- `RunStore.Store.CancelRun`: the role check before it and the completion time are not modelled.
- The Judge cache, prompts, retries inside one judge call, and the id given to an example that has none.
- `JudgePlane.ReplaysKeepAccount`: replays are sequential, and storing a judgment never fails.
- The textual form of dead letters and its evaluation on replay.
- `Webhooks.DeliveryTable.DeliverPending`: bodies, signatures and error texts, and a subscription deleted before delivery.
- Access control, key management, gating rules, dataset publishing, the SDK, the command line and the user interface.
