# SAT what-if analyzer: scoring and impact engine in Dafny

This project models the scoring and what-if engine of a digital SAT
analyzer. The engine works per subject: Math, then Reading and Writing.

- **Module 2 tier.** A student's Module 1 ("Static") accuracy is compared with
  the subject's adaptive threshold. This decides whether Module 2 is scored on
  the easy or the hard tier.
- **Raw and scaled score.** Every correct answer of the subject counts toward
  the raw score. A scoring table turns the raw score into a scaled score for
  that tier, and the total is the sum of the two subjects' scaled scores.
- **Threshold fitting.** The thresholds are fitted on historical records by a
  grid search over 0.30, 0.31, ..., 0.80. A candidate replaces the best one
  only on strictly higher accuracy, starting from 0.5 with accuracy 0.
- **Impact of a question.** The impact of correcting one wrong answer is the
  change in total score after rescoring a corrected copy. To that it adds 120
  when a Module 1 answer changes its subject's tier, and a bonus for the
  question's complexity: easy 5, medium or absent 2, hard or anything else 0.
- **Ranking and report.** The incorrect answers are ranked by impact with a
  stable sort, highest first. Each subject keeps its first `topN` entries.
  The report sums and counts each subject's selection.

Modules, in dependency order:

- `Domain` (domain.dfy): subjects, tiers, responses.
- `Ratios` (ratios.dfy): a count ratio against a threshold in hundredths, and
  shares of a whole.
- `ScoringTable` (scoring_table.dfy): the scaled-score lookup.
- `Fitting` (fitting.dfy): historical records, prediction accuracy, the grid
  scan and what it selects.
- `ThresholdTuner` (threshold_tuner.dfy): the standalone tuner's loops and its
  per-subject results.
- `ScoreCalculator` (score_calculator.dfy): tiers, raw and scaled scores, and
  how they respond when answers only become correct.
- `Impact` (impact.dfy): the counterfactual impact of one question.
- `Ranking` (ranking.dfy): the impact entries, the stable sort, the per-subject
  selection and the report.
- `WhatIf` (whatif.dfy): the `Analyzer` class. Its fields are the scoring
  table, the adaptive thresholds and the validation metrics. Each of its
  methods runs the step-by-step computation and is proved equal to the
  specification functions above.

**How values are represented.**

- Thresholds are integer hundredths: the grid is 30..80 and the start value is
  50. A record's prediction `correct / total >= t / 100` is written as
  `100 * correct >= t * total`, and `Fitting.PredictsHardIsRatioTest` proves
  the two equal.
- Accuracies, Module 1 performance, shares and averages are exact rationals
  (`real`).
- Scores and impacts are unbounded integers.

**Two identical fitters.** The analyzer's `calculate_prediction_accuracy` and
`find_optimal_threshold` (whatif.py:69-93) repeat the tuner's
(threshold_tuner.py:21-45) line for line. Both files use the same grid, the
same strict improvement and the same 0.5 start. The model therefore defines
the search once, in `ThresholdTuner`. `WhatIf.Analyzer.FindOptimalThreshold`
calls it and then records the validation entry. So the two files provably
store the same threshold.

**A three-record case.** Take three Math records with Module 1 accuracies
0.40 (routed easy), 0.60 (routed hard) and 0.70 (routed hard). Every candidate
from 0.41 to 0.60 predicts all three, and every lower candidate mispredicts the
0.40 record. The fitter keeps the lowest candidate of maximum accuracy, so in
exact hundredths it fits 0.41 with accuracy 1. A student whose Module 1
performance is 0.55 is then routed to the hard tier. `WhatIf.ThreeRecordScenario`
proves both facts.

**A tier-changing correction.** Correcting a wrong easy-complexity Static Math
answer that lifts Math from the easy to the hard tier has impact
50 + 120 + 5 = 175: a 50-point scaled-score gain, the 120 bonus for the tier
change and the easy bonus of 5 (`Impact.BoundaryCrossingScenario`).

## Model

| member | source | states |
|---|---|---|
| `ScoringTable.FindSubject` | whatif.py:15-19 | returns the index of the first scoring entry whose key is the subject, or nothing when no entry has that key |
| `ScoringTable.FindRaw` | whatif.py:25-27 | returns the index of the first row whose raw value equals the raw score, or nothing when no row matches |
| `ScoringTable.ScaledScore` | whatif.py:13-32 | a subject not in the table gives 200. Otherwise the first exact raw match gives that row's value for the tier. With no match: a negative raw score gives 200, a raw score at or past the number of rows gives the last row, anything else gives 200. Requires a non-empty row list unless the raw score is negative, because the source indexes the last row |
| `WhatIf.Analyzer.GetScaledScore` | whatif.py:13-32 | the two linear searches with early return give exactly `ScaledScore` |
| `ScoreCalculator.CorrectCount` | whatif.py:58 | counts at most one per response |
| `ScoreCalculator.RawScore` | whatif.py:47-52 | a subject's raw score never exceeds the number of responses. `RawScoreCountsBothModules` states what it counts |
| `ScoreCalculator.Module1Performance` | whatif.py:58-60 | the Module 1 performance lies in [0, 1], and is 0 without Module 1 answers |
| `ScoreCalculator.DetermineModule2Difficulty` | whatif.py:34-36 | the branching rule: hard when the performance reaches the threshold. `DifficultyIsCountTest` states it on counts, and `ThreeRecordScenario` applies it |
| `ScoreCalculator.RawScoreCountsBothModules` | whatif.py:47-52 | a subject's raw score is its correct Module 1 answers plus its correct Module 2 answers |
| `ScoreCalculator.DifficultyIsCountTest` | whatif.py:34-36 | with Module 1 answers present, the tier is hard exactly when 100 × correct ≥ threshold × answered |
| `ScoreCalculator.NoModule1MeansEasy` | whatif.py:58-61 | a subject without Static answers has performance 0 and gets the easy tier under any positive threshold |
| `ScoreCalculator.CurrentScore` | whatif.py:54-67 | the total is the sum of the two subjects' scaled scores at their own tiers and raw scores. The tier map has exactly the keys Math and Reading and Writing, each holding that subject's tier |
| `ScoreCalculator.ImprovementCounts` | whatif.py:40-52 | when answers only turn correct: the Module 1 sizes stay equal, and the Module 1 correct count and raw score never drop. Both are unchanged for a subject whose answers did not change, and the Module 1 counts are unchanged when only Module 2 answers changed |
| `ScoreCalculator.PerformanceMonotone` | whatif.py:58-60 | a Module 1 list of the same size with at least as many correct answers has at least the same performance |
| `ScoreCalculator.ImprovementNeverLowersTier` | whatif.py:57-62 | answers turning correct never move a subject from hard to easy |
| `ScoreCalculator.UntouchedSubjectKeepsScore` | whatif.py:57-65 | a subject none of whose answers changed keeps its tier and scaled score |
| `ScoreCalculator.Module2ChangesKeepTiers` | whatif.py:45-61 | correcting only Module 2 answers leaves every tier unchanged |
| `ScoreCalculator.SameOutcomesSameScore` | whatif.py:38-67 | two response lists that agree on subject, section and correctness score identically; complexity and ids play no part |
| `WhatIf.Analyzer.CollectSubjectData` | whatif.py:39-52 | the pass over the responses yields, for exactly the two subjects, each one's Module 1 answers in order and its raw score |
| `WhatIf.Analyzer.CalculateCurrentScore` | whatif.py:38-67 | the method's total and tier map equal `CurrentScore` under the analyzer's current thresholds |
| `Fitting.SubjectRows` | threshold_tuner.py:23 | keeps only records of the subject, and never more records than given |
| `Fitting.SubjectRowsMembers` | threshold_tuner.py:23 | the kept records are exactly the given records of the subject |
| `Fitting.MatchCount` | threshold_tuner.py:27-31 | counts at most one correct prediction per record |
| `Fitting.PredictionAccuracy` | threshold_tuner.py:21-32 | the fraction of the subject's records whose tier the threshold predicts, 0 with no records. `AccuracyBounds` bounds it and `CalculatePredictionAccuracy` computes it |
| `Fitting.PredictsHardIsRatioTest` | threshold_tuner.py:29 | the integer test `100·correct ≥ t·total` is exactly the ratio comparison `correct/total ≥ t/100` |
| `Fitting.AccuracyBounds` | threshold_tuner.py:24-32 | every accuracy, including the 0 returned when the subject has no records, lies in [0, 1] |
| `Fitting.ScanGridInvariant` | threshold_tuner.py:36-43 | after any prefix of the grid, the best accuracy bounds every accuracy tried so far. It is 0 only with the 0.5 start threshold. When positive, it is the accuracy of a tried threshold and every earlier one is strictly lower |
| `Fitting.ScanGrid` | threshold_tuner.py:36-43 | the scan over a grid prefix with strict improvement. `ScanGridInvariant` states what it keeps |
| `Fitting.OptimalThreshold` | threshold_tuner.py:34-45 | the scan over the whole grid. `OptimalThresholdIsFirstMaximum` states what it selects |
| `Fitting.OptimalThresholdIsFirstMaximum` | threshold_tuner.py:34-45 | the fit returns the lowest grid threshold reaching the maximum grid accuracy, together with that threshold's accuracy. It returns (0.5, 0) exactly when every grid candidate has accuracy 0 |
| `Fitting.NoRecordsKeepsDefault` | threshold_tuner.py:24-25 | a subject without records keeps (0.5, 0) |
| `Fitting.OtherSubjectsIrrelevant` | threshold_tuner.py:23 | inserting records of other subjects anywhere changes neither a subject's accuracies nor its fitted pair |
| `ThresholdTuner.CalculatePredictionAccuracy` | threshold_tuner.py:21-32 | the counting loop returns `PredictionAccuracy`: the fraction of the subject's records whose tier the threshold predicts, or 0 with no records |
| `ThresholdTuner.FindOptimalThreshold` | threshold_tuner.py:34-45 | the loop over the grid 30..80 (threshold_tuner.py:11) returns exactly the `OptimalThreshold` pair |
| `ThresholdTuner.HardCount` | threshold_tuner.py:88-91 | counts at most one hard assignment per record |
| `ThresholdTuner.HardCountIsRatioCount` | threshold_tuner.py:88-91 | the hard count is the number of records whose ratio `correct / total` reaches `t / 100` |
| `Ratios.SharesOfWhole` | threshold_tuner.py:91-97 | the hard share lies in [0, 1], and the hard and easy shares of a positive total add up to 1 |
| `ThresholdTuner.SubjectTuning` | threshold_tuner.py:84-99 | a subject's result carries the fitted threshold and accuracy of `OptimalThreshold` and counts its records. Its hard share times that count is the hard count at the fitted threshold, the share lies in [0, 1], and the hard and easy shares add up to 1 |
| `ThresholdTuner.TuneThresholds` | threshold_tuner.py:71-106 | the map has exactly the two subjects, each mapped to its `SubjectTuning` |
| `WhatIf.Analyzer.constructor` | whatif.py:7-11 | keeps the scoring table, starts both subjects at threshold 0.5, and starts with no validation metrics |
| `WhatIf.ValidationFor` | whatif.py:95-102 | the threshold, accuracy and record count a fit records. `WhatIf.Analyzer.FindOptimalThreshold` stores it |
| `WhatIf.FittedThresholds` | whatif.py:104-107 | the thresholds with both subjects replaced by their fitted values. `FittedThresholdsAreFirstMaxima` states what they are |
| `WhatIf.Analyzer.FindOptimalThreshold` | whatif.py:69-102 | returns the fitted threshold and records its threshold, accuracy and the subject's record count. The thresholds are left unchanged |
| `WhatIf.Analyzer.SetDynamicThresholds` | whatif.py:104-107 | the Math and Reading and Writing thresholds become their fitted values, and both validation entries are recorded. Nothing else changes |
| `WhatIf.FittedThresholdsAreFirstMaxima` | whatif.py:82-107 | after fitting, each subject's threshold is 0.5 or on the grid, and its accuracy is at least that of every grid value. It is 0.5 when all accuracies are 0, and every lower grid value is strictly worse when its accuracy is positive |
| `WhatIf.ThreeRecordScenario` | whatif.py:82-102 | in exact hundredths, records 0.40 easy, 0.60 hard and 0.70 hard fit (0.41, 1), and a performance of 0.55 then routes to the hard tier |
| `Impact.LastWithId` | whatif.py:113-117 | returns nothing exactly when no response has the id. Otherwise it returns the response at the last index carrying the id |
| `Impact.ImpactScore` | whatif.py:109-143 | an id no response carries has impact 0 |
| `Impact.FlipToCorrect` | whatif.py:111-119 | the corrected copy. `FlipImproves` states that it keeps every id, subject, section and complexity, turns every answer carrying the id correct and leaves the correctness of the others unchanged |
| `Impact.Lower` | whatif.py:134 | lower-casing keeps the length and leaves no upper-case ASCII letter |
| `Impact.ComplexityBonus` | whatif.py:134-141 | the bonus is 0, 2 or 5. `ComplexityBonusExamples` gives each case |
| `WhatIf.Analyzer.CalculateImpactScore` | whatif.py:109-143 | the copy-and-flip loop, the rescoring and the bonus chain give exactly `ImpactScore` |
| `Impact.FlipImproves` | whatif.py:113-119 | the corrected copy has the same length and keeps every response's id, subject, section and complexity. A response is correct in it exactly when it was correct before or carries the id, so no correct answer turns incorrect |
| `Impact.FlipNeverLowersTier` | whatif.py:122-131 | correcting a question never moves a subject from hard to easy |
| `Impact.Module2FlipKeepsTiers` | whatif.py:128-131 | correcting a Module 2 question changes no tier, so it never earns the 120 bonus |
| `Impact.ImpactOfUniqueQuestion` | whatif.py:122-143 | for a unique id against its own baseline, the impact is the change in the target subject's own scaled score (the other subject's is unchanged). It adds 120 exactly when the target is Static and its subject goes from easy to hard, plus the complexity bonus |
| `Impact.ComplexityOnlyShiftsImpact` | whatif.py:134-143 | changing only the target's complexity shifts the impact by exactly the difference in complexity bonus |
| `Impact.ComplexityBonusExamples` | whatif.py:134-141 | the complexity match ignores case: Easy gives 5, MEDIUM or absent gives 2, Hard or an unknown tag gives 0 |
| `Impact.BoundaryCrossingScenario` | whatif.py:122-143 | correcting a wrong easy Static Math answer moves Math from easy to hard and gives 50 + 120 + 5 = 175 |
| `Ranking.Incorrect` | whatif.py:175 | keeps only incorrect responses, all drawn from the input: as many as there are responses minus correct ones |
| `Ranking.IncorrectMembers` | whatif.py:175 | the kept responses are exactly the incorrect responses of the input |
| `Ranking.IncorrectAppend` | whatif.py:175 | the selection distributes over concatenation, so the incorrect responses keep their order |
| `Ranking.ImpactEntries` | whatif.py:177-196 | one entry per question, in order, each carrying that question's impact. The entry records module 1 for a Static question, and its tag is the raw complexity or "unknown" |
| `Ranking.AllEntries` | whatif.py:174-196 | one entry for every incorrect response |
| `Ranking.SortByImpact` | whatif.py:197 | the stable sort by impact, highest first, keeping the length. `SortIsSorted`, `SortPermutes` and `SortIsStable` state its promise |
| `Ranking.SortIsSorted` | whatif.py:197 | the sorted entries are in non-increasing order of impact |
| `Ranking.SortPermutes` | whatif.py:197 | the sort is a permutation of the entries |
| `Ranking.SortIsStable` | whatif.py:197 | for each impact value, the entries with that impact appear in their original order |
| `Ranking.OfSubject` | whatif.py:200 | keeps only entries of the subject, never more than given |
| `Ranking.OfSubjectMembers` | whatif.py:200 | the kept entries are exactly the given entries of the subject |
| `Ranking.SortCommutesWithSubject` | whatif.py:197-200 | taking a subject's entries from the sorted list gives the sorted list of that subject's entries |
| `Ranking.SlicePrefix` | whatif.py:201 | Python's `s[:n]` is always a prefix of `s`. For n ≥ 0 it has length min(n, len). For negative n it drops the last −n entries, or everything |
| `Ranking.SubjectSelection` | whatif.py:198-201 | the subject's entries of the sorted list, cut to `topN`. `SelectionIsTopN` states what it holds |
| `Ranking.HighImpactQuestions` | whatif.py:173-202 | the selections of both subjects from the analysed responses. `IdentifyHighImpactQuestions` computes it |
| `Ranking.SelectionIsTopN` | whatif.py:198-202 | a subject's selection is a prefix of that subject's own entries in stable impact order. It holds only that subject's entries, is sorted, and has min(topN, count) entries for topN ≥ 0. No left-out entry has a higher impact than a selected one |
| `WhatIf.Analyzer.IdentifyHighImpactQuestions` | whatif.py:173-202 | the loop over incorrect answers, the sort and the per-subject slices give exactly `HighImpactQuestions` |
| `Ranking.SumImpacts` | whatif.py:215 | the total potential gain of a selection. `SumAtMostLengthTimesFirst` bounds it and `SummaryOfSelection` ties the average to it |
| `Ranking.RecommendationFor` | whatif.py:217-221 | a subject's recommendation entry: its selection, total gain and Module 1 count. `BuildReportFields` states its fields in the report |
| `Ranking.Module1Entries` | whatif.py:216 | keeps at most all the entries |
| `Ranking.Module1EntriesMembers` | whatif.py:216 | the kept entries are exactly the given entries of module 1 |
| `Ranking.SumAtMostLengthTimesFirst` | whatif.py:215 | in a selection sorted by impact, the total potential gain is at most its size times its first impact |
| `Ranking.SummaryOfSelection` | whatif.py:222-228 | for a non-empty sorted selection, the highest single impact is the first entry and no entry exceeds it, and the total is at most size × highest. The average times the size is the total, and the Module 1 focus flag holds exactly when Module 1 entries are a strict majority |
| `Ranking.SummaryFor` | whatif.py:221-228 | the summary of a non-empty selection. `SummaryOfSelection` states its fields |
| `Ranking.BuildReport` | whatif.py:207-228 | the report from the baseline and both selections. `BuildReportFields` states its fields |
| `Ranking.Recommendations` | whatif.py:204-229 | the report for the analysed responses. `RecommendationsAggregate` states its fields |
| `Ranking.BuildReportFields` | whatif.py:207-228 | the report keeps the baseline. The recommendations have exactly the two subjects as keys, each summing and counting its own selection, and a subject has a summary exactly when its selection is non-empty |
| `Ranking.RecommendationsAggregate` | whatif.py:204-229 | the same facts for the selections of the analysed responses, whose summaries are taken over sorted selections |
| `WhatIf.Analyzer.GenerateRecommendations` | whatif.py:204-229 | the loop over the subjects fills the report exactly as `Recommendations` |

## Left out

- Floating point.
  - The grid `np.arange(0.3, 0.81, 0.01)` holds binary floats, not exact hundredths: numpy fills it as 0.3 + i × 0.010000000000000009, so the 0.40 candidate is 0.4000000000000001. Where a record's ratio equals a grid value exactly, the float comparison can differ from the exact one used here.
  - The same holds for the branching rule: a Module 1 performance exactly equal to a fitted grid threshold (3/5 against the 0.60 candidate, 0.6000000000000003) is routed easy by the float comparison but hard here. That tier also decides the 120 bonus of an impact.
  - Accuracies, Module 1 performance, shares and the average impact are exact rationals, not floats.
- WhatIf.ThreeRecordScenario: states the fit (0.41, 1) in exact hundredths. With the float grid, 4/10 falls below the 0.40 candidate, so that candidate already predicts all three records and the source fits it instead. A performance of 0.55 is routed to the hard tier either way.
- The `datetime.now()` timestamp stored with each validation entry is not modelled.
- Hard-coded data is not modelled: the analyzer's `collect_threshold_data` and the tuner's `get_training_data` lists. Historical records are a parameter.
- Input and output are not modelled. This covers file loading (`load_data`), `validate_current_student`, `main`, the `__main__` report block, the prints in `tune_thresholds`, and app.py.
- Input shapes are normalised:
  - a subject given as a `{'name': ...}` dictionary becomes its plain name;
  - `section == 'Static'` becomes `isStatic`;
  - the misspelled `compleixty` key becomes `complexity`.
- `module2_difficulty_received` is normalised to easy or hard. A record with any other label never matches a prediction in the source, and the model cannot express such a label.
- Lower-casing folds only ASCII letters. For the three words compared against, this decides the same matches as full Unicode lower-casing.
- Runtime errors of the source are excluded by preconditions instead of modelled. Each of these raises in the source:
  - a response whose subject is not Math or Reading and Writing, or a tier map lacking a subject (KeyError);
  - a record with `module1_total` 0 (ZeroDivisionError);
  - an empty score map looked up with a non-negative raw score (IndexError);
  - a tuning run on a subject without records (ZeroDivisionError).
- Records with a non-positive `module1_total` are excluded, while the source raises only for 0. For a negative total the source divides, and the cleared test `100 · correct ≥ t · total` used here would give the opposite answer.
- The per-subject Module 2 lists that `calculate_current_score` builds are never read, so they are not modelled.
- The `top_n` default of 5 is not modelled: it is an explicit parameter.
- Dictionary insertion order of the result maps is not modelled: Dafny maps are unordered.
- `response.copy()` needs no modelling: responses are values, so the caller's list is unchanged by construction.
- `list.sort` is a library call, so it is modelled as a function, an insertion sort proved sorted, permuting and stable. It is not an in-place loop.
