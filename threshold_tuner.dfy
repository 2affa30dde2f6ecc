/**
 * The standalone threshold tuner: prediction accuracy of one threshold, the
 * grid search for the best threshold, and the per-subject tuning results
 * with the share of records each tier would be assigned.
 * The training records are a parameter (the tuner's own sample list is data, not logic).
 */
module ThresholdTuner {
  import opened Domain
  import opened Fitting
  import Ratios

  /** Per-subject output of the tuning run; the shares are exact fractions. */
  datatype TuningResult = TuningResult(
    optimalThreshold: int,
    accuracy: real,
    hardPercentage: real,
    easyPercentage: real,
    dataPoints: nat)

  /** How many of `rows` reach the threshold `t`, i.e. would be assigned the hard tier. */
  function HardCount(rows: seq<HistoricalRecord>, t: int): (n: nat)
    ensures n <= |rows|
  {
    if |rows| == 0 then 0
    else
      var last := rows[|rows| - 1];
      HardCount(rows[..|rows| - 1], t) + (if PredictsHard(last, t) then 1 else 0)
  }

  /**
   * The number of `rows` whose Module 1 ratio `correct / total` reaches
   * `t / 100`, counted on the ratios themselves.
   */
  function RatioHardCount(rows: seq<HistoricalRecord>, t: int): nat
    requires forall i :: 0 <= i < |rows| ==> rows[i].module1Total > 0
  {
    if |rows| == 0 then 0
    else
      var last := rows[|rows| - 1];
      RatioHardCount(rows[..|rows| - 1], t)
        + (if last.module1Correct as real / last.module1Total as real >= t as real / 100.0 then 1 else 0)
  }

  /** The hard count is the number of rows whose ratio reaches the threshold. */
  lemma {:induction false} HardCountIsRatioCount(rows: seq<HistoricalRecord>, t: int)
    requires forall i :: 0 <= i < |rows| ==> rows[i].module1Total > 0
    ensures HardCount(rows, t) == RatioHardCount(rows, t)
  {
    if |rows| > 0 {
      HardCountIsRatioCount(rows[..|rows| - 1], t);
      PredictsHardIsRatioTest(rows[|rows| - 1], t);
    }
  }

  /** The subject has records, and each can be divided by its Module 1 total. */
  predicate TuningDataUsable(data: seq<HistoricalRecord>, subject: string) {
    RowsDividable(data, subject) && |SubjectRows(data, subject)| > 0
  }

  /**
   * The tuning result of one subject: the fitted pair, and the shares of the
   * subject's records at or above and below the fitted threshold.
   */
  function SubjectTuning(data: seq<HistoricalRecord>, subject: string): (r: TuningResult)
    requires TuningDataUsable(data, subject)
    ensures r.dataPoints == |SubjectRows(data, subject)| > 0
    ensures r.optimalThreshold == OptimalThreshold(data, subject).threshold
    ensures r.accuracy == OptimalThreshold(data, subject).accuracy
    ensures r.hardPercentage * r.dataPoints as real
            == HardCount(SubjectRows(data, subject), r.optimalThreshold) as real
    ensures 0.0 <= r.hardPercentage <= 1.0
    ensures r.hardPercentage + r.easyPercentage == 1.0
  {
    var fit := OptimalThreshold(data, subject);
    var rows := SubjectRows(data, subject);
    var hard := HardCount(rows, fit.threshold);
    Ratios.SharesOfWhole(hard, |rows|);
    TuningResult(fit.threshold, fit.accuracy, hard as real / |rows| as real,
                 (|rows| - hard) as real / |rows| as real, |rows|)
  }

  /** Accuracy of threshold `t` on the records of `subject` (0 when it has none). */
  method CalculatePredictionAccuracy(data: seq<HistoricalRecord>, threshold: int, subject: string)
    returns (accuracy: real)
    requires RowsDividable(data, subject)
    ensures accuracy == PredictionAccuracy(data, threshold, subject)
  {
    var subjectData := SubjectRows(data, subject);
    if |subjectData| == 0 {
      return 0.0;
    }
    var correctPredictions := 0;
    for i := 0 to |subjectData|
      invariant correctPredictions == MatchCount(subjectData[..i], threshold)
    {
      var row := subjectData[i];
      var pred := if 100 * row.module1Correct >= threshold * row.module1Total then Hard else Easy;
      if pred == row.received {
        correctPredictions := correctPredictions + 1;
      }
      assert subjectData[..i + 1][..i] == subjectData[..i];
    }
    assert subjectData[..|subjectData|] == subjectData;
    accuracy := correctPredictions as real / |subjectData| as real;
  }

  /** Grid search 0.30 .. 0.80 keeping the first strictly better accuracy, from (0.5, 0). */
  method FindOptimalThreshold(data: seq<HistoricalRecord>, subject: string)
    returns (bestThreshold: int, bestAccuracy: real)
    requires RowsDividable(data, subject)
    ensures Fit(bestThreshold, bestAccuracy) == OptimalThreshold(data, subject)
  {
    bestAccuracy := 0.0;
    bestThreshold := DefaultThreshold;
    var threshold := GridLow;
    while threshold <= GridHigh
      invariant GridLow <= threshold <= GridHigh + 1
      invariant Fit(bestThreshold, bestAccuracy) == ScanGrid(data, subject, threshold)
    {
      var accuracy := CalculatePredictionAccuracy(data, threshold, subject);
      if accuracy > bestAccuracy {
        bestAccuracy := accuracy;
        bestThreshold := threshold;
      }
      threshold := threshold + 1;
    }
  }

  /** The tuning run over both subjects. */
  method TuneThresholds(data: seq<HistoricalRecord>) returns (results: map<string, TuningResult>)
    requires TuningDataUsable(data, MathSubject) && TuningDataUsable(data, ReadingWritingSubject)
    ensures results == map[MathSubject := SubjectTuning(data, MathSubject),
                           ReadingWritingSubject := SubjectTuning(data, ReadingWritingSubject)]
  {
    results := map[];
    for k := 0 to |Subjects|
      invariant k == 0 ==> results == map[]
      invariant k >= 1 ==> MathSubject in results && results[MathSubject] == SubjectTuning(data, MathSubject)
      invariant k == 1 ==> results.Keys == {MathSubject}
      invariant k == 2 ==> results == map[MathSubject := SubjectTuning(data, MathSubject),
                                          ReadingWritingSubject := SubjectTuning(data, ReadingWritingSubject)]
    {
      var subject := Subjects[k];
      var optimalThreshold, accuracy := FindOptimalThreshold(data, subject);
      var subjectData := SubjectRows(data, subject);
      var hardAssignments := HardCount(subjectData, optimalThreshold);
      var easyAssignments := |subjectData| - hardAssignments;
      results := results[subject := TuningResult(
        optimalThreshold,
        accuracy,
        hardAssignments as real / |subjectData| as real,
        easyAssignments as real / |subjectData| as real,
        |subjectData|)];
    }
  }
}
