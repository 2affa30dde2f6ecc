/**
 * The threshold fitter, as specification: historical records, the prediction
 * a candidate threshold makes, its accuracy on one subject's records, and the
 * forward grid scan with strict improvement that both analyzer files run.
 *
 * Thresholds are integer hundredths: the candidate grid 0.30, 0.31, ..., 0.80
 * is 30..80 and the start value 0.5 is 50. Accuracies are exact reals.
 */
module Fitting {
  import opened Domain
  import Ratios

  /** One past student: Module 1 result and the Module 2 tier actually received. */
  datatype HistoricalRecord = HistoricalRecord(
    subject: string,
    module1Correct: int,
    module1Total: int,
    received: Difficulty)

  const GridLow: int := 30
  const GridHigh: int := 80
  const DefaultThreshold: int := 50

  predicate OnGrid(t: int) {
    GridLow <= t <= GridHigh
  }

  /** The records of `subject`, in their original order. */
  function SubjectRows(data: seq<HistoricalRecord>, subject: string): (rows: seq<HistoricalRecord>)
    ensures |rows| <= |data|
    ensures forall i :: 0 <= i < |rows| ==> rows[i].subject == subject
  {
    if |data| == 0 then []
    else
      var last := data[|data| - 1];
      SubjectRows(data[..|data| - 1], subject) + (if last.subject == subject then [last] else [])
  }

  /** The records kept are exactly the given records of the subject. */
  lemma {:induction false} SubjectRowsMembers(data: seq<HistoricalRecord>, subject: string)
    ensures forall x :: x in SubjectRows(data, subject) <==> x in data && x.subject == subject
  {
    if |data| > 0 {
      SubjectRowsMembers(data[..|data| - 1], subject);
      assert data == data[..|data| - 1] + [data[|data| - 1]];
    }
  }

  /** Every record of `subject` has a positive Module 1 total (the ratio divides by it). */
  predicate RowsDividable(data: seq<HistoricalRecord>, subject: string) {
    forall i :: 0 <= i < |data| && data[i].subject == subject ==> data[i].module1Total > 0
  }

  /** `module1Correct / module1Total >= t / 100`, cleared of denominators. */
  predicate PredictsHard(row: HistoricalRecord, t: int) {
    100 * row.module1Correct >= t * row.module1Total
  }

  function Prediction(row: HistoricalRecord, t: int): Difficulty {
    if PredictsHard(row, t) then Hard else Easy
  }

  /** How many of `rows` the threshold `t` predicts correctly. */
  function MatchCount(rows: seq<HistoricalRecord>, t: int): (n: nat)
    ensures n <= |rows|
  {
    if |rows| == 0 then 0
    else
      var last := rows[|rows| - 1];
      MatchCount(rows[..|rows| - 1], t) + (if Prediction(last, t) == last.received then 1 else 0)
  }

  /** Fraction of the subject's records whose tier `t` predicts; 0 when there are none. */
  function PredictionAccuracy(data: seq<HistoricalRecord>, t: int, subject: string): real {
    var rows := SubjectRows(data, subject);
    if |rows| == 0 then 0.0 else MatchCount(rows, t) as real / |rows| as real
  }

  /** The pair a fitter returns: the chosen threshold and its accuracy. */
  datatype Fit = Fit(threshold: int, accuracy: real)

  /**
   * The best pair after trying the candidates GridLow .. next - 1 in
   * increasing order, replacing the best only on a strictly greater accuracy.
   */
  function ScanGrid(data: seq<HistoricalRecord>, subject: string, next: int): Fit
    requires GridLow <= next <= GridHigh + 1
    decreases next - GridLow
  {
    if next == GridLow then Fit(DefaultThreshold, 0.0)
    else
      var best := ScanGrid(data, subject, next - 1);
      var accuracy := PredictionAccuracy(data, next - 1, subject);
      if accuracy > best.accuracy then Fit(next - 1, accuracy) else best
  }

  /** The fitted threshold and accuracy for one subject: the scan over the whole grid. */
  function OptimalThreshold(data: seq<HistoricalRecord>, subject: string): Fit {
    ScanGrid(data, subject, GridHigh + 1)
  }

  /** Accuracies lie between 0 and 1. */
  lemma {:induction false} AccuracyBounds(data: seq<HistoricalRecord>, t: int, subject: string)
    ensures 0.0 <= PredictionAccuracy(data, t, subject) <= 1.0
  {
    var rows := SubjectRows(data, subject);
    if |rows| > 0 {
      Ratios.SharesOfWhole(MatchCount(rows, t), |rows|);
    }
  }

  /** The invariant of the scan, after any prefix of the grid. */
  lemma {:induction false} ScanGridInvariant(data: seq<HistoricalRecord>, subject: string, next: int)
    requires GridLow <= next <= GridHigh + 1
    ensures var f := ScanGrid(data, subject, next);
      && f.accuracy >= 0.0
      && (forall t :: GridLow <= t < next ==> PredictionAccuracy(data, t, subject) <= f.accuracy)
      && (f.accuracy == 0.0 ==> f.threshold == DefaultThreshold)
      && (f.accuracy > 0.0 ==>
            && GridLow <= f.threshold < next
            && PredictionAccuracy(data, f.threshold, subject) == f.accuracy
            && forall t :: GridLow <= t < f.threshold ==> PredictionAccuracy(data, t, subject) < f.accuracy)
  {
    if next > GridLow {
      ScanGridInvariant(data, subject, next - 1);
      AccuracyBounds(data, next - 1, subject);
    }
  }

  /**
   * What the fitter returns: the lowest grid threshold attaining the maximum
   * accuracy over the grid, or the start value 0.5 with accuracy 0 exactly
   * when every candidate has accuracy 0 (ties at a positive maximum go to
   * the lowest threshold). In every case the returned accuracy
   * is the accuracy of the returned threshold.
   */
  lemma {:induction false} OptimalThresholdIsFirstMaximum(data: seq<HistoricalRecord>, subject: string)
    ensures var f := OptimalThreshold(data, subject);
      && OnGrid(f.threshold)
      && f.accuracy == PredictionAccuracy(data, f.threshold, subject)
      && (forall t :: OnGrid(t) ==> PredictionAccuracy(data, t, subject) <= f.accuracy)
      && (f.accuracy > 0.0 ==>
            forall t :: GridLow <= t < f.threshold ==> PredictionAccuracy(data, t, subject) < f.accuracy)
      && ((forall t :: OnGrid(t) ==> PredictionAccuracy(data, t, subject) == 0.0) <==> f == Fit(DefaultThreshold, 0.0))
  {
    var f := OptimalThreshold(data, subject);
    ScanGridInvariant(data, subject, GridHigh + 1);
    assert OnGrid(f.threshold);
    AccuracyBounds(data, DefaultThreshold, subject);
    assert f.accuracy == PredictionAccuracy(data, f.threshold, subject);
    if f.accuracy == 0.0 {
      forall t | OnGrid(t) ensures PredictionAccuracy(data, t, subject) == 0.0 {
        AccuracyBounds(data, t, subject);
      }
    }
  }

  /** A subject without historical records keeps the start value 0.5 with accuracy 0. */
  lemma {:induction false} NoRecordsKeepsDefault(data: seq<HistoricalRecord>, subject: string)
    requires forall i :: 0 <= i < |data| ==> data[i].subject != subject
    ensures OptimalThreshold(data, subject) == Fit(DefaultThreshold, 0.0)
  {
    NoRecordsNoRows(data, subject);
    OptimalThresholdIsFirstMaximum(data, subject);
  }

  lemma {:induction false} NoRecordsNoRows(data: seq<HistoricalRecord>, subject: string)
    requires forall i :: 0 <= i < |data| ==> data[i].subject != subject
    ensures SubjectRows(data, subject) == []
  {
    if |data| > 0 {
      NoRecordsNoRows(data[..|data| - 1], subject);
    }
  }

  /** Selecting a subject's records distributes over concatenation. */
  lemma {:induction false} SubjectRowsAppend(a: seq<HistoricalRecord>, b: seq<HistoricalRecord>, subject: string)
    ensures SubjectRows(a + b, subject) == SubjectRows(a, subject) + SubjectRows(b, subject)
  {
    if |b| > 0 {
      assert (a + b)[..|a + b| - 1] == a + b[..|b| - 1];
      SubjectRowsAppend(a, b[..|b| - 1], subject);
    } else {
      assert a + b == a;
    }
  }

  /**
   * Records of other subjects, wherever they are inserted, change neither a
   * subject's accuracies nor its fitted threshold.
   */
  lemma {:induction false} OtherSubjectsIrrelevant(a: seq<HistoricalRecord>, other: seq<HistoricalRecord>,
                                b: seq<HistoricalRecord>, subject: string)
    requires forall i :: 0 <= i < |other| ==> other[i].subject != subject
    ensures forall t :: PredictionAccuracy(a + other + b, t, subject) == PredictionAccuracy(a + b, t, subject)
    ensures OptimalThreshold(a + other + b, subject) == OptimalThreshold(a + b, subject)
  {
    SubjectRowsAppend(a + other, b, subject);
    SubjectRowsAppend(a, other, subject);
    SubjectRowsAppend(a, b, subject);
    NoRecordsNoRows(other, subject);
    assert SubjectRows(a + other + b, subject) == SubjectRows(a + b, subject);
    ScanGridSameAccuracies(a + other + b, a + b, subject, GridHigh + 1);
  }

  lemma {:induction false} ScanGridSameAccuracies(d1: seq<HistoricalRecord>, d2: seq<HistoricalRecord>,
                                                   subject: string, next: int)
    requires GridLow <= next <= GridHigh + 1
    requires SubjectRows(d1, subject) == SubjectRows(d2, subject)
    ensures ScanGrid(d1, subject, next) == ScanGrid(d2, subject, next)
  {
    if next > GridLow {
      ScanGridSameAccuracies(d1, d2, subject, next - 1);
    }
  }

  /** The integer test is the ratio comparison `correct / total >= t / 100`. */
  lemma PredictsHardIsRatioTest(row: HistoricalRecord, t: int)
    requires row.module1Total > 0
    ensures PredictsHard(row, t) <==>
            row.module1Correct as real / row.module1Total as real >= t as real / 100.0
  {
    Ratios.ThresholdRatioTest(row.module1Correct, row.module1Total, t);
  }
}
