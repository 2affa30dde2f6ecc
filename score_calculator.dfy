/**
 * The score calculator, as specification: per subject, the Module 1 / Module 2
 * split, the raw score, the Module 2 tier chosen by the subject's threshold and
 * the scaled score; the total over both subjects. Also how these respond when
 * answers only become correct, which the what-if analysis relies on.
 */
module ScoreCalculator {
  import opened Domain
  import opened ScoringTable
  import Ratios

  /** The subject's Module 1 (Static) responses, in order. */
  function Module1Of(rs: seq<Response>, subject: string): seq<Response> {
    if |rs| == 0 then []
    else
      var last := rs[|rs| - 1];
      Module1Of(rs[..|rs| - 1], subject) + (if last.subject == subject && last.isStatic then [last] else [])
  }

  /** The subject's Module 2 responses (every section but Static), in order. */
  function Module2Of(rs: seq<Response>, subject: string): seq<Response> {
    if |rs| == 0 then []
    else
      var last := rs[|rs| - 1];
      Module2Of(rs[..|rs| - 1], subject) + (if last.subject == subject && !last.isStatic then [last] else [])
  }

  function CorrectCount(rs: seq<Response>): (n: nat)
    ensures n <= |rs|
  {
    if |rs| == 0 then 0
    else CorrectCount(rs[..|rs| - 1]) + (if rs[|rs| - 1].correct then 1 else 0)
  }

  /** The subject's raw score: its correct responses, counted as they come. */
  function RawScore(rs: seq<Response>, subject: string): (n: nat)
    ensures n <= |rs|
  {
    if |rs| == 0 then 0
    else
      var last := rs[|rs| - 1];
      RawScore(rs[..|rs| - 1], subject) + (if last.subject == subject && last.correct then 1 else 0)
  }

  /** Module 1 accuracy: correct over total, and 0 when there is no Module 1 response. */
  function Module1Performance(module1: seq<Response>): (p: real)
    ensures 0.0 <= p <= 1.0
    ensures |module1| == 0 ==> p == 0.0
  {
    if |module1| > 0 then
      Ratios.SharesOfWhole(CorrectCount(module1), |module1|);
      CorrectCount(module1) as real / |module1| as real
    else 0.0
  }

  /** The branching rule: hard iff the Module 1 performance reaches the threshold (in hundredths). */
  function DetermineModule2Difficulty(threshold: int, performance: real): Difficulty {
    if performance >= threshold as real / 100.0 then Hard else Easy
  }

  predicate ThresholdsCover(thresholds: map<string, int>) {
    MathSubject in thresholds && ReadingWritingSubject in thresholds
  }

  function SubjectDifficulty(thresholds: map<string, int>, rs: seq<Response>, subject: string): Difficulty
    requires subject in thresholds
  {
    DetermineModule2Difficulty(thresholds[subject], Module1Performance(Module1Of(rs, subject)))
  }

  function SubjectScaledScore(table: seq<SubjectScoring>, thresholds: map<string, int>,
                              rs: seq<Response>, subject: string): int
    requires subject in thresholds && ScoresDefined(table, subject)
  {
    ScaledScore(table, subject, RawScore(rs, subject), SubjectDifficulty(thresholds, rs, subject))
  }

  /** Total scaled score and the Module 2 tier of every subject. */
  datatype ScoreResult = ScoreResult(total: int, difficulties: map<string, Difficulty>)

  /** The result accumulated over the listed subjects, in order. */
  function ScoreOver(table: seq<SubjectScoring>, thresholds: map<string, int>,
                     rs: seq<Response>, subjects: seq<string>): ScoreResult
    requires forall k :: 0 <= k < |subjects| ==> IsSubject(subjects[k])
    requires ThresholdsCover(thresholds) && TableCovers(table)
  {
    if |subjects| == 0 then ScoreResult(0, map[])
    else
      var s := subjects[|subjects| - 1];
      assert IsSubject(s);
      var prev := ScoreOver(table, thresholds, rs, subjects[..|subjects| - 1]);
      ScoreResult(prev.total + SubjectScaledScore(table, thresholds, rs, s),
                  prev.difficulties[s := SubjectDifficulty(thresholds, rs, s)])
  }

  /**
   * The score of a response set: the sum of the two subjects' scaled scores,
   * and a tier map with exactly the two subjects as keys.
   */
  function CurrentScore(table: seq<SubjectScoring>, thresholds: map<string, int>, rs: seq<Response>): (r: ScoreResult)
    requires ThresholdsCover(thresholds) && TableCovers(table)
    ensures r.total == SubjectScaledScore(table, thresholds, rs, MathSubject)
                       + SubjectScaledScore(table, thresholds, rs, ReadingWritingSubject)
    ensures r.difficulties.Keys == {MathSubject, ReadingWritingSubject}
    ensures r.difficulties[MathSubject] == SubjectDifficulty(thresholds, rs, MathSubject)
    ensures r.difficulties[ReadingWritingSubject] == SubjectDifficulty(thresholds, rs, ReadingWritingSubject)
  {
    var first := ScoreOver(table, thresholds, rs, [MathSubject]);
    assert [MathSubject][..0] == [];
    assert ScoreOver(table, thresholds, rs, []) == ScoreResult(0, map[]);
    assert first == ScoreResult(SubjectScaledScore(table, thresholds, rs, MathSubject),
                                map[MathSubject := SubjectDifficulty(thresholds, rs, MathSubject)]);
    assert Subjects[..1] == [MathSubject];
    ScoreOver(table, thresholds, rs, Subjects)
  }

  /**
   * The branching rule on counts: with Module 1 answers, the tier is hard
   * exactly when 100 * correct >= threshold * answered.
   */
  lemma {:induction false} DifficultyIsCountTest(threshold: int, module1: seq<Response>)
    requires |module1| > 0
    ensures DetermineModule2Difficulty(threshold, Module1Performance(module1)) == Hard <==>
            100 * CorrectCount(module1) >= threshold * |module1|
  {
    Ratios.ThresholdRatioTest(CorrectCount(module1), |module1|, threshold);
  }

  /** The raw score counts every correct answer of the subject, in Module 1 and in Module 2. */
  lemma {:induction false} RawScoreCountsBothModules(rs: seq<Response>, subject: string)
    ensures RawScore(rs, subject) == CorrectCount(Module1Of(rs, subject)) + CorrectCount(Module2Of(rs, subject))
  {
    if |rs| > 0 {
      var front, last := rs[..|rs| - 1], rs[|rs| - 1];
      RawScoreCountsBothModules(front, subject);
      CorrectCountAppend(Module1Of(front, subject), if last.subject == subject && last.isStatic then [last] else []);
      CorrectCountAppend(Module2Of(front, subject), if last.subject == subject && !last.isStatic then [last] else []);
    }
  }

  lemma {:induction false} CorrectCountAppend(a: seq<Response>, b: seq<Response>)
    ensures CorrectCount(a + b) == CorrectCount(a) + CorrectCount(b)
  {
    if |b| > 0 {
      assert (a + b)[..|a + b| - 1] == a + b[..|b| - 1];
      CorrectCountAppend(a, b[..|b| - 1]);
    } else {
      assert a + b == a;
    }
  }

  /** A subject without Module 1 responses is routed to the easy tier by any positive threshold. */
  lemma {:induction false} NoModule1MeansEasy(thresholds: map<string, int>, rs: seq<Response>, subject: string)
    requires subject in thresholds && thresholds[subject] > 0
    requires forall i :: 0 <= i < |rs| && rs[i].subject == subject ==> !rs[i].isStatic
    ensures Module1Performance(Module1Of(rs, subject)) == 0.0
    ensures SubjectDifficulty(thresholds, rs, subject) == Easy
  {
    NoModule1Responses(rs, subject);
  }

  lemma {:induction false} NoModule1Responses(rs: seq<Response>, subject: string)
    requires forall i :: 0 <= i < |rs| && rs[i].subject == subject ==> !rs[i].isStatic
    ensures Module1Of(rs, subject) == []
  {
    if |rs| > 0 {
      NoModule1Responses(rs[..|rs| - 1], subject);
    }
  }

  /**
   * `b` is `a` with some answers turned correct: the same questions in the
   * same subjects and sections, and nothing correct in `a` is incorrect in `b`.
   */
  predicate Improves(a: seq<Response>, b: seq<Response>) {
    |a| == |b| &&
    forall i :: 0 <= i < |a| ==>
      a[i].subject == b[i].subject && a[i].isStatic == b[i].isStatic && (a[i].correct ==> b[i].correct)
  }

  /** Every response whose correctness changes belongs to a subject other than `subject`. */
  predicate ChangesOutside(a: seq<Response>, b: seq<Response>, subject: string)
    requires |a| == |b|
  {
    forall i :: 0 <= i < |a| && a[i].correct != b[i].correct ==> a[i].subject != subject
  }

  /** Every response that changes correctness is a Module 2 response. */
  predicate ChangesOnlyModule2(a: seq<Response>, b: seq<Response>)
    requires |a| == |b|
  {
    forall i :: 0 <= i < |a| && a[i].correct != b[i].correct ==> !a[i].isStatic
  }

  /**
   * Turning answers correct keeps every Module 1 size, and never lowers a
   * Module 1 correct count or a raw score; it keeps both when no changed
   * answer is in the subject, and the Module 1 count when no changed answer
   * is a Module 1 answer.
   */
  lemma {:induction false} ImprovementCounts(a: seq<Response>, b: seq<Response>, subject: string)
    requires Improves(a, b)
    ensures |Module1Of(b, subject)| == |Module1Of(a, subject)|
    ensures CorrectCount(Module1Of(a, subject)) <= CorrectCount(Module1Of(b, subject))
    ensures RawScore(a, subject) <= RawScore(b, subject)
    ensures ChangesOutside(a, b, subject) ==>
              RawScore(a, subject) == RawScore(b, subject) &&
              CorrectCount(Module1Of(a, subject)) == CorrectCount(Module1Of(b, subject))
    ensures ChangesOnlyModule2(a, b) ==>
              CorrectCount(Module1Of(a, subject)) == CorrectCount(Module1Of(b, subject))
  {
    if |a| > 0 {
      var n := |a| - 1;
      var a0, b0 := a[..n], b[..n];
      assert Improves(a0, b0);
      assert ChangesOutside(a, b, subject) ==> ChangesOutside(a0, b0, subject);
      assert ChangesOnlyModule2(a, b) ==> ChangesOnlyModule2(a0, b0);
      ImprovementCounts(a0, b0, subject);
      var x := if a[n].subject == subject && a[n].isStatic then [a[n]] else [];
      var y := if b[n].subject == subject && b[n].isStatic then [b[n]] else [];
      CorrectCountAppend(Module1Of(a0, subject), x);
      CorrectCountAppend(Module1Of(b0, subject), y);
      assert CorrectCount([a[n]]) == if a[n].correct then 1 else 0;
      assert CorrectCount([b[n]]) == if b[n].correct then 1 else 0;
    }
  }

  /** With the same Module 1 size, more correct answers never mean a lower performance. */
  lemma {:induction false} PerformanceMonotone(m1: seq<Response>, m2: seq<Response>)
    requires |m1| == |m2| && CorrectCount(m1) <= CorrectCount(m2)
    ensures Module1Performance(m1) <= Module1Performance(m2)
  {
    if |m1| > 0 {
      DivisionMonotone(CorrectCount(m1) as real, CorrectCount(m2) as real, |m1| as real);
    }
  }

  lemma DivisionMonotone(x: real, y: real, n: real)
    requires x <= y && n > 0.0
    ensures x / n <= y / n
  {
    var qx, qy := x / n, y / n;
    assert qx * n == x && qy * n == y;
  }

  /** Turning answers correct can move a subject from the easy to the hard tier, never back. */
  lemma {:induction false} ImprovementNeverLowersTier(thresholds: map<string, int>, a: seq<Response>, b: seq<Response>, subject: string)
    requires subject in thresholds && Improves(a, b)
    requires SubjectDifficulty(thresholds, a, subject) == Hard
    ensures SubjectDifficulty(thresholds, b, subject) == Hard
  {
    ImprovementCounts(a, b, subject);
    PerformanceMonotone(Module1Of(a, subject), Module1Of(b, subject));
  }

  /** A subject none of whose answers changed keeps its tier and its scaled score. */
  lemma {:induction false} UntouchedSubjectKeepsScore(table: seq<SubjectScoring>, thresholds: map<string, int>,
                                   a: seq<Response>, b: seq<Response>, subject: string)
    requires subject in thresholds && ScoresDefined(table, subject)
    requires Improves(a, b) && ChangesOutside(a, b, subject)
    ensures SubjectDifficulty(thresholds, b, subject) == SubjectDifficulty(thresholds, a, subject)
    ensures SubjectScaledScore(table, thresholds, b, subject) == SubjectScaledScore(table, thresholds, a, subject)
  {
    ImprovementCounts(a, b, subject);
  }

  /** Changing only Module 2 answers keeps the tier of every subject. */
  lemma {:induction false} Module2ChangesKeepTiers(table: seq<SubjectScoring>, thresholds: map<string, int>,
                                a: seq<Response>, b: seq<Response>)
    requires ThresholdsCover(thresholds) && TableCovers(table)
    requires Improves(a, b) && ChangesOnlyModule2(a, b)
    ensures CurrentScore(table, thresholds, b).difficulties == CurrentScore(table, thresholds, a).difficulties
  {
    ImprovementCounts(a, b, MathSubject);
    ImprovementCounts(a, b, ReadingWritingSubject);
  }

  /** Two response sets with the same subjects, sections and correctness score the same. */
  lemma {:induction false} SameOutcomesSameScore(table: seq<SubjectScoring>, thresholds: map<string, int>,
                              a: seq<Response>, b: seq<Response>)
    requires ThresholdsCover(thresholds) && TableCovers(table)
    requires Improves(a, b) && Improves(b, a)
    ensures CurrentScore(table, thresholds, b) == CurrentScore(table, thresholds, a)
  {
    ImprovementCounts(a, b, MathSubject);
    ImprovementCounts(b, a, MathSubject);
    ImprovementCounts(a, b, ReadingWritingSubject);
    ImprovementCounts(b, a, ReadingWritingSubject);
  }
}
