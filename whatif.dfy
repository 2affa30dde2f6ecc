/**
 * The what-if analyzer object: a scoring table fixed at construction, the
 * per-subject adaptive thresholds it fits from historical records, and the
 * validation metrics it records while fitting. Each operation is the
 * step-by-step computation of the analyzer, proved equal to the
 * specification functions of the other modules.
 */
module WhatIf {
  import opened Domain
  import opened ScoringTable
  import opened Fitting
  import opened ThresholdTuner
  import opened ScoreCalculator
  import opened Impact
  import opened Ranking

  /** What the fitter records for a subject (the wall-clock timestamp is not modelled). */
  datatype ValidationEntry = ValidationEntry(threshold: int, accuracy: real, dataPoints: nat)

  /** The entry a fit of `subject` on `data` records. */
  function ValidationFor(data: seq<HistoricalRecord>, subject: string): ValidationEntry {
    var fit := OptimalThreshold(data, subject);
    ValidationEntry(fit.threshold, fit.accuracy, |SubjectRows(data, subject)|)
  }

  /** The thresholds after fitting both subjects; other keys are kept. */
  function FittedThresholds(old_thresholds: map<string, int>, data: seq<HistoricalRecord>): map<string, int> {
    old_thresholds[MathSubject := OptimalThreshold(data, MathSubject).threshold]
                  [ReadingWritingSubject := OptimalThreshold(data, ReadingWritingSubject).threshold]
  }

  class Analyzer {
    const scoringMaps: seq<SubjectScoring>
    var adaptiveThresholds: map<string, int>
    var thresholdValidation: map<string, ValidationEntry>

    /** Both subjects have a threshold. */
    predicate Valid()
      reads this
    {
      ThresholdsCover(adaptiveThresholds)
    }

    /** Starts with threshold 0.5 for both subjects and no validation metrics. */
    constructor (scoringMaps: seq<SubjectScoring>)
      ensures Valid()
      ensures this.scoringMaps == scoringMaps
      ensures adaptiveThresholds == map[MathSubject := DefaultThreshold, ReadingWritingSubject := DefaultThreshold]
      ensures thresholdValidation == map[]
    {
      this.scoringMaps := scoringMaps;
      adaptiveThresholds := map[MathSubject := DefaultThreshold, ReadingWritingSubject := DefaultThreshold];
      thresholdValidation := map[];
    }

    /** Linear search for the subject, then for the raw score, with the fallbacks of `ScaledScore`. */
    method GetScaledScore(subject: string, rawScore: int, difficulty: Difficulty) returns (score: int)
      requires rawScore < 0 || ScoresDefined(scoringMaps, subject)
      ensures score == ScaledScore(scoringMaps, subject, rawScore, difficulty)
    {
      var k := 0;
      while k < |scoringMaps| && scoringMaps[k].key != subject
        invariant k <= |scoringMaps|
        invariant forall j :: 0 <= j < k ==> scoringMaps[j].key != subject
      {
        k := k + 1;
      }
      if k == |scoringMaps| {
        return DefaultScore;
      }
      assert IsFirstKey(scoringMaps, subject, k);
      var scoreMap := scoringMaps[k].rows;
      for i := 0 to |scoreMap|
        invariant forall j :: 0 <= j < i ==> scoreMap[j].raw != rawScore
      {
        if scoreMap[i].raw == rawScore {
          assert IsFirstRaw(scoreMap, rawScore, i);
          return RowValue(scoreMap[i], difficulty);
        }
      }
      if rawScore < 0 {
        return DefaultScore;
      } else if rawScore >= |scoreMap| {
        return RowValue(scoreMap[|scoreMap| - 1], difficulty);
      }
      return DefaultScore;
    }

    /** One pass over the responses collecting each subject's Module 1 answers and correct count. */
    method CollectSubjectData(responses: seq<Response>)
      returns (module1: map<string, seq<Response>>, totalCorrect: map<string, nat>)
      requires KnownSubjects(responses)
      ensures module1.Keys == {MathSubject, ReadingWritingSubject} == totalCorrect.Keys
      ensures forall s :: s in module1 ==> module1[s] == Module1Of(responses, s)
      ensures forall s :: s in totalCorrect ==> totalCorrect[s] == RawScore(responses, s)
    {
      module1 := map[MathSubject := [], ReadingWritingSubject := []];
      totalCorrect := map[MathSubject := 0, ReadingWritingSubject := 0];
      for i := 0 to |responses|
        invariant module1.Keys == {MathSubject, ReadingWritingSubject}
        invariant totalCorrect.Keys == {MathSubject, ReadingWritingSubject}
        invariant module1[MathSubject] == Module1Of(responses[..i], MathSubject)
        invariant module1[ReadingWritingSubject] == Module1Of(responses[..i], ReadingWritingSubject)
        invariant totalCorrect[MathSubject] == RawScore(responses[..i], MathSubject)
        invariant totalCorrect[ReadingWritingSubject] == RawScore(responses[..i], ReadingWritingSubject)
      {
        var response := responses[i];
        var subject := response.subject;
        assert IsSubject(subject);
        if response.isStatic {
          module1 := module1[subject := module1[subject] + [response]];
        }
        if response.correct {
          totalCorrect := totalCorrect[subject := totalCorrect[subject] + 1];
        }
        CollectStep(responses, i, MathSubject);
        CollectStep(responses, i, ReadingWritingSubject);
      }
      assert responses[..|responses|] == responses;
    }

    /**
     * Collects the responses per subject, then in one pass over the subjects
     * chooses each tier and adds up the scaled scores.
     */
    method CalculateCurrentScore(responses: seq<Response>) returns (total: int, difficulties: map<string, Difficulty>)
      requires Valid() && TableCovers(scoringMaps) && KnownSubjects(responses)
      ensures ScoreResult(total, difficulties) == CurrentScore(scoringMaps, adaptiveThresholds, responses)
    {
      var module1, totalCorrect := CollectSubjectData(responses);
      total := 0;
      difficulties := map[];
      for k := 0 to |Subjects|
        invariant ScoreResult(total, difficulties) == ScoreOver(scoringMaps, adaptiveThresholds, responses, Subjects[..k])
      {
        var subject := Subjects[k];
        var subjectModule1 := module1[subject];
        var module1Correct := CorrectCount(subjectModule1);
        var module1Total := |subjectModule1|;
        var module1Performance := if module1Total > 0 then module1Correct as real / module1Total as real else 0.0;
        var module2Difficulty := DetermineModule2Difficulty(adaptiveThresholds[subject], module1Performance);
        assert module2Difficulty == SubjectDifficulty(adaptiveThresholds, responses, subject);
        difficulties := difficulties[subject := module2Difficulty];
        assert ScoresDefined(scoringMaps, subject);
        var scaledScore := GetScaledScore(subject, totalCorrect[subject], module2Difficulty);
        total := total + scaledScore;
        ScoreOverStep(scoringMaps, adaptiveThresholds, responses, k);
      }
      assert Subjects[..|Subjects|] == Subjects;
    }

    /**
     * Fits `subject` on the shared grid search and records its threshold,
     * accuracy and number of records; nothing else changes.
     */
    method FindOptimalThreshold(data: seq<HistoricalRecord>, subject: string) returns (bestThreshold: int)
      requires RowsDividable(data, subject)
      modifies this
      ensures bestThreshold == OptimalThreshold(data, subject).threshold
      ensures thresholdValidation == old(thresholdValidation)[subject := ValidationFor(data, subject)]
      ensures adaptiveThresholds == old(adaptiveThresholds)
    {
      var bestAccuracy;
      bestThreshold, bestAccuracy := ThresholdTuner.FindOptimalThreshold(data, subject);
      thresholdValidation := thresholdValidation[subject := ValidationEntry(
        bestThreshold, bestAccuracy, |SubjectRows(data, subject)|)];
    }

    /** Fits and stores the threshold of each subject in turn. */
    method SetDynamicThresholds(data: seq<HistoricalRecord>)
      requires RowsDividable(data, MathSubject) && RowsDividable(data, ReadingWritingSubject)
      modifies this
      ensures Valid()
      ensures adaptiveThresholds == FittedThresholds(old(adaptiveThresholds), data)
      ensures thresholdValidation == old(thresholdValidation)[MathSubject := ValidationFor(data, MathSubject)]
                                                             [ReadingWritingSubject := ValidationFor(data, ReadingWritingSubject)]
    {
      for k := 0 to |Subjects|
        invariant k == 0 ==> adaptiveThresholds == old(adaptiveThresholds) && thresholdValidation == old(thresholdValidation)
        invariant k == 1 ==>
          && adaptiveThresholds == old(adaptiveThresholds)[MathSubject := OptimalThreshold(data, MathSubject).threshold]
          && thresholdValidation == old(thresholdValidation)[MathSubject := ValidationFor(data, MathSubject)]
        invariant k == 2 ==>
          && adaptiveThresholds == FittedThresholds(old(adaptiveThresholds), data)
          && thresholdValidation == old(thresholdValidation)[MathSubject := ValidationFor(data, MathSubject)]
                                                             [ReadingWritingSubject := ValidationFor(data, ReadingWritingSubject)]
      {
        var subject := Subjects[k];
        var threshold := FindOptimalThreshold(data, subject);
        adaptiveThresholds := adaptiveThresholds[subject := threshold];
      }
    }

    /**
     * Copies the responses with question `questionToChange` turned correct,
     * remembering the last such response as the target, rescores the copy and
     * adds the branch and complexity bonuses.
     */
    method CalculateImpactScore(responses: seq<Response>, questionToChange: string,
                                currentTotalScore: int, currentDifficulties: map<string, Difficulty>)
      returns (impact: int)
      requires Valid() && TableCovers(scoringMaps) && KnownSubjects(responses)
      requires DifficultiesCover(currentDifficulties)
      ensures impact == ImpactScore(scoringMaps, adaptiveThresholds, responses, questionToChange,
                                    currentTotalScore, currentDifficulties)
    {
      var modified: seq<Response> := [];
      var target: Option<Response> := None;
      for i := 0 to |responses|
        invariant |modified| == i
        invariant forall j :: 0 <= j < i ==> modified[j] == FlipOne(responses[j], questionToChange)
        invariant target == LastWithId(responses[..i], questionToChange)
      {
        var response := responses[i];
        if response.questionId == questionToChange {
          // Only the target's subject, section and complexity are read afterwards.
          target := Some(response);
          modified := modified + [response.(correct := true)];
        } else {
          modified := modified + [response];
        }
        assert responses[..i + 1][..i] == responses[..i];
      }
      assert responses[..|responses|] == responses;
      assert modified == FlipToCorrect(responses, questionToChange);
      if target.None? {
        return 0;
      }
      var question := target.value;
      assert KnownSubjects(modified);
      var newTotal, newDifficulties := CalculateCurrentScore(modified);
      var directImpact := newTotal - currentTotalScore;
      var adaptivePenaltyChange := 0;
      assert IsSubject(question.subject);
      if currentDifficulties[question.subject] != newDifficulties[question.subject] && question.isStatic {
        adaptivePenaltyChange := BranchFlipBonus;
      }
      var complexity := Lower(question.complexity.GetOr("medium"));
      var complexityBonus := 0;
      if complexity == "easy" {
        complexityBonus := 5;
      } else if complexity == "medium" {
        complexityBonus := 2;
      } else if complexity == "hard" {
        complexityBonus := 0;
      }
      impact := directImpact + adaptivePenaltyChange + complexityBonus;
    }

    /**
     * Scores the baseline, computes an entry for each incorrect response,
     * sorts the entries by impact and keeps the first `topN` of each subject.
     */
    method IdentifyHighImpactQuestions(responses: seq<Response>, topN: int)
      returns (results: map<string, seq<ImpactEntry>>)
      requires Valid() && TableCovers(scoringMaps) && KnownSubjects(responses)
      ensures results == HighImpactQuestions(scoringMaps, adaptiveThresholds, responses, topN)
    {
      var currentScore, currentDifficulties := CalculateCurrentScore(responses);
      var incorrectQuestions := Incorrect(responses);
      var questionImpacts: seq<ImpactEntry> := [];
      for i := 0 to |incorrectQuestions|
        invariant questionImpacts == ImpactEntries(scoringMaps, adaptiveThresholds, responses,
                                                   currentScore, currentDifficulties, incorrectQuestions[..i])
      {
        var question := incorrectQuestions[i];
        var impact := CalculateImpactScore(responses, question.questionId, currentScore, currentDifficulties);
        questionImpacts := questionImpacts + [EntryFor(question, impact)];
        EntriesStep(scoringMaps, adaptiveThresholds, responses, currentScore, currentDifficulties, incorrectQuestions, i);
      }
      assert incorrectQuestions[..|incorrectQuestions|] == incorrectQuestions;
      assert questionImpacts == AllEntries(scoringMaps, adaptiveThresholds, responses);
      var sorted := SortByImpact(questionImpacts);
      results := map[];
      for k := 0 to |Subjects|
        invariant k == 0 ==> results == map[]
        invariant k == 1 ==> results == map[MathSubject := SlicePrefix(OfSubject(sorted, MathSubject), topN)]
        invariant k == 2 ==> results == map[MathSubject := SlicePrefix(OfSubject(sorted, MathSubject), topN),
                                            ReadingWritingSubject := SlicePrefix(OfSubject(sorted, ReadingWritingSubject), topN)]
      {
        var subject := Subjects[k];
        results := results[subject := SlicePrefix(OfSubject(sorted, subject), topN)];
      }
    }

    /**
     * The report: the baseline, and for each subject its selection with the
     * summed impact, the Module 1 count and, for a non-empty selection, the summary.
     */
    method GenerateRecommendations(responses: seq<Response>, topN: int) returns (report: Report)
      requires Valid() && TableCovers(scoringMaps) && KnownSubjects(responses)
      ensures report == Recommendations(scoringMaps, adaptiveThresholds, responses, topN)
    {
      var currentScore, currentDifficulties := CalculateCurrentScore(responses);
      var highImpactQuestions := IdentifyHighImpactQuestions(responses, topN);
      var math, rw := highImpactQuestions[MathSubject], highImpactQuestions[ReadingWritingSubject];
      var recommendations: map<string, SubjectRecommendation> := map[];
      var summary: map<string, SubjectSummary> := map[];
      for k := 0 to |Subjects|
        invariant k == 0 ==> recommendations == map[] && summary == map[]
        invariant k == 1 ==> recommendations == map[MathSubject := RecommendationFor(math)]
        invariant k == 1 ==> summary == if |math| > 0 then map[MathSubject := SummaryFor(math)] else map[]
        invariant k == 2 ==> BuildReport(ScoreResult(currentScore, currentDifficulties), math, rw) ==
                             Report(currentScore, currentDifficulties, recommendations, summary)
      {
        var subject := Subjects[k];
        var subjectQuestions := highImpactQuestions[subject];
        var totalPotentialGain := SumImpacts(subjectQuestions);
        var module1Questions := Module1Entries(subjectQuestions);
        recommendations := recommendations[subject := SubjectRecommendation(
          subjectQuestions, totalPotentialGain, |module1Questions|)];
        if |subjectQuestions| > 0 {
          var avgImpact := totalPotentialGain as real / |subjectQuestions| as real;
          summary := summary[subject := SubjectSummary(
            avgImpact, subjectQuestions[0].impactScore, |module1Questions| > |subjectQuestions| / 2)];
        }
      }
      report := Report(currentScore, currentDifficulties, recommendations, summary);
    }
  }

  /** Extending the scanned prefix by one response extends the subject's collections accordingly. */
  lemma {:induction false} CollectStep(rs: seq<Response>, i: nat, subject: string)
    requires i < |rs|
    ensures Module1Of(rs[..i + 1], subject) ==
            Module1Of(rs[..i], subject) + (if rs[i].subject == subject && rs[i].isStatic then [rs[i]] else [])
    ensures RawScore(rs[..i + 1], subject) ==
            RawScore(rs[..i], subject) + (if rs[i].subject == subject && rs[i].correct then 1 else 0)
  {
    assert rs[..i + 1][..i] == rs[..i];
  }

  /** Extending the processed questions by one appends that question's entry. */
  lemma {:induction false} EntriesStep(table: seq<SubjectScoring>, thresholds: map<string, int>, rs: seq<Response>,
                    total: int, difficulties: map<string, Difficulty>, qs: seq<Response>, i: nat)
    requires ThresholdsCover(thresholds) && TableCovers(table) && KnownSubjects(rs)
    requires DifficultiesCover(difficulties) && i < |qs|
    ensures ImpactEntries(table, thresholds, rs, total, difficulties, qs[..i + 1]) ==
            ImpactEntries(table, thresholds, rs, total, difficulties, qs[..i]) +
            [EntryFor(qs[i], ImpactScore(table, thresholds, rs, qs[i].questionId, total, difficulties))]
  {
    assert qs[..i + 1][..i] == qs[..i];
  }

  /** Extending the scored subjects by one adds its score and records its tier. */
  lemma {:induction false} ScoreOverStep(table: seq<SubjectScoring>, thresholds: map<string, int>, rs: seq<Response>, k: nat)
    requires ThresholdsCover(thresholds) && TableCovers(table) && k < |Subjects|
    ensures var prev := ScoreOver(table, thresholds, rs, Subjects[..k]);
            ScoreOver(table, thresholds, rs, Subjects[..k + 1]) ==
            ScoreResult(prev.total + SubjectScaledScore(table, thresholds, rs, Subjects[k]),
                        prev.difficulties[Subjects[k] := SubjectDifficulty(thresholds, rs, Subjects[k])])
  {
    assert Subjects[..k + 1][..k] == Subjects[..k];
  }

  /**
   * A new analyzer uses 0.5 for both subjects; after fitting, each subject's
   * threshold is the lowest grid value of maximum accuracy, or stays 0.5 when
   * no grid value has positive accuracy (in particular, for a subject without
   * records).
   */
  lemma {:induction false} FittedThresholdsAreFirstMaxima(old_thresholds: map<string, int>, data: seq<HistoricalRecord>, subject: string)
    requires IsSubject(subject)
    ensures var t := FittedThresholds(old_thresholds, data)[subject];
            && (t == DefaultThreshold || OnGrid(t))
            && (forall u :: OnGrid(u) ==> PredictionAccuracy(data, u, subject) <= PredictionAccuracy(data, t, subject))
            && ((forall u :: OnGrid(u) ==> PredictionAccuracy(data, u, subject) == 0.0) ==> t == DefaultThreshold)
            && (PredictionAccuracy(data, t, subject) > 0.0 ==>
                  forall u :: GridLow <= u < t ==> PredictionAccuracy(data, u, subject) < PredictionAccuracy(data, t, subject))
  {
    OptimalThresholdIsFirstMaximum(data, subject);
  }

  /**
   * Three records (0.40 routed easy, 0.60 and 0.70 routed hard) fit the
   * threshold 0.41 with accuracy 1 in exact hundredths, so a later Module 1
   * performance of 0.55 is routed to the hard tier.
   */
  lemma ThreeRecordScenario()
    ensures var data := [HistoricalRecord(MathSubject, 4, 10, Easy), HistoricalRecord(MathSubject, 6, 10, Hard),
                         HistoricalRecord(MathSubject, 7, 10, Hard)];
            && OptimalThreshold(data, MathSubject) == Fit(41, 1.0)
            && DetermineModule2Difficulty(41, 0.55) == Hard
  {
    var data := [HistoricalRecord(MathSubject, 4, 10, Easy), HistoricalRecord(MathSubject, 6, 10, Hard),
                 HistoricalRecord(MathSubject, 7, 10, Hard)];
    ScenarioRows(data);
    ScenarioAccuracies(data);
    OptimalThresholdIsFirstMaximum(data, MathSubject);
    var f := OptimalThreshold(data, MathSubject);
    AccuracyBounds(data, f.threshold, MathSubject);
    assert f.accuracy == 1.0;
    assert f.threshold == 41;
  }

  lemma {:induction false} ScenarioRows(data: seq<HistoricalRecord>)
    requires data == [HistoricalRecord(MathSubject, 4, 10, Easy), HistoricalRecord(MathSubject, 6, 10, Hard),
                      HistoricalRecord(MathSubject, 7, 10, Hard)]
    ensures SubjectRows(data, MathSubject) == data
  {
    assert data[..2][..1] == data[..1];
    assert data[..1][..0] == [];
    assert SubjectRows(data[..1], MathSubject) == data[..1];
    assert SubjectRows(data[..2], MathSubject) == data[..2];
  }

  /** Below 0.41 the 0.40 record is mispredicted; from 0.41 to 0.60 every record is predicted. */
  lemma {:induction false} ScenarioAccuracies(data: seq<HistoricalRecord>)
    requires data == [HistoricalRecord(MathSubject, 4, 10, Easy), HistoricalRecord(MathSubject, 6, 10, Hard),
                      HistoricalRecord(MathSubject, 7, 10, Hard)]
    requires SubjectRows(data, MathSubject) == data
    ensures PredictionAccuracy(data, 41, MathSubject) == 1.0
    ensures forall t :: t <= 40 ==> PredictionAccuracy(data, t, MathSubject) != 1.0
  {
    assert data[..2][..1] == data[..1];
    assert data[..1][..0] == [];
    assert MatchCount(data[..1], 41) == 1;
    assert MatchCount(data[..2], 41) == 2;
    assert MatchCount(data, 41) == 3;
    forall t | t <= 40 ensures PredictionAccuracy(data, t, MathSubject) != 1.0 {
      assert MatchCount(data[..1], t) == 0;
      assert MatchCount(data[..2], t) <= 1;
      assert MatchCount(data, t) <= 2;
    }
  }
}
