/**
 * The counterfactual impact of correcting one question, as specification:
 * rescoring a copy of the responses with that question turned correct, plus
 * the 120-point bonus for a Module 1 answer that changes its subject's tier
 * and the complexity bonus.
 */
module Impact {
  import opened Domain
  import opened ScoringTable
  import opened ScoreCalculator

  const BranchFlipBonus: int := 120

  /** A copy of `r`, turned correct when it is the question `id`. */
  function FlipOne(r: Response, id: string): Response {
    if r.questionId == id then r.(correct := true) else r
  }

  /** The modified copy of the responses: every response with question `id` turned correct. */
  function FlipToCorrect(rs: seq<Response>, id: string): seq<Response> {
    seq(|rs|, i requires 0 <= i < |rs| => FlipOne(rs[i], id))
  }

  /** The last response with question `id`: the one the analysis takes as its target. */
  function LastWithId(rs: seq<Response>, id: string): (r: Option<Response>)
    ensures r.None? <==> forall i :: 0 <= i < |rs| ==> rs[i].questionId != id
    ensures r.Some? ==> exists i :: 0 <= i < |rs| && rs[i] == r.value && rs[i].questionId == id &&
                                    forall j :: i < j < |rs| ==> rs[j].questionId != id
  {
    if |rs| == 0 then None
    else if rs[|rs| - 1].questionId == id then Some(rs[|rs| - 1])
    else LastWithId(rs[..|rs| - 1], id)
  }

  function LowerChar(c: char): char {
    if 'A' <= c <= 'Z' then (c as int - 'A' as int + 'a' as int) as char else c
  }

  /**
   * Lower-casing. Only ASCII letters are folded: for the three words compared
   * against ("easy", "medium", "hard") this decides the same matches as full
   * Unicode lower-casing, since no other character lower-cases to one of their letters.
   */
  function Lower(s: string): (r: string)
    ensures |r| == |s|
    ensures forall i :: 0 <= i < |r| ==> !('A' <= r[i] <= 'Z')
  {
    seq(|s|, i requires 0 <= i < |s| => LowerChar(s[i]))
  }

  /** Efficiency bonus: easy 5, medium or absent 2, hard or anything else 0, case-insensitively. */
  function ComplexityBonus(complexity: Option<string>): (bonus: int)
    ensures bonus == 0 || bonus == 2 || bonus == 5
  {
    var c := Lower(complexity.GetOr("medium"));
    if c == "easy" then 5
    else if c == "medium" then 2
    else if c == "hard" then 0
    else 0
  }

  /** The tier map has an entry for both subjects. */
  predicate DifficultiesCover(difficulties: map<string, Difficulty>) {
    MathSubject in difficulties && ReadingWritingSubject in difficulties
  }

  /**
   * Impact of correcting question `id`, against a given total and tier map:
   * the change in total, plus 120 when the target is a Module 1 answer whose
   * subject's tier changes, plus the complexity bonus; 0 for an absent id.
   */
  function ImpactScore(table: seq<SubjectScoring>, thresholds: map<string, int>, rs: seq<Response>,
                       id: string, currentTotal: int, currentDifficulties: map<string, Difficulty>): (r: int)
    requires ThresholdsCover(thresholds) && TableCovers(table) && KnownSubjects(rs)
    requires DifficultiesCover(currentDifficulties)
    ensures (forall i :: 0 <= i < |rs| ==> rs[i].questionId != id) ==> r == 0
  {
    match LastWithId(rs, id)
    case None => 0
    case Some(target) =>
      assert IsSubject(target.subject);
      var after := CurrentScore(table, thresholds, FlipToCorrect(rs, id));
      var branchBonus :=
        if currentDifficulties[target.subject] != after.difficulties[target.subject] && target.isStatic
        then BranchFlipBonus else 0;
      (after.total - currentTotal) + branchBonus + ComplexityBonus(target.complexity)
  }

  /**
   * The corrected copy keeps every response's id, subject, section and
   * complexity; a response is correct in it exactly when it was already
   * correct or carries the id.
   */
  lemma {:induction false} FlipImproves(rs: seq<Response>, id: string)
    ensures Improves(rs, FlipToCorrect(rs, id))
    ensures forall i :: 0 <= i < |rs| ==>
              FlipToCorrect(rs, id)[i].questionId == rs[i].questionId &&
              FlipToCorrect(rs, id)[i].complexity == rs[i].complexity
    ensures forall i :: 0 <= i < |rs| ==>
              (FlipToCorrect(rs, id)[i].correct <==> rs[i].correct || rs[i].questionId == id)
  {
  }

  /** Turning a question correct can move a subject from easy to hard, never from hard to easy. */
  lemma {:induction false} FlipNeverLowersTier(thresholds: map<string, int>, rs: seq<Response>, id: string, subject: string)
    requires subject in thresholds
    ensures SubjectDifficulty(thresholds, rs, subject) == Hard ==>
            SubjectDifficulty(thresholds, FlipToCorrect(rs, id), subject) == Hard
  {
    if SubjectDifficulty(thresholds, rs, subject) == Hard {
      ImprovementNeverLowersTier(thresholds, rs, FlipToCorrect(rs, id), subject);
    }
  }

  /** Turning a Module 2 question correct changes no subject's tier. */
  lemma {:induction false} Module2FlipKeepsTiers(table: seq<SubjectScoring>, thresholds: map<string, int>, rs: seq<Response>, id: string)
    requires ThresholdsCover(thresholds) && TableCovers(table)
    requires forall i :: 0 <= i < |rs| && rs[i].questionId == id ==> !rs[i].isStatic
    ensures CurrentScore(table, thresholds, FlipToCorrect(rs, id)).difficulties ==
            CurrentScore(table, thresholds, rs).difficulties
  {
    Module2ChangesKeepTiers(table, thresholds, rs, FlipToCorrect(rs, id));
  }

  /**
   * With a unique question id and the baseline score of the same responses,
   * the impact is the change in the target subject's own scaled score (the
   * other subject's score is unchanged), plus 120 exactly when the target is
   * a Module 1 answer whose correction moves its subject from easy to hard,
   * plus the complexity bonus. A Module 2 target never earns the 120.
   */
  lemma {:induction false} ImpactOfUniqueQuestion(table: seq<SubjectScoring>, thresholds: map<string, int>,
                               rs: seq<Response>, k: nat)
    requires ThresholdsCover(thresholds) && TableCovers(table) && KnownSubjects(rs)
    requires k < |rs| && forall j :: 0 <= j < |rs| && rs[j].questionId == rs[k].questionId ==> j == k
    ensures var id, s := rs[k].questionId, rs[k].subject;
            var base := CurrentScore(table, thresholds, rs);
            var after := FlipToCorrect(rs, id);
            ImpactScore(table, thresholds, rs, id, base.total, base.difficulties) ==
              (SubjectScaledScore(table, thresholds, after, s) - SubjectScaledScore(table, thresholds, rs, s))
              + (if rs[k].isStatic && SubjectDifficulty(thresholds, rs, s) == Easy
                    && SubjectDifficulty(thresholds, after, s) == Hard
                 then BranchFlipBonus else 0)
              + ComplexityBonus(rs[k].complexity)
  {
    var id, s := rs[k].questionId, rs[k].subject;
    var after := FlipToCorrect(rs, id);
    assert LastWithId(rs, id) == Some(rs[k]);
    var other := if s == MathSubject then ReadingWritingSubject else MathSubject;
    FlipImproves(rs, id);
    assert ChangesOutside(rs, after, other);
    UntouchedSubjectKeepsScore(table, thresholds, rs, after, other);
    FlipNeverLowersTier(thresholds, rs, id, s);
  }

  /** `rs` with the complexity of question `id` replaced by `c`. */
  function WithComplexity(rs: seq<Response>, id: string, c: Option<string>): seq<Response> {
    seq(|rs|, i requires 0 <= i < |rs| => if rs[i].questionId == id then rs[i].(complexity := c) else rs[i])
  }

  lemma {:induction false} LastWithIdWithComplexity(rs: seq<Response>, id: string, c: Option<string>)
    ensures LastWithId(WithComplexity(rs, id, c), id) ==
            match LastWithId(rs, id)
            case None => None
            case Some(t) => Some(t.(complexity := c))
  {
    if |rs| > 0 {
      var front := rs[..|rs| - 1];
      assert WithComplexity(rs, id, c)[..|rs| - 1] == WithComplexity(front, id, c);
      LastWithIdWithComplexity(front, id, c);
    }
  }

  /**
   * Two impact computations that differ only in the target's complexity
   * differ by exactly the difference of the complexity bonuses.
   */
  lemma {:induction false} ComplexityOnlyShiftsImpact(table: seq<SubjectScoring>, thresholds: map<string, int>,
                                   rs: seq<Response>, id: string, c: Option<string>,
                                   currentTotal: int, currentDifficulties: map<string, Difficulty>)
    requires ThresholdsCover(thresholds) && TableCovers(table) && KnownSubjects(rs)
    requires DifficultiesCover(currentDifficulties)
    requires LastWithId(rs, id).Some?
    ensures KnownSubjects(WithComplexity(rs, id, c))
    ensures ImpactScore(table, thresholds, WithComplexity(rs, id, c), id, currentTotal, currentDifficulties) -
            ImpactScore(table, thresholds, rs, id, currentTotal, currentDifficulties) ==
            ComplexityBonus(c) - ComplexityBonus(LastWithId(rs, id).value.complexity)
  {
    var rs' := WithComplexity(rs, id, c);
    assert KnownSubjects(rs');
    LastWithIdWithComplexity(rs, id, c);
    var t := LastWithId(rs, id).value;
    assert LastWithId(rs', id) == Some(t.(complexity := c));
    FlipSameOutcomes(table, thresholds, rs, id, c);
  }

  lemma {:induction false} FlipSameOutcomes(table: seq<SubjectScoring>, thresholds: map<string, int>,
                         rs: seq<Response>, id: string, c: Option<string>)
    requires ThresholdsCover(thresholds) && TableCovers(table)
    ensures CurrentScore(table, thresholds, FlipToCorrect(WithComplexity(rs, id, c), id)) ==
            CurrentScore(table, thresholds, FlipToCorrect(rs, id))
  {
    var a, b := FlipToCorrect(rs, id), FlipToCorrect(WithComplexity(rs, id, c), id);
    assert Improves(a, b) && Improves(b, a);
    SameOutcomesSameScore(table, thresholds, a, b);
  }

  lemma ComplexityBonusExamples()
    ensures ComplexityBonus(Some("Easy")) == 5 && ComplexityBonus(Some("easy")) == 5
    ensures ComplexityBonus(Some("MEDIUM")) == 2 && ComplexityBonus(None) == 2
    ensures ComplexityBonus(Some("Hard")) == 0 && ComplexityBonus(Some("unknown")) == 0
  {
    assert Lower("Easy") == "easy";
    assert Lower("easy") == "easy";
    assert Lower("MEDIUM") == "medium";
    assert Lower("medium") == "medium";
    assert Lower("Hard") == "hard";
    assert Lower("unknown")[0] == 'u';
  }

  /** A small table: Math raw 1 is 250 on easy, raw 2 is 300 on hard; Reading and Writing has one row. */
  const ScenarioTable: seq<SubjectScoring> :=
    [SubjectScoring(MathSubject, [ScoreRow(0, 200, 200), ScoreRow(1, 250, 260), ScoreRow(2, 290, 300)]),
     SubjectScoring(ReadingWritingSubject, [ScoreRow(0, 200, 200)])]
  const ScenarioThresholds: map<string, int> := map[MathSubject := 60, ReadingWritingSubject := 50]
  /** Two Math Module 1 answers, one wrong (easy complexity): performance 0.5, below 0.6. */
  const ScenarioResponses: seq<Response> :=
    [Response("q1", MathSubject, true, false, Some("easy")), Response("q2", MathSubject, true, true, None)]

  lemma ScenarioSubjects()
    ensures FindSubject(ScenarioTable, MathSubject) == Some(0)
    ensures FindSubject(ScenarioTable, ReadingWritingSubject) == Some(1)
    ensures TableCovers(ScenarioTable)
  {
    assert ScenarioTable[0].key != ReadingWritingSubject;
    assert ScenarioTable[1..] == [ScenarioTable[1]];
  }

  lemma ScenarioMathEasy()
    ensures ScaledScore(ScenarioTable, MathSubject, 1, Easy) == 250
  {
    ScenarioSubjects();
    assert FindRaw(ScenarioTable[0].rows, 1) == Some(1);
  }

  lemma ScenarioMathHard()
    ensures ScaledScore(ScenarioTable, MathSubject, 2, Hard) == 300
  {
    ScenarioSubjects();
    assert FindRaw(ScenarioTable[0].rows, 2) == Some(2);
  }

  lemma ScenarioReadingWriting()
    ensures ScaledScore(ScenarioTable, ReadingWritingSubject, 0, Easy) == 200
  {
    ScenarioSubjects();
    assert FindRaw(ScenarioTable[1].rows, 0) == Some(0);
  }

  lemma {:induction false} ScenarioScores(rs: seq<Response>, correct: bool)
    requires rs == [Response("q1", MathSubject, true, correct, Some("easy")), Response("q2", MathSubject, true, true, None)]
    ensures TableCovers(ScenarioTable)
    ensures CurrentScore(ScenarioTable, ScenarioThresholds, rs) ==
            if correct then ScoreResult(500, map[MathSubject := Hard, ReadingWritingSubject := Easy])
            else ScoreResult(450, map[MathSubject := Easy, ReadingWritingSubject := Easy])
  {
    ScenarioSubjects();
    ScenarioMathEasy();
    ScenarioMathHard();
    ScenarioReadingWriting();
    assert rs[..1] == [rs[0]];
    assert [rs[0]][..0] == [];
    assert Module1Of([rs[0]], MathSubject) == [rs[0]];
    assert Module1Of(rs, MathSubject) == rs;
    assert CorrectCount([rs[0]]) == if correct then 1 else 0;
    assert CorrectCount(rs) == if correct then 2 else 1;
    NoModule1Responses(rs, ReadingWritingSubject);
    assert RawScore([rs[0]], ReadingWritingSubject) == 0;
    assert RawScore(rs, ReadingWritingSubject) == 0;
    assert RawScore([rs[0]], MathSubject) == if correct then 1 else 0;
    assert RawScore(rs, MathSubject) == if correct then 2 else 1;
    assert SubjectDifficulty(ScenarioThresholds, rs, MathSubject) == if correct then Hard else Easy;
    assert SubjectDifficulty(ScenarioThresholds, rs, ReadingWritingSubject) == Easy;
  }

  lemma ScenarioFlip()
    ensures FlipToCorrect(ScenarioResponses, "q1") ==
            [Response("q1", MathSubject, true, true, Some("easy")), Response("q2", MathSubject, true, true, None)]
    ensures LastWithId(ScenarioResponses, "q1") == Some(ScenarioResponses[0])
    ensures KnownSubjects(ScenarioResponses)
  {
    assert ScenarioResponses[..1] == [ScenarioResponses[0]];
  }

  /**
   * A Module 1 question whose correction lifts its subject from the easy to
   * the hard tier and its raw score by one, worth 50 scaled points at that
   * boundary, has impact 50 + 120 + 5 when its complexity is easy.
   */
  lemma BoundaryCrossingScenario()
    ensures TableCovers(ScenarioTable) && KnownSubjects(ScenarioResponses)
    ensures var base := CurrentScore(ScenarioTable, ScenarioThresholds, ScenarioResponses);
            && base.difficulties[MathSubject] == Easy
            && CurrentScore(ScenarioTable, ScenarioThresholds, FlipToCorrect(ScenarioResponses, "q1"))
                 .difficulties[MathSubject] == Hard
            && ImpactScore(ScenarioTable, ScenarioThresholds, ScenarioResponses, "q1", base.total, base.difficulties) == 175
  {
    ScenarioFlip();
    var rs := ScenarioResponses;
    var after := FlipToCorrect(rs, "q1");
    ScenarioScores(rs, false);
    ScenarioScores(after, true);
    assert ComplexityBonus(Some("easy")) == 5 by { ComplexityBonusExamples(); }
  }
}
