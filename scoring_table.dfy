/**
 * The scoring table: per subject, an ordered list of rows giving the scaled
 * score of a raw score on the easy and on the hard Module 2 tier, and the
 * lookup with its fallbacks (unknown subject, no exact row, clamping).
 */
module ScoringTable {
  import opened Domain

  datatype ScoreRow = ScoreRow(raw: int, easy: int, hard: int)

  /** One entry of the scoring list: a subject key and its rows. */
  datatype SubjectScoring = SubjectScoring(key: string, rows: seq<ScoreRow>)

  /** The scaled score a row gives for a difficulty tier. */
  function RowValue(row: ScoreRow, d: Difficulty): int {
    match d
    case Easy => row.easy
    case Hard => row.hard
  }

  /** The score given when the subject or the raw score is not covered. */
  const DefaultScore: int := 200

  predicate IsFirstKey(table: seq<SubjectScoring>, subject: string, k: int) {
    0 <= k < |table| && table[k].key == subject &&
    forall j :: 0 <= j < k ==> table[j].key != subject
  }

  predicate IsFirstRaw(rows: seq<ScoreRow>, raw: int, i: int) {
    0 <= i < |rows| && rows[i].raw == raw &&
    forall j :: 0 <= j < i ==> rows[j].raw != raw
  }

  /** Position of the first entry whose key is `subject`, if any. */
  function FindSubject(table: seq<SubjectScoring>, subject: string): (r: Option<nat>)
    ensures r.Some? ==> IsFirstKey(table, subject, r.value)
    ensures r.None? ==> forall j :: 0 <= j < |table| ==> table[j].key != subject
  {
    if |table| == 0 then None
    else if table[0].key == subject then Some(0)
    else match FindSubject(table[1..], subject)
      case None => None
      case Some(k) => Some(k + 1)
  }

  /** Position of the first row whose raw score is `raw`, if any. */
  function FindRaw(rows: seq<ScoreRow>, raw: int): (r: Option<nat>)
    ensures r.Some? ==> IsFirstRaw(rows, raw, r.value)
    ensures r.None? ==> forall j :: 0 <= j < |rows| ==> rows[j].raw != raw
  {
    if |rows| == 0 then None
    else if rows[0].raw == raw then Some(0)
    else match FindRaw(rows[1..], raw)
      case None => None
      case Some(i) => Some(i + 1)
  }

  /**
   * The subject's first entry, when there is one, has at least one row:
   * otherwise clamping to the last row has no row to read.
   */
  predicate ScoresDefined(table: seq<SubjectScoring>, subject: string) {
    match FindSubject(table, subject)
    case None => true
    case Some(k) => |table[k].rows| > 0
  }

  /** Both subjects can be looked up for every non-negative raw score. */
  predicate TableCovers(table: seq<SubjectScoring>) {
    ScoresDefined(table, MathSubject) && ScoresDefined(table, ReadingWritingSubject)
  }

  /**
   * The scaled score of `raw` in `subject` on tier `d`. The fallbacks are
   * asymmetric: a negative raw score gives 200, not the lowest row, while a
   * raw score at or beyond the number of rows gives the last row.
   */
  function ScaledScore(table: seq<SubjectScoring>, subject: string, raw: int, d: Difficulty): (r: int)
    requires raw < 0 || ScoresDefined(table, subject)
    ensures (forall j :: 0 <= j < |table| ==> table[j].key != subject) ==> r == DefaultScore
    ensures forall k, i :: IsFirstKey(table, subject, k) && IsFirstRaw(table[k].rows, raw, i) ==>
              r == RowValue(table[k].rows[i], d)
    ensures forall k ::
              (IsFirstKey(table, subject, k) &&
               forall i :: 0 <= i < |table[k].rows| ==> table[k].rows[i].raw != raw) ==>
              r == if raw < 0 then DefaultScore
                   else if raw >= |table[k].rows| then RowValue(table[k].rows[|table[k].rows| - 1], d)
                   else DefaultScore
  {
    match FindSubject(table, subject)
    case None => DefaultScore
    case Some(k) =>
      var rows := table[k].rows;
      match FindRaw(rows, raw)
      case Some(i) => RowValue(rows[i], d)
      case None =>
        if raw < 0 then DefaultScore
        else if raw >= |rows| then RowValue(rows[|rows| - 1], d)
        else DefaultScore
  }
}
