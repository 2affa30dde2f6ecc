/**
 * Entities shared by the scoring and what-if engine of the SAT analyzer:
 * subjects, Module 2 difficulty tiers and the student's response records.
 */
module Domain {

  datatype Option<T> = None | Some(value: T) {
    function GetOr(default: T): T {
      match this
      case Some(v) => v
      case None => default
    }
  }

  /** The tier on which Module 2 of a subject is scored. */
  datatype Difficulty = Easy | Hard

  /** The analyzer knows exactly two subjects, in this order. */
  const MathSubject: string := "Math"
  const ReadingWritingSubject: string := "Reading and Writing"
  const Subjects: seq<string> := [MathSubject, ReadingWritingSubject]

  predicate IsSubject(s: string) {
    s == MathSubject || s == ReadingWritingSubject
  }

  /**
   * One answered question. `isStatic` is the test `section == 'Static'`
   * (Module 1); every other section is Module 2. `complexity` is the
   * optional (misspelled in the data) complexity field, before any case folding.
   */
  datatype Response = Response(
    questionId: string,
    subject: string,
    isStatic: bool,
    correct: bool,
    complexity: Option<string>)

  /** Every response names one of the two subjects (any other subject is a missing dictionary key). */
  predicate KnownSubjects(rs: seq<Response>) {
    forall i :: 0 <= i < |rs| ==> IsSubject(rs[i].subject)
  }
}
