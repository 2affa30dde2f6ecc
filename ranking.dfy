/**
 * Ranking and aggregation, as specification: one impact entry per incorrect
 * response, a stable sort by impact (highest first), a per-subject top-N
 * selection, and the per-subject sums, counts and summary flags.
 */
module Ranking {
  import opened Domain
  import opened ScoringTable
  import opened ScoreCalculator
  import opened Impact

  /** An incorrect response with its impact; `difficulty` is the raw complexity tag or "unknown". */
  datatype ImpactEntry = ImpactEntry(
    questionId: string,
    subject: string,
    moduleNumber: int,
    difficulty: string,
    impactScore: int,
    isModule1: bool)

  /** The incorrect responses, in order. */
  function Incorrect(rs: seq<Response>): (r: seq<Response>)
    ensures |r| == |rs| - CorrectCount(rs)
    ensures forall i :: 0 <= i < |r| ==> !r[i].correct && r[i] in rs
  {
    if |rs| == 0 then []
    else
      var last := rs[|rs| - 1];
      Incorrect(rs[..|rs| - 1]) + (if last.correct then [] else [last])
  }

  /** The kept responses are exactly the incorrect ones. */
  lemma {:induction false} IncorrectMembers(rs: seq<Response>)
    ensures forall x :: x in Incorrect(rs) <==> x in rs && !x.correct
  {
    if |rs| > 0 {
      IncorrectMembers(rs[..|rs| - 1]);
      assert rs == rs[..|rs| - 1] + [rs[|rs| - 1]];
    }
  }

  /** Selecting the incorrect responses keeps their order: it distributes over concatenation. */
  lemma {:induction false} IncorrectAppend(a: seq<Response>, b: seq<Response>)
    ensures Incorrect(a + b) == Incorrect(a) + Incorrect(b)
  {
    if |b| > 0 {
      assert (a + b)[..|a + b| - 1] == a + b[..|b| - 1];
      IncorrectAppend(a, b[..|b| - 1]);
    } else {
      assert a + b == a;
    }
  }

  function EntryFor(q: Response, impact: int): ImpactEntry {
    var moduleNumber := if q.isStatic then 1 else 2;
    ImpactEntry(q.questionId, q.subject, moduleNumber, q.complexity.GetOr("unknown"), impact, moduleNumber == 1)
  }

  /** The entries of the questions `qs`, in order, each with its impact against the baseline. */
  function ImpactEntries(table: seq<SubjectScoring>, thresholds: map<string, int>, rs: seq<Response>,
                         total: int, difficulties: map<string, Difficulty>, qs: seq<Response>): (r: seq<ImpactEntry>)
    requires ThresholdsCover(thresholds) && TableCovers(table) && KnownSubjects(rs)
    requires DifficultiesCover(difficulties)
    ensures |r| == |qs|
    ensures forall i :: 0 <= i < |qs| ==>
              r[i] == EntryFor(qs[i], ImpactScore(table, thresholds, rs, qs[i].questionId, total, difficulties))
  {
    if |qs| == 0 then []
    else
      var last := qs[|qs| - 1];
      ImpactEntries(table, thresholds, rs, total, difficulties, qs[..|qs| - 1]) +
        [EntryFor(last, ImpactScore(table, thresholds, rs, last.questionId, total, difficulties))]
  }

  predicate SortedByImpact(s: seq<ImpactEntry>) {
    forall i, j :: 0 <= i < j < |s| ==> s[i].impactScore >= s[j].impactScore
  }

  /** Places `x` before the first entry whose impact is not above its own. */
  function InsertByImpact(x: ImpactEntry, s: seq<ImpactEntry>): (r: seq<ImpactEntry>)
    ensures |r| == |s| + 1
  {
    if |s| == 0 || s[0].impactScore <= x.impactScore then [x] + s
    else [s[0]] + InsertByImpact(x, s[1..])
  }

  /** The stable sort by impact, highest first (entries with equal impact keep their order). */
  function SortByImpact(s: seq<ImpactEntry>): (r: seq<ImpactEntry>)
    ensures |r| == |s|
  {
    if |s| == 0 then [] else InsertByImpact(s[0], SortByImpact(s[1..]))
  }

  lemma {:induction false} InsertPermutes(x: ImpactEntry, s: seq<ImpactEntry>)
    ensures multiset(InsertByImpact(x, s)) == multiset(s) + multiset{x}
  {
    if |s| > 0 && s[0].impactScore > x.impactScore {
      InsertPermutes(x, s[1..]);
      assert s == [s[0]] + s[1..];
    }
  }

  /** The sort is a permutation: it neither loses nor duplicates an entry. */
  lemma {:induction false} SortPermutes(s: seq<ImpactEntry>)
    ensures multiset(SortByImpact(s)) == multiset(s)
  {
    if |s| > 0 {
      SortPermutes(s[1..]);
      InsertPermutes(s[0], SortByImpact(s[1..]));
      assert s == [s[0]] + s[1..];
    }
  }

  lemma {:induction false} SortedCons(a: ImpactEntry, rest: seq<ImpactEntry>)
    requires SortedByImpact(rest)
    requires |rest| > 0 ==> a.impactScore >= rest[0].impactScore
    ensures SortedByImpact([a] + rest)
  {
    var s := [a] + rest;
    forall i, j | 0 <= i < j < |s| ensures s[i].impactScore >= s[j].impactScore {
      if i > 0 {
        assert s[i] == rest[i - 1] && s[j] == rest[j - 1];
      } else {
        assert s[j] == rest[j - 1];
      }
    }
  }

  /** Inserting into a sorted list keeps it sorted; the new head is `x` or the old head. */
  lemma {:induction false} InsertKeepsSorted(x: ImpactEntry, s: seq<ImpactEntry>)
    requires SortedByImpact(s)
    ensures SortedByImpact(InsertByImpact(x, s))
    ensures InsertByImpact(x, s)[0] == x || (|s| > 0 && InsertByImpact(x, s)[0] == s[0])
  {
    if |s| == 0 || s[0].impactScore <= x.impactScore {
      SortedCons(x, s);
    } else {
      var rest := InsertByImpact(x, s[1..]);
      assert SortedByImpact(s[1..]) by {
        forall i, j | 0 <= i < j < |s[1..]| ensures s[1..][i].impactScore >= s[1..][j].impactScore {
          assert s[1..][i] == s[i + 1] && s[1..][j] == s[j + 1];
        }
      }
      InsertKeepsSorted(x, s[1..]);
      assert |s| > 1 ==> s[0].impactScore >= s[1].impactScore;
      SortedCons(s[0], rest);
    }
  }

  /** The sort's result is ordered by impact, highest first. */
  lemma {:induction false} SortIsSorted(s: seq<ImpactEntry>)
    ensures SortedByImpact(SortByImpact(s))
  {
    if |s| > 0 {
      SortIsSorted(s[1..]);
      InsertKeepsSorted(s[0], SortByImpact(s[1..]));
    }
  }

  /** The entries whose impact is `v`, in order. */
  function WithImpact(s: seq<ImpactEntry>, v: int): seq<ImpactEntry> {
    if |s| == 0 then [] else (if s[0].impactScore == v then [s[0]] else []) + WithImpact(s[1..], v)
  }

  /** The entries of `subject`, in order. */
  function OfSubject(s: seq<ImpactEntry>, subject: string): (r: seq<ImpactEntry>)
    ensures |r| <= |s|
    ensures forall i :: 0 <= i < |r| ==> r[i].subject == subject
  {
    if |s| == 0 then [] else (if s[0].subject == subject then [s[0]] else []) + OfSubject(s[1..], subject)
  }

  /** The kept entries are exactly the given entries of the subject. */
  lemma {:induction false} OfSubjectMembers(s: seq<ImpactEntry>, subject: string)
    ensures forall e :: e in OfSubject(s, subject) <==> e in s && e.subject == subject
  {
    if |s| > 0 {
      OfSubjectMembers(s[1..], subject);
      assert s == [s[0]] + s[1..];
    }
  }

  lemma {:induction false} OfSubjectIsSubmultiset(s: seq<ImpactEntry>, subject: string)
    ensures multiset(OfSubject(s, subject)) <= multiset(s)
  {
    if |s| > 0 {
      OfSubjectIsSubmultiset(s[1..], subject);
      assert s == [s[0]] + s[1..];
    }
  }

  lemma {:induction false} InsertWithImpact(x: ImpactEntry, t: seq<ImpactEntry>, v: int)
    ensures WithImpact(InsertByImpact(x, t), v) == WithImpact([x] + t, v)
  {
    assert ([x] + t)[1..] == t;
    if |t| > 0 && t[0].impactScore > x.impactScore {
      var rest := InsertByImpact(x, t[1..]);
      assert InsertByImpact(x, t) == [t[0]] + rest;
      assert ([t[0]] + rest)[1..] == rest;
      InsertWithImpact(x, t[1..], v);
      assert ([x] + t[1..])[1..] == t[1..];
    }
  }

  /** Stability: among entries of equal impact, the sort keeps the original order (and loses none). */
  lemma {:induction false} SortIsStable(s: seq<ImpactEntry>, v: int)
    ensures WithImpact(SortByImpact(s), v) == WithImpact(s, v)
  {
    if |s| > 0 {
      SortIsStable(s[1..], v);
      InsertWithImpact(s[0], SortByImpact(s[1..]), v);
      assert ([s[0]] + SortByImpact(s[1..]))[1..] == SortByImpact(s[1..]);
    }
  }

  lemma {:induction false} HeadIsMaximal(t: seq<ImpactEntry>, e: ImpactEntry)
    requires SortedByImpact(t) && e in multiset(t)
    ensures e.impactScore <= t[0].impactScore
  {
    var j :| 0 <= j < |t| && t[j] == e;
    if j > 0 {
      assert t[0].impactScore >= t[j].impactScore;
    }
  }

  lemma {:induction false} OfSubjectCons(a: ImpactEntry, t: seq<ImpactEntry>, subject: string)
    ensures OfSubject([a] + t, subject) == (if a.subject == subject then [a] else []) + OfSubject(t, subject)
  {
    assert ([a] + t)[1..] == t;
  }

  lemma {:induction false} InsertAtFront(x: ImpactEntry, t: seq<ImpactEntry>)
    requires |t| == 0 || t[0].impactScore <= x.impactScore
    ensures InsertByImpact(x, t) == [x] + t
  {
  }

  lemma {:induction false} InsertPastHead(x: ImpactEntry, t: seq<ImpactEntry>)
    requires |t| > 0 && t[0].impactScore > x.impactScore
    ensures InsertByImpact(x, t) == [t[0]] + InsertByImpact(x, t[1..])
  {
  }

  lemma {:induction false} SortedTail(t: seq<ImpactEntry>)
    requires |t| > 0 && SortedByImpact(t)
    ensures SortedByImpact(t[1..])
  {
    forall i, j | 0 <= i < j < |t[1..]| ensures t[1..][i].impactScore >= t[1..][j].impactScore {
      assert t[1..][i] == t[i + 1] && t[1..][j] == t[j + 1];
    }
  }

  lemma {:induction false} InsertOfSubjectAtFront(x: ImpactEntry, t: seq<ImpactEntry>, subject: string)
    requires SortedByImpact(t)
    requires |t| == 0 || t[0].impactScore <= x.impactScore
    ensures OfSubject(InsertByImpact(x, t), subject) ==
            if x.subject == subject then InsertByImpact(x, OfSubject(t, subject)) else OfSubject(t, subject)
  {
    var sub := OfSubject(t, subject);
    InsertAtFront(x, t);
    OfSubjectCons(x, t, subject);
    if |sub| > 0 {
      assert sub[0] in multiset(sub);
      OfSubjectIsSubmultiset(t, subject);
      HeadIsMaximal(t, sub[0]);
    }
    InsertAtFront(x, sub);
  }

  lemma {:induction false} InsertOfSubject(x: ImpactEntry, t: seq<ImpactEntry>, subject: string)
    requires SortedByImpact(t)
    ensures OfSubject(InsertByImpact(x, t), subject) ==
            if x.subject == subject then InsertByImpact(x, OfSubject(t, subject)) else OfSubject(t, subject)
  {
    if |t| == 0 || t[0].impactScore <= x.impactScore {
      InsertOfSubjectAtFront(x, t, subject);
    } else {
      SortedTail(t);
      InsertOfSubject(x, t[1..], subject);
      InsertOfSubjectPastHead(x, t, subject);
    }
  }

  lemma {:induction false} InsertOfSubjectPastHead(x: ImpactEntry, t: seq<ImpactEntry>, subject: string)
    requires |t| > 0 && t[0].impactScore > x.impactScore
    requires OfSubject(InsertByImpact(x, t[1..]), subject) ==
             if x.subject == subject then InsertByImpact(x, OfSubject(t[1..], subject)) else OfSubject(t[1..], subject)
    ensures OfSubject(InsertByImpact(x, t), subject) ==
            if x.subject == subject then InsertByImpact(x, OfSubject(t, subject)) else OfSubject(t, subject)
  {
    var head, rest := t[0], t[1..];
    var inserted := InsertByImpact(x, rest);
    var tail := OfSubject(rest, subject);
    var h := if head.subject == subject then [head] else [];
    InsertPastHead(x, t);
    assert InsertByImpact(x, t) == [head] + inserted;
    OfSubjectCons(head, inserted, subject);
    assert OfSubject(InsertByImpact(x, t), subject) == h + OfSubject(inserted, subject);
    assert t == [head] + rest;
    OfSubjectCons(head, rest, subject);
    assert OfSubject(t, subject) == h + tail;
    if x.subject != subject {
      assert OfSubject(inserted, subject) == tail;
    } else if head.subject == subject {
      InsertPastHead(x, [head] + tail);
      assert ([head] + tail)[1..] == tail;
      assert OfSubject(inserted, subject) == InsertByImpact(x, tail);
    } else {
      assert h + tail == tail;
      assert h + OfSubject(inserted, subject) == InsertByImpact(x, tail);
    }
  }

  /**
   * Selecting one subject's entries of the sorted list gives the sorted list
   * of that subject's entries: other subjects' entries never affect a subject's ranking.
   */
  lemma {:induction false} SortCommutesWithSubject(s: seq<ImpactEntry>, subject: string)
    ensures OfSubject(SortByImpact(s), subject) == SortByImpact(OfSubject(s, subject))
  {
    if |s| > 0 {
      var rest := s[1..];
      SortCommutesWithSubject(rest, subject);
      SortIsSorted(rest);
      InsertOfSubject(s[0], SortByImpact(rest), subject);
      assert SortByImpact(s) == InsertByImpact(s[0], SortByImpact(rest));
      var sub := OfSubject(rest, subject);
      if s[0].subject == subject {
        assert OfSubject(s, subject) == [s[0]] + sub;
        assert ([s[0]] + sub)[1..] == sub;
        assert SortByImpact([s[0]] + sub) == InsertByImpact(s[0], SortByImpact(sub));
      } else {
        assert OfSubject(s, subject) == [] + sub;
        assert [] + sub == sub;
      }
    }
  }

  /** Python's `s[:n]`: the first n entries, or all but the last -n when n is negative. */
  function SlicePrefix<T>(s: seq<T>, n: int): (r: seq<T>)
    ensures |r| <= |s| && r == s[..|r|]
    ensures n >= 0 ==> |r| == if n <= |s| then n else |s|
    ensures n < 0 ==> |r| == if |s| + n >= 0 then |s| + n else 0
  {
    if n >= 0 then (if n <= |s| then s[..n] else s)
    else if |s| + n >= 0 then s[..|s| + n] else []
  }

  /** One subject's selection: the first `topN` of that subject's entries of the sorted list. */
  function SubjectSelection(all: seq<ImpactEntry>, subject: string, topN: int): seq<ImpactEntry> {
    SlicePrefix(OfSubject(SortByImpact(all), subject), topN)
  }

  lemma {:induction false} SortedPrefix(s: seq<ImpactEntry>, k: nat)
    requires SortedByImpact(s) && k <= |s|
    ensures SortedByImpact(s[..k])
    ensures forall i, j :: 0 <= i < k <= j < |s| ==> s[i].impactScore >= s[j].impactScore
  {
    forall i, j | 0 <= i < j < k ensures s[..k][i].impactScore >= s[..k][j].impactScore {
      assert s[..k][i] == s[i] && s[..k][j] == s[j];
    }
  }

  lemma {:induction false} RankedOfSubject(own: seq<ImpactEntry>, subject: string)
    requires forall i :: 0 <= i < |own| ==> own[i].subject == subject
    ensures forall i :: 0 <= i < |SortByImpact(own)| ==> SortByImpact(own)[i].subject == subject
  {
    var ranked := SortByImpact(own);
    SortPermutes(own);
    forall i | 0 <= i < |ranked| ensures ranked[i].subject == subject {
      assert ranked[i] in multiset(own);
      var j :| 0 <= j < |own| && own[j] == ranked[i];
    }
  }

  /**
   * A subject's selection is a prefix of that subject's own entries stably
   * sorted by impact (other subjects' entries play no part), so it holds only
   * that subject's entries, is sorted, has min(topN, count) entries for a
   * non-negative topN, and no entry left out has a higher impact than any
   * entry selected.
   */
  lemma {:induction false} SelectionIsTopN(all: seq<ImpactEntry>, subject: string, topN: int)
    ensures var sel := SubjectSelection(all, subject, topN);
            var ranked := SortByImpact(OfSubject(all, subject));
            && sel == SlicePrefix(ranked, topN)
            && (forall i :: 0 <= i < |sel| ==> sel[i].subject == subject)
            && SortedByImpact(sel)
            && (topN >= 0 ==> |sel| == if topN <= |ranked| then topN else |ranked|)
            && (forall i, j :: 0 <= i < |sel| <= j < |ranked| ==> sel[i].impactScore >= ranked[j].impactScore)
  {
    SortCommutesWithSubject(all, subject);
    var own := OfSubject(all, subject);
    var ranked := SortByImpact(own);
    var sel := SlicePrefix(ranked, topN);
    SortIsSorted(own);
    SortedPrefix(ranked, |sel|);
    RankedOfSubject(own, subject);
  }

  /** Every entry, one per incorrect response, in response order, before sorting. */
  function AllEntries(table: seq<SubjectScoring>, thresholds: map<string, int>, rs: seq<Response>): (r: seq<ImpactEntry>)
    requires ThresholdsCover(thresholds) && TableCovers(table) && KnownSubjects(rs)
    ensures |r| == |rs| - CorrectCount(rs)
  {
    var base := CurrentScore(table, thresholds, rs);
    ImpactEntries(table, thresholds, rs, base.total, base.difficulties, Incorrect(rs))
  }

  /** The per-subject selections of the analysed responses. */
  function HighImpactQuestions(table: seq<SubjectScoring>, thresholds: map<string, int>,
                               rs: seq<Response>, topN: int): map<string, seq<ImpactEntry>>
    requires ThresholdsCover(thresholds) && TableCovers(table) && KnownSubjects(rs)
  {
    var all := AllEntries(table, thresholds, rs);
    map[MathSubject := SubjectSelection(all, MathSubject, topN),
        ReadingWritingSubject := SubjectSelection(all, ReadingWritingSubject, topN)]
  }

  // ---------------------------------------------------------------------------
  // Aggregation

  datatype SubjectRecommendation = SubjectRecommendation(
    highImpactQuestions: seq<ImpactEntry>,
    totalPotentialGain: int,
    module1PriorityCount: nat)

  datatype SubjectSummary = SubjectSummary(
    averageImpactPerQuestion: real,
    highestSingleImpact: int,
    focusOnModule1: bool)

  datatype Report = Report(
    currentTotalScore: int,
    currentModule2Difficulties: map<string, Difficulty>,
    recommendations: map<string, SubjectRecommendation>,
    summary: map<string, SubjectSummary>)

  function SumImpacts(qs: seq<ImpactEntry>): int {
    if |qs| == 0 then 0 else SumImpacts(qs[..|qs| - 1]) + qs[|qs| - 1].impactScore
  }

  /** The Module 1 entries, in order. */
  function Module1Entries(qs: seq<ImpactEntry>): (r: seq<ImpactEntry>)
    ensures |r| <= |qs|
  {
    if |qs| == 0 then []
    else Module1Entries(qs[..|qs| - 1]) + (if qs[|qs| - 1].moduleNumber == 1 then [qs[|qs| - 1]] else [])
  }

  /** The entries kept are exactly the given module 1 entries. */
  lemma {:induction false} Module1EntriesMembers(qs: seq<ImpactEntry>)
    ensures forall e :: e in Module1Entries(qs) <==> e in qs && e.moduleNumber == 1
  {
    if |qs| > 0 {
      Module1EntriesMembers(qs[..|qs| - 1]);
      assert qs == qs[..|qs| - 1] + [qs[|qs| - 1]];
    }
  }

  function RecommendationFor(qs: seq<ImpactEntry>): SubjectRecommendation {
    SubjectRecommendation(qs, SumImpacts(qs), |Module1Entries(qs)|)
  }

  function SummaryFor(qs: seq<ImpactEntry>): SubjectSummary
    requires |qs| > 0
  {
    var module1 := Module1Entries(qs);
    SubjectSummary(SumImpacts(qs) as real / |qs| as real, qs[0].impactScore, |module1| > |qs| / 2)
  }

  /** The report from the baseline and the two subjects' selections. */
  function BuildReport(base: ScoreResult, math: seq<ImpactEntry>, rw: seq<ImpactEntry>): Report {
    var recommendations := map[MathSubject := RecommendationFor(math), ReadingWritingSubject := RecommendationFor(rw)];
    var summary := if |math| > 0 then map[MathSubject := SummaryFor(math)] else map[];
    var summary := if |rw| > 0 then summary[ReadingWritingSubject := SummaryFor(rw)] else summary;
    Report(base.total, base.difficulties, recommendations, summary)
  }

  /** The report: baseline score and tiers, and per subject its selection with sums, counts and summary. */
  function Recommendations(table: seq<SubjectScoring>, thresholds: map<string, int>,
                           rs: seq<Response>, topN: int): Report
    requires ThresholdsCover(thresholds) && TableCovers(table) && KnownSubjects(rs)
  {
    var high := HighImpactQuestions(table, thresholds, rs, topN);
    BuildReport(CurrentScore(table, thresholds, rs), high[MathSubject], high[ReadingWritingSubject])
  }

  /** In a list sorted by impact, the sum is at most the length times the first impact. */
  lemma {:induction false} SumAtMostLengthTimesFirst(qs: seq<ImpactEntry>)
    requires |qs| > 0 && SortedByImpact(qs)
    ensures SumImpacts(qs) <= |qs| * qs[0].impactScore
  {
    if |qs| > 1 {
      var front := qs[..|qs| - 1];
      assert SortedByImpact(front);
      SumAtMostLengthTimesFirst(front);
      assert qs[|qs| - 1].impactScore <= qs[0].impactScore;
    }
  }

  /**
   * For a non-empty selection sorted by impact: the highest single impact is
   * its first entry and no entry exceeds it, the total is at most the size
   * times that highest impact, the average times the size is the total, and
   * the Module 1 focus flag holds exactly when Module 1 entries are a strict
   * majority.
   */
  lemma {:induction false} SummaryOfSelection(sel: seq<ImpactEntry>)
    requires |sel| > 0 && SortedByImpact(sel)
    ensures var summary := SummaryFor(sel);
            && summary.highestSingleImpact == sel[0].impactScore
            && (forall i :: 0 <= i < |sel| ==> sel[i].impactScore <= summary.highestSingleImpact)
            && SumImpacts(sel) <= |sel| * summary.highestSingleImpact
            && summary.averageImpactPerQuestion * |sel| as real == SumImpacts(sel) as real
            && (summary.focusOnModule1 <==> 2 * |Module1Entries(sel)| > |sel|)
  {
    SumAtMostLengthTimesFirst(sel);
    AverageTimesCount(SumImpacts(sel), |sel|);
    StrictMajority(|Module1Entries(sel)|, |sel|);
  }

  lemma AverageTimesCount(total: int, n: nat)
    requires n > 0
    ensures total as real / n as real * n as real == total as real
  {
  }

  /** `count > n // 2` is a strict majority of n. */
  lemma StrictMajority(count: nat, n: nat)
    ensures count > n / 2 <==> 2 * count > n
  {
  }

  /** Each subject's recommendation and summary come from that subject's own selection. */
  lemma {:induction false} BuildReportFields(base: ScoreResult, math: seq<ImpactEntry>, rw: seq<ImpactEntry>,
                                             subject: string, sel: seq<ImpactEntry>)
    requires (subject == MathSubject && sel == math) || (subject == ReadingWritingSubject && sel == rw)
    ensures var report := BuildReport(base, math, rw);
            && report.currentTotalScore == base.total
            && report.currentModule2Difficulties == base.difficulties
            && report.recommendations.Keys == {MathSubject, ReadingWritingSubject}
            && report.recommendations[subject].highImpactQuestions == sel
            && report.recommendations[subject].totalPotentialGain == SumImpacts(sel)
            && report.recommendations[subject].module1PriorityCount == |Module1Entries(sel)| <= |sel|
            && (subject in report.summary <==> |sel| > 0)
            && (|sel| > 0 ==> report.summary[subject] == SummaryFor(sel))
  {
    assert MathSubject != ReadingWritingSubject;
  }

  /**
   * The report carries the baseline total and tiers, a recommendation for
   * each subject summing and counting exactly that subject's selection, and
   * a summary for a subject exactly when its selection is non-empty.
   */
  lemma {:induction false} RecommendationsAggregate(table: seq<SubjectScoring>, thresholds: map<string, int>,
                                 rs: seq<Response>, topN: int, subject: string)
    requires ThresholdsCover(thresholds) && TableCovers(table) && KnownSubjects(rs)
    requires IsSubject(subject)
    ensures var report := Recommendations(table, thresholds, rs, topN);
            var base := CurrentScore(table, thresholds, rs);
            var sel := SubjectSelection(AllEntries(table, thresholds, rs), subject, topN);
            && report.currentTotalScore == base.total
            && report.currentModule2Difficulties == base.difficulties
            && report.recommendations.Keys == {MathSubject, ReadingWritingSubject}
            && report.recommendations[subject].highImpactQuestions == sel
            && report.recommendations[subject].totalPotentialGain == SumImpacts(sel)
            && report.recommendations[subject].module1PriorityCount == |Module1Entries(sel)| <= |sel|
            && (subject in report.summary <==> |sel| > 0)
            && (|sel| > 0 ==> report.summary[subject] == SummaryFor(sel) && SortedByImpact(sel))
  {
    var all := AllEntries(table, thresholds, rs);
    var sel := SubjectSelection(all, subject, topN);
    SelectionIsTopN(all, subject, topN);
    var high := HighImpactQuestions(table, thresholds, rs, topN);
    BuildReportFields(CurrentScore(table, thresholds, rs), high[MathSubject], high[ReadingWritingSubject], subject, sel);
  }
}
