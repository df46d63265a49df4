/**
 * The older grading engine of quizzer-v2/grading_engine.py. Single choice is
 * the same code as in the newer engine; multiple choice scores true minus
 * false positives over the correct letters and truncates; open answers take
 * the oracle's points and checks as they come; the keyword fallback decides
 * at 0.7 instead of 0.9.
 */
module GradingLegacy {
  import opened Text
  import opened Opt
  import opened Numeric
  import opened Questions
  import opened Grading

  // ---------------------------------------------------------------------------
  // Multiple choice
  // ---------------------------------------------------------------------------

  /** The score ratio for selected letters `u` and correct letters `c`:
      true positives minus false positives over the correct letters, floored
      at 0, and 0 without correct letters. */
  function LegacyMultiRatio(u: set<char>, c: set<char>): (r: real)
    ensures 0.0 <= r <= 1.0
    ensures |c| == 0 ==> r == 0.0
  {
    if |c| == 0 then 0.0
    else
      SubsetCard(u * c, c);
      var diff := (|u * c| - |u - c|) as real / |c| as real;
      if diff < 0.0 then 0.0 else diff
  }

  /** Choosing exactly the correct letters scores 1. */
  lemma LegacyExactSelectionScoresOne(c: set<char>)
    requires |c| > 0
    ensures LegacyMultiRatio(c, c) == 1.0
  {
    assert c * c == c;
    assert c - c == {};
  }

  /** Any letter outside the key counts against the answer: adding one never
      raises the ratio, and lowers it while it is above 0. */
  lemma LegacyStrayLetterCosts(u: set<char>, c: set<char>, x: char)
    requires x !in c && x !in u
    ensures LegacyMultiRatio(u + {x}, c) <= LegacyMultiRatio(u, c)
    ensures LegacyMultiRatio(u, c) > 0.0 ==> LegacyMultiRatio(u + {x}, c) < LegacyMultiRatio(u, c)
  {
    assert (u + {x}) * c == u * c;
    assert (u + {x}) - c == (u - c) + {x};
    if |c| > 0 {
      var tp := |u * c|;
      var fp := |u - c|;
      DivideStrictly(tp - (fp + 1), tp - fp, |c|);
    }
  }

  /** The two checks: no correct letter missed, no letter outside the key. */
  function LegacyMultiChecks(u: set<char>, c: set<char>): (checks: seq<Check>)
    ensures checks == [Check("Selected all correct options", c <= u),
                       Check("No incorrect options selected", u <= c)]
  {
    NothingLeftOver(c, u);
    NothingLeftOver(u, c);
    [Check("Selected all correct options", |c - u| == 0),
     Check("No incorrect options selected", |u - c| == 0)]
  }

  lemma NothingLeftOver(a: set<char>, b: set<char>)
    ensures |a - b| == 0 <==> a <= b
  {
    if |a - b| == 0 {
      assert a - b == {};
      forall x | x in a
        ensures x in b
      {
        assert x !in a - b;
      }
    }
    if a <= b {
      assert a - b == {};
    }
  }

  /** `_grade_mcq_multi` of the older engine for selected letters `u` and
      correct letters `c`: the ratio times the maximum, truncated, and the
      thresholds 1.0 and 0.5. */
  function LegacyMultiGrading(id: string, maxPoints: int, u: set<char>, c: set<char>): (g: Grading)
    ensures g.pointsAwarded == TruncatedPoints(LegacyMultiRatio(u, c), maxPoints)
    ensures g.decision == Decide(LegacyMultiRatio(u, c), 1.0, 0.5)
    ensures g.checks == LegacyMultiChecks(u, c)
    ensures maxPoints >= 0 ==> 0 <= g.pointsAwarded <= maxPoints
    ensures g.decision == Correct <==> |c| > 0 && c == u
    ensures g.questionId == id && g.pointsPossible == maxPoints && g.guarded
  {
    var ratio := LegacyMultiRatio(u, c);
    LegacyFullRatioIsExact(u, c);
    Grading(id, TruncatedPoints(ratio, maxPoints), maxPoints,
            Decide(ratio, 1.0, 0.5), LegacyMultiChecks(u, c), true)
  }

  /** The ratio reaches 1 exactly when the selection is the non-empty key. */
  lemma LegacyFullRatioIsExact(u: set<char>, c: set<char>)
    ensures LegacyMultiRatio(u, c) >= 1.0 <==> |c| > 0 && u == c
  {
    if |c| > 0 {
      var tp := |u * c|;
      var fp := |u - c|;
      SubsetCard(u * c, c);
      if LegacyMultiRatio(u, c) >= 1.0 {
        assert (tp - fp) as real / |c| as real >= 1.0;
        assert tp - fp >= |c|;
        SubsetOfSameSize(u * c, c);
        assert u - c == {};
        assert u == c by {
          assert u <= c;
          assert c <= u;
        }
      }
      if u == c {
        LegacyExactSelectionScoresOne(c);
      }
    }
  }

  // ---------------------------------------------------------------------------
  // Open answers
  // ---------------------------------------------------------------------------

  /** What the oracle gives back to the older engine; a field is `None`
      when absent. */
  datatype LegacyGradeReply =
    | Raised
    | Falsy
    | LegacyGradeReply(hasError: bool, points: Option<int>, checks: Option<seq<Check>>)

  /** The decision of the older engine for `points` out of `max`: correct
      from 90 % of the maximum, partially correct from 50 %. */
  function PointsDecision(points: int, max: int): (d: Decision)
    ensures max > 0 ==> d == Decide(points as real / max as real, 0.9, 0.5)
    ensures max == 0 ==> (d == Correct <==> points >= 0)
  {
    DivideThresholds(points, max);
    if points as real >= max as real * 0.9 then Correct
    else if points as real >= max as real * 0.5 then PartiallyCorrect
    else Incorrect
  }

  /** For a positive maximum, comparing points with a fraction of it is
      comparing the points' share of it with that fraction. */
  lemma DivideThresholds(points: int, max: int)
    ensures max > 0 ==>
      (points as real >= max as real * 0.9 <==> points as real / max as real >= 0.9) &&
      (points as real >= max as real * 0.5 <==> points as real / max as real >= 0.5)
  {
    if max > 0 {
      var r := points as real / max as real;
      assert points as real == r * max as real;
    }
  }

  /** The grading built from a usable oracle reply: the oracle's points
      (default 0) and checks (default none) taken as they come, out of the
      rubric total, which is 0 without a rubric. */
  function FromPoints(q: Question, points: int, checks: seq<Check>): (g: Grading)
    ensures g.pointsAwarded == points && g.checks == checks
    ensures g.pointsPossible == Total(q.Breakdown())
    ensures g.decision == PointsDecision(points, Total(q.Breakdown()))
    ensures g.questionId == q.id && g.guarded
  {
    Grading(q.id, points, Total(q.Breakdown()), PointsDecision(points, Total(q.Breakdown())), checks, true)
  }

  /** `_fallback_grading` of the older engine: the keyword ratio scored out
      of 10 and decided at 0.7 and 0.4, with the completeness check met
      exactly when the decision is "correct". */
  function LegacyKeywordFallback(q: Question, answer: string, canonical: string): (g: Grading)
    ensures var ratio := KeywordRatio(canonical, answer);
      g.pointsAwarded == TruncatedPoints(ratio, 10) &&
      g.decision == Decide(ratio, 0.7, 0.4) &&
      g.checks == [Check("Answer completeness", ratio >= 0.7)]
    ensures g.checks[0].met <==> g.decision == Correct
    ensures 0 <= g.pointsAwarded <= 10 && g.pointsPossible == 10
    ensures g.questionId == q.id && !g.guarded
  {
    var ratio := KeywordRatio(canonical, answer);
    Grading(q.id, TruncatedPoints(ratio, 10), 10, Decide(ratio, 0.7, 0.4),
            [Check("Answer completeness", ratio >= 0.7)], false)
  }

  /** The two fallbacks award the same points, and the older one is never
      harsher in its decision. */
  lemma FallbacksAgreeOnPoints(q: Question, answer: string, canonical: string)
    ensures LegacyKeywordFallback(q, answer, canonical).pointsAwarded ==
            KeywordFallback(q, answer, canonical).pointsAwarded
    ensures KeywordFallback(q, answer, canonical).decision == Correct ==>
            LegacyKeywordFallback(q, answer, canonical).decision == Correct
    ensures KeywordFallback(q, answer, canonical).decision == PartiallyCorrect ==>
            LegacyKeywordFallback(q, answer, canonical).decision != Incorrect
  {
  }

  /** `_grade_open_ended` of the older engine after the oracle has answered
      `reply`: an exception, a falsy reply or an "error" key fall back to
      keyword matching. */
  function LegacyGradeOpen(q: Question, answer: string, reply: LegacyGradeReply): (g: Grading)
    ensures !reply.LegacyGradeReply? || reply.hasError ==>
      g == LegacyKeywordFallback(q, answer, q.Canonical())
    ensures reply.LegacyGradeReply? && !reply.hasError ==>
      g == FromPoints(q, reply.points.GetOr(0), reply.checks.GetOr([]))
  {
    match reply
    case Raised => LegacyKeywordFallback(q, answer, q.Canonical())
    case Falsy => LegacyKeywordFallback(q, answer, q.Canonical())
    case LegacyGradeReply(hasError, points, checks) =>
      if hasError then LegacyKeywordFallback(q, answer, q.Canonical())
      else FromPoints(q, points.GetOr(0), checks.GetOr([]))
  }

  /** `grade_answer` of the older engine: the same dispatch on the type, with
      the single-choice scorer shared with the newer engine. */
  function LegacyGradeAnswer(q: Question, answer: string, reply: LegacyGradeReply): (g: Grading)
    requires Gradable(q)
    ensures q.qtype == "mcq_single" ==> g == GradeSingle(q, answer)
    ensures q.qtype == "mcq_multi" ==>
      g == LegacyMultiGrading(q.id, q.key.maxPoints, UserLetters(answer), CorrectLetters(q.Correct()))
    ensures q.qtype != "mcq_single" && q.qtype != "mcq_multi" ==> g == LegacyGradeOpen(q, answer, reply)
    ensures g.questionId == q.id
  {
    if q.qtype == "mcq_single" then GradeSingle(q, answer)
    else if q.qtype == "mcq_multi" then
      LegacyMultiGrading(q.id, q.key.maxPoints, UserLetters(answer), CorrectLetters(q.Correct()))
    else LegacyGradeOpen(q, answer, reply)
  }
}
