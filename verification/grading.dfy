/**
 * The grading engine of quizzer-v2/src/engines/grading_engine.py: dispatch
 * on the question type, the two choice scorers, the logic that follows the
 * oracle's verdict for open answers, and the keyword fallback used when the
 * oracle fails. Ratios are exact reals; `int()` and `round()` are
 * `Numeric.Trunc` and `Numeric.RoundHalfEven`.
 */
module Grading {
  import opened Text
  import opened Opt
  import opened Numeric
  import opened Questions

  datatype Decision = Correct | PartiallyCorrect | Incorrect

  /** One rubric check of a grading: the criterion and whether it is met. */
  datatype Check = Check(criterion: string, met: bool)

  /** The `grading` object. The two guard flags always carry the same value
      and are kept as one field; evidence and explanation texts are left out. */
  datatype Grading = Grading(
    questionId: string,
    pointsAwarded: int,
    pointsPossible: int,
    decision: Decision,
    checks: seq<Check>,
    guarded: bool)

  /** The decision for a ratio against an upper and a lower threshold. */
  function Decide(ratio: real, high: real, low: real): (d: Decision)
    ensures d == Correct <==> ratio >= high
    ensures d == PartiallyCorrect <==> low <= ratio < high
    ensures d == Incorrect <==> ratio < low && ratio < high
  {
    if ratio >= high then Correct
    else if ratio >= low then PartiallyCorrect
    else Incorrect
  }

  // ---------------------------------------------------------------------------
  // Single choice
  // ---------------------------------------------------------------------------

  /** An answer-key entry the source can normalise: empty, or holding a
      non-whitespace character (`c.strip().upper()[0]` fails otherwise). */
  predicate Normalisable(c: string) {
    c == "" || !AllSpace(c)
  }

  /** `c.strip().upper()[0] if c else ""` */
  function NormChoice(c: string): (r: string)
    requires Normalisable(c)
    ensures c == "" ==> r == ""
    ensures c != "" ==> |r| == 1 && !IsSpace(r[0])
  {
    if c == "" then ""
    else
      StripShape(c);
      var s := Upper(Strip(c));
      [s[0]]
  }

  /** The user's choice: the stripped, upper-cased answer cut to its first
      character. */
  function UserChoice(answer: string): (r: string)
    ensures |r| <= 1
    ensures r == "" <==> AllSpace(answer)
  {
    StripShape(answer);
    var u := Upper(Strip(answer));
    if |u| > 1 then u[..1] else u
  }

  function NormChoices(correct: seq<string>): (r: seq<string>)
    requires forall i :: 0 <= i < |correct| ==> Normalisable(correct[i])
    ensures |r| == |correct|
    ensures forall i :: 0 <= i < |r| ==> r[i] == NormChoice(correct[i])
  {
    seq(|correct|, i requires 0 <= i < |correct| => NormChoice(correct[i]))
  }

  /** `_grade_mcq_single`: full points exactly when the user's choice is among
      the normalised correct entries, nothing otherwise. The key needs one
      entry at least: the explanation reads `correct_choices[0]`. */
  function GradeSingle(q: Question, answer: string): (g: Grading)
    requires |q.Correct()| > 0
    requires forall i :: 0 <= i < |q.Correct()| ==> Normalisable(q.Correct()[i])
    ensures var hit := exists i :: 0 <= i < |q.Correct()| && NormChoice(q.Correct()[i]) == UserChoice(answer);
      g.pointsAwarded == (if hit then q.key.maxPoints else 0) &&
      g.decision == (if hit then Correct else Incorrect) &&
      g.checks == [Check("Selected correct option", hit)]
    ensures g.questionId == q.id && g.pointsPossible == q.key.maxPoints && g.guarded
  {
    var choices := NormChoices(q.Correct());
    var hit := UserChoice(answer) in choices;
    Grading(q.id, if hit then q.key.maxPoints else 0, q.key.maxPoints,
            if hit then Correct else Incorrect, [Check("Selected correct option", hit)], true)
  }

  /** An empty key entry normalises to "" and so accepts a blank answer. */
  lemma BlankAnswerMatchesEmptyEntry(q: Question, answer: string)
    requires |q.Correct()| > 0
    requires forall i :: 0 <= i < |q.Correct()| ==> Normalisable(q.Correct()[i])
    requires "" in q.Correct() && AllSpace(answer)
    ensures GradeSingle(q, answer).pointsAwarded == q.key.maxPoints
    ensures GradeSingle(q, answer).decision == Correct
  {
    var i :| 0 <= i < |q.Correct()| && q.Correct()[i] == "";
    assert NormChoice(q.Correct()[i]) == UserChoice(answer);
  }

  // ---------------------------------------------------------------------------
  // Multiple choice
  // ---------------------------------------------------------------------------

  /** The letters of an answer like "a, c": upper-cased, spaces removed, split
      on ",", and the first character of each piece that starts with a letter. */
  function UserLetters(answer: string): (u: set<char>)
    ensures forall c :: c in u ==> IsAlpha(c)
  {
    var parts := SplitOn(RemoveChars(Upper(answer), {' '}), ',');
    set p | p in parts && p != "" && IsAlpha(p[0]) :: p[0]
  }

  /** The normalised letters of the non-empty key entries. */
  function CorrectLetters(correct: seq<string>): (c: set<char>)
    requires forall i :: 0 <= i < |correct| ==> Normalisable(correct[i])
  {
    set i | 0 <= i < |correct| && correct[i] != "" :: NormChoice(correct[i])[0]
  }

  /** The upper-cased first letters of the options that start with a letter. */
  function OptionLetters(options: seq<string>): (o: set<char>)
    ensures forall c :: c in o ==> IsAlpha(c)
  {
    set i | 0 <= i < |options| && options[i] != "" && IsAlpha(options[i][0]) :: UpperChar(options[i][0])
  }

  /** The score ratio of `_grade_mcq_multi` for selected letters `u`, correct
      letters `c` and option letters `o`: the share of correct letters chosen
      minus the share of incorrect options chosen, clamped to [0, 1]. The
      incorrect options are the option letters that are not correct. */
  function MultiRatio(u: set<char>, c: set<char>, o: set<char>): (r: real)
    ensures 0.0 <= r <= 1.0
    ensures |c| == 0 ==> r == 0.0
  {
    var wrong := o - c;
    if |c| == 0 then 0.0
    else Clamp(Share(|u * c|, |c|) - Share(|u * wrong|, |wrong|), 0.0, 1.0)
  }

  /** Choosing exactly the correct letters scores 1. */
  lemma ExactSelectionScoresOne(c: set<char>, o: set<char>)
    requires |c| > 0
    ensures MultiRatio(c, c, o) == 1.0
  {
    assert c * c == c;
    assert c * (o - c) == {};
  }

  /** A letter that is neither an option nor correct changes nothing. */
  lemma StrayLetterIsFree(u: set<char>, c: set<char>, o: set<char>, x: char)
    requires x !in o && x !in c
    ensures MultiRatio(u + {x}, c, o) == MultiRatio(u, c, o)
  {
    assert (u + {x}) * c == u * c;
    assert (u + {x}) * (o - c) == u * (o - c);
  }

  /** Choosing one more incorrect option never raises the ratio. */
  lemma WrongLetterNeverHelps(u: set<char>, c: set<char>, o: set<char>, x: char)
    requires x in o && x !in c && x !in u
    ensures MultiRatio(u + {x}, c, o) <= MultiRatio(u, c, o)
  {
    var wrong := o - c;
    assert (u + {x}) * c == u * c;
    assert (u + {x}) * wrong == u * wrong + {x};
    ShareMonotone(|u * wrong|, |(u + {x}) * wrong|, |wrong|);
  }

  /** A share in [0, 1] of a non-negative maximum rounds into [0, max]. */
  lemma RoundedShareWithin(ratio: real, max: int)
    ensures 0.0 <= ratio <= 1.0 && max >= 0 ==> 0 <= RoundHalfEven(ratio * max as real) <= max
  {
    if 0.0 <= ratio <= 1.0 && max >= 0 {
      ScaleWithin(ratio, max);
      RoundWithin(ratio * max as real, 0, max);
    }
  }

  /** The two checks of a multiple-choice grading. */
  function MultiChecks(u: set<char>, c: set<char>, o: set<char>): (checks: seq<Check>)
    ensures |checks| == 2
    ensures checks[0] == Check("Selected all correct options", c <= u)
    ensures checks[1] == Check("No incorrect options selected", u * (o - c) == {})
  {
    assert |u * c| == |c| <==> c <= u by {
      if |u * c| == |c| {
        assert u * c <= c;
        SubsetOfSameSize(u * c, c);
      }
      if c <= u {
        assert u * c == c;
      }
    }
    assert |u * (o - c)| == 0 <==> u * (o - c) == {};
    [Check("Selected all correct options", |u * c| == |c|),
     Check("No incorrect options selected", |u * (o - c)| == 0)]
  }

  lemma {:induction false} SubsetCard(a: set<char>, b: set<char>)
    requires a <= b
    ensures |a| <= |b|
    decreases |a|
  {
    if a != {} {
      var x :| x in a;
      SubsetCard(a - {x}, b - {x});
    }
  }

  lemma SubsetOfSameSize(a: set<char>, b: set<char>)
    requires a <= b && |a| == |b|
    ensures a == b
  {
    if a != b {
      var x :| x in b && x !in a;
      SubsetCard(a, b - {x});
    }
  }

  /** `round(ratio * max_points)`: within [0, max] for a ratio in [0, 1]. */
  function RoundedPoints(ratio: real, max: int): (p: int)
    ensures 0.0 <= ratio <= 1.0 && max >= 0 ==> 0 <= p <= max
    ensures ratio == 1.0 ==> p == max
    ensures ratio == 0.0 ==> p == 0
  {
    RoundedShareWithin(ratio, max);
    RoundOfInt(max);
    RoundOfInt(0);
    RoundHalfEven(ratio * max as real)
  }

  /** The multiple-choice grading for selected letters `u`, correct letters
      `c` and option letters `o`. */
  function MultiGrading(id: string, maxPoints: int, u: set<char>, c: set<char>, o: set<char>): (g: Grading)
    ensures g.pointsAwarded == RoundedPoints(MultiRatio(u, c, o), maxPoints)
    ensures g.decision == Decide(MultiRatio(u, c, o), 0.9, 0.4)
    ensures g.checks == MultiChecks(u, c, o)
    ensures maxPoints >= 0 ==> 0 <= g.pointsAwarded <= maxPoints
    ensures g.questionId == id && g.pointsPossible == maxPoints && g.guarded
  {
    var ratio := MultiRatio(u, c, o);
    Grading(id, RoundedPoints(ratio, maxPoints), maxPoints,
            Decide(ratio, 0.9, 0.4), MultiChecks(u, c, o), true)
  }

  // ---------------------------------------------------------------------------
  // Open answers
  // ---------------------------------------------------------------------------

  /** What the grading oracle gives back; a field is `None` when absent. */
  datatype GradeReply =
    | Raised
    | Falsy
    | GradeReply(hasError: bool, score: Option<real>, verdict: Option<string>)

  /** The answer the short-answer guard measures: stripped, without any
      `.` `,` `!` `?`, and stripped again. */
  function Meaningful(answer: string): string {
    Strip(RemoveChars(Strip(answer), {'.', ',', '!', '?'}))
  }

  /** `verdict_map.get(verdict, "incorrect")` */
  function VerdictDecision(verdict: string): (d: Decision)
    ensures d == Correct <==> verdict == "exact" || verdict == "semantically_correct"
    ensures d == PartiallyCorrect <==> verdict == "partially_correct"
  {
    if verdict == "exact" || verdict == "semantically_correct" then Correct
    else if verdict == "partially_correct" then PartiallyCorrect
    else Incorrect
  }

  /** The maximum of an open question: its rubric total, or 10 without one. */
  function OpenMax(q: Question): int {
    if q.Breakdown() == [] then 10 else Total(q.Breakdown())
  }

  /** One check per rubric line, all with the same outcome. */
  function RubricChecks(breakdown: seq<Criterion>, met: bool): (checks: seq<Check>)
    ensures |checks| == |breakdown|
    ensures forall i :: 0 <= i < |checks| ==>
      checks[i].criterion == breakdown[i].criterion && checks[i].met == met
  {
    seq(|breakdown|, i requires 0 <= i < |breakdown| => Check(breakdown[i].criterion, met))
  }

  /** The grading built from a usable oracle verdict: `score` and `verdict`
      with their defaults 0.0 and "incorrect", overridden by the
      short-answer guard. */
  function FromVerdict(q: Question, answer: string, score: real, verdict: string): (g: Grading)
    ensures g.pointsPossible == OpenMax(q) && g.guarded && g.questionId == q.id
    ensures |Meaningful(answer)| < 5 ==>
      g.pointsAwarded == 0 && g.decision == Incorrect &&
      g.checks == RubricChecks(q.Breakdown(), false)
    ensures |Meaningful(answer)| >= 5 ==>
      g.pointsAwarded == TruncatedPoints(score, OpenMax(q)) &&
      g.decision == VerdictDecision(verdict) &&
      g.checks == RubricChecks(q.Breakdown(), score >= 0.7)
    ensures 0.0 <= score <= 1.0 && OpenMax(q) >= 0 ==> 0 <= g.pointsAwarded <= OpenMax(q)
  {
    if |Meaningful(answer)| < 5 then
      Grading(q.id, 0, OpenMax(q), Incorrect, RubricChecks(q.Breakdown(), false), true)
    else
      Grading(q.id, TruncatedPoints(score, OpenMax(q)), OpenMax(q), VerdictDecision(verdict),
              RubricChecks(q.Breakdown(), score >= 0.7), true)
  }

  /** A share in [0, 1] of a non-negative maximum truncates into [0, max]. */
  lemma TruncatedShareWithin(ratio: real, max: int)
    ensures 0.0 <= ratio <= 1.0 && max >= 0 ==> 0 <= Trunc(ratio * max as real) <= max
  {
    if 0.0 <= ratio <= 1.0 && max >= 0 {
      ScaleWithin(ratio, max);
      TruncWithin(ratio * max as real, 0, max);
    }
  }

  /** `int(ratio * max_points)`: within [0, max] for a ratio in [0, 1]. */
  function TruncatedPoints(ratio: real, max: int): (p: int)
    ensures 0.0 <= ratio <= 1.0 && max >= 0 ==> 0 <= p <= max
    ensures ratio == 1.0 ==> p == max
    ensures ratio == 0.0 ==> p == 0
  {
    TruncatedShareWithin(ratio, max);
    TruncOfInt(max);
    TruncOfInt(0);
    Trunc(ratio * max as real)
  }

  /** The key terms of a canonical answer: its lower-cased words longer than
      four characters, repeats included. */
  function KeyTerms(words: seq<string>): (terms: seq<string>)
    ensures |terms| <= |words|
    ensures forall i :: 0 <= i < |terms| ==> |terms[i]| > 4 && terms[i] in words
    ensures forall i :: 0 <= i < |words| && |words[i]| > 4 ==> words[i] in terms
  {
    if words == [] then []
    else if |words[0]| > 4 then [words[0]] + KeyTerms(words[1..])
    else KeyTerms(words[1..])
  }

  /** How many of `terms` (repeats counted) occur in `hay`. */
  function Matches(terms: seq<string>, hay: string): (n: nat)
    ensures n <= |terms|
    ensures n == |terms| <==> forall i :: 0 <= i < |terms| ==> Contains(hay, terms[i])
    ensures n == 0 <==> forall i :: 0 <= i < |terms| ==> !Contains(hay, terms[i])
  {
    if terms == [] then 0
    else (if Contains(hay, terms[0]) then 1 else 0) + Matches(terms[1..], hay)
  }

  /** The key terms of a canonical answer. */
  function CanonicalTerms(canonical: string): seq<string> {
    KeyTerms(Words(Lower(canonical)))
  }

  /** There are terms and `hay` holds every one of them. */
  predicate AllFound(terms: seq<string>, hay: string) {
    terms != [] && forall i :: 0 <= i < |terms| ==> Contains(hay, terms[i])
  }

  /** The fraction of `terms` found in `hay`: 1 exactly when all of them
      are, and 0 when there are none. */
  function TermRatio(terms: seq<string>, hay: string): (r: real)
    ensures 0.0 <= r <= 1.0
    ensures terms == [] ==> r == 0.0
    ensures r == 1.0 <==> AllFound(terms, hay)
  {
    var n := Matches(terms, hay);
    assert terms != [] && n < |terms| ==> Share(n, |terms|) < 1.0;
    Share(n, |terms|)
  }

  /** The fraction of key terms of `canonical` found in the lower-cased
      `answer`. */
  function KeywordRatio(canonical: string, answer: string): real {
    TermRatio(CanonicalTerms(canonical), Lower(answer))
  }

  /** `_fallback_grading`: the keyword ratio scored out of 10, thresholds 0.9
      and 0.4, one completeness check met from 0.7, and both guards off. */
  function KeywordFallback(q: Question, answer: string, canonical: string): (g: Grading)
    ensures var ratio := KeywordRatio(canonical, answer);
      g.pointsAwarded == TruncatedPoints(ratio, 10) &&
      g.decision == Decide(ratio, 0.9, 0.4) &&
      g.checks == [Check("Answer completeness", ratio >= 0.7)]
    ensures 0 <= g.pointsAwarded <= 10 && g.pointsPossible == 10
    ensures g.questionId == q.id && !g.guarded
    ensures AllFound(CanonicalTerms(canonical), Lower(answer)) ==>
      g.pointsAwarded == 10 && g.decision == Correct
  {
    var ratio := KeywordRatio(canonical, answer);
    Grading(q.id, TruncatedPoints(ratio, 10), 10, Decide(ratio, 0.9, 0.4),
            [Check("Answer completeness", ratio >= 0.7)], false)
  }

  /** `_grade_open_ended` after the oracle has answered `reply`: an exception,
      a falsy reply or an "error" key fall back to keyword matching. */
  function GradeOpen(q: Question, answer: string, reply: GradeReply): (g: Grading)
    ensures !reply.GradeReply? || reply.hasError ==> g == KeywordFallback(q, answer, q.Canonical())
    ensures reply.GradeReply? && !reply.hasError ==>
      g == FromVerdict(q, answer, reply.score.GetOr(0.0), reply.verdict.GetOr("incorrect"))
  {
    match reply
    case Raised => KeywordFallback(q, answer, q.Canonical())
    case Falsy => KeywordFallback(q, answer, q.Canonical())
    case GradeReply(hasError, score, verdict) =>
      if hasError then KeywordFallback(q, answer, q.Canonical())
      else FromVerdict(q, answer, score.GetOr(0.0), verdict.GetOr("incorrect"))
  }

  /** What the choice scorers need of a question's key. */
  predicate Gradable(q: Question) {
    (q.qtype == "mcq_single" ==> |q.Correct()| > 0) &&
    (q.qtype == "mcq_single" || q.qtype == "mcq_multi" ==>
      forall i :: 0 <= i < |q.Correct()| ==> Normalisable(q.Correct()[i]))
  }

  /** `grade_answer`: "mcq_single" and "mcq_multi" go to their scorers and
      every other type is graded as an open answer. */
  function GradeAnswer(q: Question, answer: string, reply: GradeReply): (g: Grading)
    requires Gradable(q)
    ensures q.qtype == "mcq_single" ==> g == GradeSingle(q, answer)
    ensures q.qtype == "mcq_multi" ==>
      g == MultiGrading(q.id, q.key.maxPoints, UserLetters(answer), CorrectLetters(q.Correct()), OptionLetters(q.options))
    ensures q.qtype != "mcq_single" && q.qtype != "mcq_multi" ==> g == GradeOpen(q, answer, reply)
    ensures g.questionId == q.id
  {
    if q.qtype == "mcq_single" then GradeSingle(q, answer)
    else if q.qtype == "mcq_multi" then
      MultiGrading(q.id, q.key.maxPoints, UserLetters(answer), CorrectLetters(q.Correct()), OptionLetters(q.options))
    else GradeOpen(q, answer, reply)
  }
}
