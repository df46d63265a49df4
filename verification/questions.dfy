/**
 * The question record both generators emit and every grader and session
 * consumes, and the rubric synthesis `_generate_rubric`, which is the same
 * code in quizzer-v2/src/engines/question_generator.py,
 * quizzer/src/engines/question_generator.py and the older
 * quizzer-v2/question_generator.py.
 */
module Questions {
  import opened Text
  import opened Opt
  import opened Numeric
  import opened Grounding

  /** One rubric line: what is checked and how many points it carries. */
  datatype Criterion = Criterion(criterion: string, points: int)

  /** The `answer_key` of a question. Choice questions carry the correct
      options; every other type carries a canonical answer and a point
      breakdown. `explanation` is absent in the older generator. */
  datatype AnswerKey =
    | ChoiceKey(correct: seq<string>, concepts: seq<string>, maxPoints: int,
                explanation: Option<string>)
    | OpenKey(canonical: string, concepts: seq<string>, breakdown: seq<Criterion>,
              maxPoints: int, explanation: Option<string>)

  /** A generated question. The rubric flags other than `strict_concepts` are
      the constant `True` in every generator and are not kept. */
  datatype Question = Question(
    id: string,
    qtype: string,
    prompt: string,
    grounding: seq<Citation>,
    strictConcepts: bool,
    options: seq<string>,
    key: AnswerKey)
  {
    /** `answer_key.get("correct", [])` */
    function Correct(): seq<string> {
      if key.ChoiceKey? then key.correct else []
    }

    /** `answer_key.get("point_breakdown", [])` */
    function Breakdown(): seq<Criterion> {
      if key.OpenKey? then key.breakdown else []
    }

    /** `answer_key.get("canonical_answer", "")` */
    function Canonical(): string {
      if key.OpenKey? then key.canonical else ""
    }
  }

  /** The question id `f"q{n}"`. */
  function QId(n: nat): (id: string)
    ensures |id| >= 2 && id[0] == 'q'
  {
    "q" + NatToString(n)
  }

  /** Distinct counters give distinct ids. */
  lemma QIdInjective(a: nat, b: nat)
    requires a != b
    ensures QId(a) != QId(b)
  {
    if QId(a) == QId(b) {
      assert QId(a)[1..] == NatToString(a);
      assert QId(b)[1..] == NatToString(b);
      NatToStringInjective(a, b);
    }
  }

  // ---------------------------------------------------------------------------
  // _generate_rubric
  // ---------------------------------------------------------------------------

  /** The sum of the points of a rubric. */
  function Total(rubric: seq<Criterion>): int {
    if rubric == [] then 0 else rubric[0].points + Total(rubric[1..])
  }

  lemma {:induction false} TotalAppend(a: seq<Criterion>, b: seq<Criterion>)
    ensures Total(a + b) == Total(a) + Total(b)
    decreases |a|
  {
    if a == [] {
      assert a + b == b;
    } else {
      assert (a + b)[0] == a[0];
      assert (a + b)[1..] == a[1..] + b;
      TotalAppend(a[1..], b);
    }
  }

  /** A rubric whose lines all carry `p` points totals `|rubric| * p`. */
  lemma {:induction false} TotalUniform(rubric: seq<Criterion>, p: int)
    requires forall i :: 0 <= i < |rubric| ==> rubric[i].points == p
    ensures Total(rubric) == |rubric| * p
    decreases |rubric|
  {
    if rubric != [] {
      TotalUniform(rubric[1..], p);
    }
  }

  const CompletenessCriterion := "Answer is complete, accurate, and follows reasoning from notes"

  function ConceptCriterion(concept: string): string {
    "Correctly explains/uses concept: " + concept
  }

  /** The concepts the rubric is written for: the given ones, or the topic
      alone when there are none. */
  function RubricConcepts(topic: string, concepts: seq<string>): (cs: seq<string>)
    ensures |cs| >= 1
    ensures concepts != [] ==> cs == concepts
  {
    if concepts == [] then [topic] else concepts
  }

  /** `int(max_points * 0.7) // len(concepts)`: the points of one concept line. */
  function PointsPerConcept(maxPoints: int, n: nat): int
    requires n >= 1
  {
    Trunc(maxPoints as real * 0.7) / n
  }

  /** `_generate_rubric`: one line per concept with an equal share of 70 % of
      the points, then the completeness line that takes the remainder. */
  function GenerateRubric(topic: string, maxPoints: int, concepts: seq<string>): (rubric: seq<Criterion>)
    ensures var cs := RubricConcepts(topic, concepts);
      |rubric| == |cs| + 1 &&
      (forall i :: 0 <= i < |cs| ==>
        rubric[i] == Criterion(ConceptCriterion(cs[i]), PointsPerConcept(maxPoints, |cs|))) &&
      rubric[|cs|].criterion == CompletenessCriterion
  {
    var cs := RubricConcepts(topic, concepts);
    var ppc := PointsPerConcept(maxPoints, |cs|);
    var lines := seq(|cs|, i requires 0 <= i < |cs| => Criterion(ConceptCriterion(cs[i]), ppc));
    lines + [Criterion(CompletenessCriterion, maxPoints - |cs| * ppc)]
  }

  /** The points of a synthesised rubric always sum to the maximum. */
  lemma RubricSums(topic: string, maxPoints: int, concepts: seq<string>)
    ensures Total(GenerateRubric(topic, maxPoints, concepts)) == maxPoints
  {
    var r := GenerateRubric(topic, maxPoints, concepts);
    var n := |r| - 1;
    var ppc := PointsPerConcept(maxPoints, n);
    assert r == r[..n] + [r[n]];
    TotalAppend(r[..n], [r[n]]);
    TotalUniform(r[..n], ppc);
    assert Total([r[n]]) == r[n].points;
  }

  /** With a non-negative maximum, every line is non-negative, the concept
      lines share at most 70 % of the points and the completeness line gets
      at least the remaining 30 %. */
  lemma RubricShares(topic: string, maxPoints: int, concepts: seq<string>)
    requires maxPoints >= 0
    ensures var r := GenerateRubric(topic, maxPoints, concepts);
      (forall i :: 0 <= i < |r| ==> r[i].points >= 0) &&
      (|r| - 1) * r[0].points <= Trunc(maxPoints as real * 0.7) &&
      r[|r| - 1].points as real >= maxPoints as real * 0.3
  {
    var r := GenerateRubric(topic, maxPoints, concepts);
    var n := |r| - 1;
    var t := Trunc(maxPoints as real * 0.7);
    var ppc := t / n;
    SeventyPercentShare(maxPoints, t, n, ppc);
    assert r[0].points == ppc;
    RubricSums(topic, maxPoints, concepts);
    assert r[n].points == maxPoints - n * ppc;
  }

  /** The arithmetic behind the shares: `n` equal floor shares of the
      truncated 70 % stay within it and leave at least 30 %. */
  lemma SeventyPercentShare(maxPoints: int, t: int, n: int, ppc: int)
    requires maxPoints >= 0 && n >= 1 && t == Trunc(maxPoints as real * 0.7) && ppc == t / n
    ensures ppc >= 0 && n * ppc <= t
    ensures (maxPoints - n * ppc) as real >= maxPoints as real * 0.3
  {
    assert t >= 0;
    assert n * ppc <= t by {
      assert t == n * (t / n) + t % n;
    }
    assert t as real <= maxPoints as real * 0.7;
  }
}
