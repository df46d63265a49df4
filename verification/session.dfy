/**
 * The quiz session of quizzer/src/engines/quizzer_v2_engine.py: questions
 * are generated one at a time, on demand, behind a cursor. The session is an
 * immutable record and every method a function from the old session to the
 * new one and its answer. Each run of the question generator is a parameter
 * `produced`: the first question of the run's result, if any. The user store
 * is reduced to the session id it hands out and the stars it is given.
 */
module Session {
  import opened Text
  import opened Opt
  import opened Questions
  import opened Grading
  import Engine = Grading
  import Generator
  import opened Courses

  /** `current_quiz`: its course, its `question_count` and its questions.
      `notes_used` is always empty and `lazy_generation` always true. */
  datatype Quiz = Quiz(course: string, questionCount: int, questions: seq<Question>)

  /** The session fields of `QuizzerV2`. */
  datatype Session = Session(
    quiz: Option<Quiz>,
    cursor: nat,
    request: Option<Generator.GenRequest>,
    generated: seq<Question>,
    userId: Option<int>,
    sessionId: Option<int>,
    totalPoints: int,
    maxPoints: int,
    course: Option<string>)

  /** The session of a fresh engine. */
  const Initial := Session(None, 0, None, [], None, None, 0, 0, None)

  /** Python truthiness of an optional id: present and not 0. */
  predicate Truthy(id: Option<int>) {
    id.Some? && id.value != 0
  }

  /** `num_questions` of the stored request, 10 when it has none. */
  function Requested(s: Session): int
    requires s.request.Some?
  {
    Generator.NumOf(s.request.value)
  }

  // ---------------------------------------------------------------------------
  // Invariant
  // ---------------------------------------------------------------------------

  /** The ids of `qs` are "q1", "q2", ... in order. */
  predicate Numbered(qs: seq<Question>) {
    forall i :: 0 <= i < |qs| ==> qs[i].id == QId(i + 1)
  }

  /** What the lazy session keeps true: a quiz exists only with a stored
      request, and its questions are exactly the generated ones; the
      generated questions are numbered from "q1" and there are at most
      `max(1, num_questions)` of them; nothing is generated without a
      request. */
  predicate Consistent(s: Session) {
    (s.quiz.Some? ==> s.request.Some? && s.quiz.value.questions == s.generated) &&
    Numbered(s.generated) &&
    (s.request.None? ==> s.generated == []) &&
    (s.request.Some? ==> |s.generated| <= Max(1, Requested(s)))
  }

  /** Numbered questions carry pairwise distinct ids. */
  lemma NumberedIdsDistinct(qs: seq<Question>, i: int, j: int)
    requires Numbered(qs)
    requires 0 <= i < j < |qs|
    ensures qs[i].id != qs[j].id
  {
    QIdInjective(i + 1, j + 1);
  }

  lemma InitialConsistent()
    ensures Consistent(Initial)
  {
  }

  // ---------------------------------------------------------------------------
  // _generate_next_question
  // ---------------------------------------------------------------------------

  /** `_generate_next_question`: nothing without a stored request; otherwise
      the first question the generator produced, renumbered as the next
      sequential id. */
  function NextGenerated(s: Session, produced: Option<Question>): (q: Option<Question>)
    ensures q.Some? <==> s.request.Some? && produced.Some?
    ensures q.Some? ==> q.value == produced.value.(id := QId(|s.generated| + 1))
  {
    if s.request.None? || produced.None? then None
    else Some(produced.value.(id := QId(|s.generated| + 1)))
  }

  /** Appending the renumbered question keeps the numbering. */
  lemma NumberedAppend(s: Session, produced: Option<Question>)
    requires Numbered(s.generated) && NextGenerated(s, produced).Some?
    ensures Numbered(s.generated + [NextGenerated(s, produced).value])
  {
  }

  // ---------------------------------------------------------------------------
  // generate_quiz
  // ---------------------------------------------------------------------------

  /** What `generate_quiz` answers. */
  datatype Started =
    | CourseInvalid(available: seq<string>)
    | NotesMissing(files: seq<string>)
    | GenerationFailed
    | Started(quiz: Quiz)

  /** The session after the checks pass and before the first question: the
      request stored, the generated list, cursor and totals reset, the course
      selected, and a new session id when a user is logged in. */
  function Reset(s: Session, course: Course, req: Generator.GenRequest, newSessionId: int): (s': Session)
    ensures s'.request == Some(req) && s'.generated == [] && s'.cursor == 0
    ensures s'.totalPoints == 0 && s'.maxPoints == 0 && s'.course == Some(course.code)
    ensures s'.quiz == s.quiz && s'.userId == s.userId
    ensures s'.sessionId == if Truthy(s.userId) then Some(newSessionId) else s.sessionId
  {
    s.(request := Some(req), generated := [], cursor := 0, course := Some(course.code),
       totalPoints := 0, maxPoints := 0,
       sessionId := if Truthy(s.userId) then Some(newSessionId) else s.sessionId)
  }

  /** `generate_quiz` as written, once the request checks have given `p`.
      The two request errors leave the session untouched. Otherwise the
      session is reset and the first question generated; when that fails,
      `current_quiz` keeps whatever quiz was there before. */
  function StartQuiz(s: Session, p: Prepared, produced: Option<Question>, newSessionId: int): (r: (Session, Started))
    ensures p.InvalidCourse? ==> r == (s, CourseInvalid(p.available))
    ensures p.MissingNotes? ==> r == (s, NotesMissing(p.files))
    ensures p.Ready? && produced.Some? ==>
      var q := produced.value.(id := QId(1));
      r.1 == Started(Quiz(p.course.code, Generator.NumOf(p.req), [q])) &&
      r.0 == Reset(s, p.course, p.req, newSessionId).(generated := [q], quiz := Some(r.1.quiz))
    ensures p.Ready? && produced.None? ==>
      r == (Reset(s, p.course, p.req, newSessionId), GenerationFailed) && r.0.quiz == s.quiz
  {
    match p
    case InvalidCourse(available) => (s, CourseInvalid(available))
    case MissingNotes(files) => (s, NotesMissing(files))
    case Ready(course, r) =>
      var s1 := Reset(s, course, r, newSessionId);
      var first := NextGenerated(s1, produced);
      if first.Some? then
        var quiz := Quiz(course.code, Generator.NumOf(r), [first.value]);
        (s1.(generated := [first.value], quiz := Some(quiz)), Started(quiz))
      else (s1, GenerationFailed)
  }

  /** `generate_quiz`: the request checks, then the start of the quiz. An
      unknown course or a missing note leaves the session untouched; once
      both checks pass, the session holds the completed request and the
      course, and the quiz starts exactly when the first question comes. */
  function GenerateQuiz(s: Session, req: Generator.GenRequest, exists_: string -> bool,
                        produced: Option<Question>, newSessionId: int): (r: (Session, Started))
    ensures r.1.CourseInvalid? <==> req.course.None? || req.course.value !in Codes()
    ensures r.1.CourseInvalid? ==> r == (s, CourseInvalid(Codes()))
    ensures r.1.NotesMissing? ==>
      r.0 == s && r.1.files != [] && req.course.Some? && req.course.value in Codes() &&
      r.1.files == Missing(FilesOf(req, Lookup(req.course.value).value), exists_)
    ensures req.course.Some? && req.course.value in Codes() ==>
      (r.1.NotesMissing? <==> Missing(FilesOf(req, Lookup(req.course.value).value), exists_) != [])
    ensures r.1.Started? || r.1.GenerationFailed? ==>
      req.course.Some? && req.course.value in Codes() &&
      var files := FilesOf(req, Lookup(req.course.value).value);
      Missing(files, exists_) == [] &&
      r.0.request == Some(WithDefaults(req.(noteFiles := Some(files)))) &&
      r.0.course == req.course && r.0.cursor == 0 && r.0.totalPoints == 0 && r.0.maxPoints == 0 &&
      r.0.userId == s.userId &&
      r.0.sessionId == (if Truthy(s.userId) then Some(newSessionId) else s.sessionId)
    ensures r.1.Started? <==> !r.1.CourseInvalid? && !r.1.NotesMissing? && produced.Some?
    ensures r.1.Started? ==>
      r.1.quiz == Quiz(req.course.value, Generator.NumOf(req), [produced.value.(id := QId(1))]) &&
      r.0.quiz == Some(r.1.quiz) && r.0.generated == r.1.quiz.questions
    ensures r.1.GenerationFailed? ==> r.0.quiz == s.quiz && r.0.generated == []
  {
    StartQuiz(s, Prepare(req, exists_), produced, newSessionId)
  }

  /** `generate_quiz` with the stale quiz dropped: a failed first question
      leaves no active quiz behind. */
  function StartQuizFixed(s: Session, p: Prepared, produced: Option<Question>, newSessionId: int): (r: (Session, Started))
    ensures r.1 == StartQuiz(s, p, produced, newSessionId).1
    ensures r.1.GenerationFailed? ==> r.0 == StartQuiz(s, p, produced, newSessionId).0.(quiz := None)
    ensures !r.1.GenerationFailed? ==> r.0 == StartQuiz(s, p, produced, newSessionId).0
  {
    var r := StartQuiz(s, p, produced, newSessionId);
    if r.1.GenerationFailed? then (r.0.(quiz := None), r.1) else r
  }

  /** The corrected start keeps the session consistent. */
  lemma StartQuizFixedConsistent(s: Session, p: Prepared, produced: Option<Question>, newSessionId: int)
    requires Consistent(s)
    ensures Consistent(StartQuizFixed(s, p, produced, newSessionId).0)
  {
    if p.Ready? && produced.Some? {
      var q := produced.value.(id := QId(1));
      assert Numbered([q]) by {
        assert [q][0].id == QId(0 + 1);
      }
    }
  }

  // ---------------------------------------------------------------------------
  // grade_answer
  // ---------------------------------------------------------------------------

  /** The first question of `qs` whose id is `id`; no question has no id. */
  function FindQuestion(qs: seq<Question>, id: Option<string>): (q: Option<Question>)
    ensures q.Some? <==> id.Some? && exists i :: 0 <= i < |qs| && qs[i].id == id.value
    ensures q.Some? ==> q.value in qs && q.value.id == id.value
  {
    if id.None? then None else FindFrom(qs, 0, id.value)
  }

  /** The first question from position `i` on that carries `id`. */
  function FindFrom(qs: seq<Question>, i: nat, id: string): (q: Option<Question>)
    requires i <= |qs|
    ensures q.Some? <==> exists j :: i <= j < |qs| && qs[j].id == id
    ensures q.Some? ==> q.value in qs && q.value.id == id
    decreases |qs| - i
  {
    if i == |qs| then None
    else if qs[i].id == id then Some(qs[i])
    else FindFrom(qs, i + 1, id)
  }

  /** In a numbered list, "q{k}" finds the k-th question. */
  lemma FindNumbered(qs: seq<Question>, k: nat)
    requires Numbered(qs) && 1 <= k <= |qs|
    ensures FindQuestion(qs, Some(QId(k))) == Some(qs[k - 1])
  {
    NumberedBefore(qs, k);
    FindFirst(qs, 0, k - 1, QId(k));
  }

  /** In a numbered list no question before the k-th carries "q{k}". */
  lemma NumberedBefore(qs: seq<Question>, k: nat)
    requires Numbered(qs) && 1 <= k <= |qs|
    ensures qs[k - 1].id == QId(k)
    ensures forall i :: 0 <= i < k - 1 ==> qs[i].id != QId(k)
  {
    forall i | 0 <= i < k - 1 ensures qs[i].id != QId(k) {
      QIdInjective(i + 1, k);
    }
  }

  /** The lookup finds the first question that carries the id. */
  lemma {:induction false} FindFirst(qs: seq<Question>, i: nat, k: nat, id: string)
    requires i <= k < |qs| && qs[k].id == id
    requires forall j :: i <= j < k ==> qs[j].id != id
    ensures FindFrom(qs, i, id) == Some(qs[k])
    decreases k - i
  {
    if i < k {
      FindFirst(qs, i + 1, k, id);
    }
  }

  /** What `grade_answer` answers. */
  datatype Graded = NoActiveQuiz | QuestionNotFound | Graded(grading: Grading)

  /** The question `questionId` names, when the active quiz has one, can be
      graded. */
  predicate TargetGradable(s: Session, questionId: Option<string>) {
    s.quiz.Some? && FindQuestion(s.quiz.value.questions, questionId).Some? ==>
      Gradable(FindQuestion(s.quiz.value.questions, questionId).value)
  }

  /** `grade_answer`: no quiz and an unknown id are errors that change
      nothing; otherwise the question is graded, and the session totals grow
      by the points awarded and possible when both a user and a session are
      set. `reply` is the grading oracle's answer. */
  function GradeAnswer(s: Session, questionId: Option<string>, answer: string,
                       reply: GradeReply): (r: (Session, Graded))
    requires TargetGradable(s, questionId)
    ensures s.quiz.None? ==> r == (s, NoActiveQuiz)
    ensures s.quiz.Some? && FindQuestion(s.quiz.value.questions, questionId).None? ==>
      r == (s, QuestionNotFound)
    ensures r.1.Graded? ==>
      var q := FindQuestion(s.quiz.value.questions, questionId).value;
      r.1.grading == Engine.GradeAnswer(q, answer, reply) &&
      (Truthy(s.userId) && Truthy(s.sessionId) ==>
        r.0 == s.(totalPoints := s.totalPoints + r.1.grading.pointsAwarded,
                  maxPoints := s.maxPoints + r.1.grading.pointsPossible)) &&
      (!(Truthy(s.userId) && Truthy(s.sessionId)) ==> r.0 == s)
    ensures r.0.quiz == s.quiz && r.0.generated == s.generated && r.0.cursor == s.cursor
  {
    if s.quiz.None? then (s, NoActiveQuiz)
    else
      var found := FindQuestion(s.quiz.value.questions, questionId);
      if found.None? then (s, QuestionNotFound)
      else
        var g := Engine.GradeAnswer(found.value, answer, reply);
        (Credit(s, g), Graded(g))
  }

  /** The totals after a grading: they grow only for a signed-in session. */
  function Credit(s: Session, g: Grading): (t: Session)
    ensures Truthy(s.userId) && Truthy(s.sessionId) ==>
      t == s.(totalPoints := s.totalPoints + g.pointsAwarded, maxPoints := s.maxPoints + g.pointsPossible)
    ensures !(Truthy(s.userId) && Truthy(s.sessionId)) ==> t == s
  {
    if Truthy(s.userId) && Truthy(s.sessionId) then
      s.(totalPoints := s.totalPoints + g.pointsAwarded, maxPoints := s.maxPoints + g.pointsPossible)
    else s
  }

  // ---------------------------------------------------------------------------
  // Cursor
  // ---------------------------------------------------------------------------

  /** `get_current_question`: the question under the cursor, if there is one. */
  function CurrentQuestion(s: Session): (q: Option<Question>)
    ensures q.Some? <==> s.quiz.Some? && s.cursor < |s.quiz.value.questions|
    ensures q.Some? ==> q.value == s.quiz.value.questions[s.cursor]
  {
    if s.quiz.None? || s.cursor >= |s.quiz.value.questions| then None
    else Some(s.quiz.value.questions[s.cursor])
  }

  /** `next_question`: with a quiz and a request, the cursor always moves on.
      At the end of the generated list a question is generated, unless the
      requested number is reached or generation fails, and then nothing is
      returned; otherwise the question under the new cursor is returned.
      Only a generated question changes the quiz. */
  function NextQuestion(s: Session, produced: Option<Question>): (r: (Session, Option<Question>))
    ensures s.quiz.None? || s.request.None? ==> r == (s, None)
    ensures s.quiz.Some? && s.request.Some? ==> r.0.cursor == s.cursor + 1
    ensures r.0.userId == s.userId && r.0.sessionId == s.sessionId && r.0.request == s.request
    ensures r.0.totalPoints == s.totalPoints && r.0.maxPoints == s.maxPoints
    ensures |r.0.generated| == |s.generated| || |r.0.generated| == |s.generated| + 1
    ensures |r.0.generated| == |s.generated| + 1 <==>
      s.quiz.Some? && s.request.Some? && s.cursor + 1 >= |s.generated| &&
      |s.generated| < Requested(s) && produced.Some?
    ensures |r.0.generated| == |s.generated| + 1 ==>
      r.1 == Some(r.0.generated[|s.generated|]) &&
      r.0.generated == s.generated + [produced.value.(id := QId(|s.generated| + 1))] &&
      r.0.quiz == Some(s.quiz.value.(questions := s.quiz.value.questions + [r.0.generated[|s.generated|]],
                                     questionCount := |s.generated| + 1))
    ensures r.0.course == s.course
    ensures |r.0.generated| == |s.generated| ==> r.0.quiz == s.quiz && r.0.generated == s.generated
    ensures s.quiz.Some? && s.request.Some? && |r.0.generated| == |s.generated| ==>
      r.1 == (if s.cursor + 1 < |s.generated| then CurrentQuestion(r.0) else None)
  {
    if s.quiz.None? || s.request.None? then (s, None)
    else
      var s1 := s.(cursor := s.cursor + 1);
      if s1.cursor >= |s.generated| then
        if |s.generated| < Requested(s) then
          var next := NextGenerated(s1, produced);
          if next.Some? then
            var quiz := s.quiz.value;
            var quiz' := quiz.(questions := quiz.questions + [next.value],
                               questionCount := |s.generated| + 1);
            (s1.(generated := s.generated + [next.value], quiz := Some(quiz')), next)
          else (s1, None)
        else (s1, None)
      else (s1, CurrentQuestion(s1))
  }

  /** `next_question` keeps the session consistent. */
  lemma NextQuestionConsistent(s: Session, produced: Option<Question>)
    requires Consistent(s)
    ensures Consistent(NextQuestion(s, produced).0)
  {
    var r := NextQuestion(s, produced);
    if |r.0.generated| == |s.generated| + 1 {
      NumberedAppend(s.(cursor := s.cursor + 1), produced);
    }
  }

  /** In a consistent session a move that generates nothing returns the
      question under the new cursor: the stored quiz is the generated list,
      so past its end there is none. */
  lemma NextQuestionReturnsCurrent(s: Session, produced: Option<Question>)
    requires Consistent(s)
    ensures var r := NextQuestion(s, produced);
      s.quiz.Some? && |r.0.generated| == |s.generated| ==> r.1 == CurrentQuestion(r.0)
  {
  }

  /** Grading keeps the session consistent. */
  lemma GradeAnswerConsistent(s: Session, questionId: Option<string>, answer: string, reply: GradeReply)
    requires Consistent(s) && TargetGradable(s, questionId)
    ensures Consistent(GradeAnswer(s, questionId, answer, reply).0)
  {
  }

  /** The generated count never passes `max(1, num_questions)`, however
      `next_question` is called. */
  lemma GeneratedBounded(s: Session, produced: Option<Question>)
    requires Consistent(s) && s.request.Some?
    ensures |NextQuestion(s, produced).0.generated| <= Max(1, Requested(s))
  {
    NextQuestionConsistent(s, produced);
  }

  // ---------------------------------------------------------------------------
  // Progress, stars, reset
  // ---------------------------------------------------------------------------

  /** What `get_quiz_progress` reports. */
  datatype Progress =
    | Inactive
    | Active(current: int, total: int, completed: bool, generatedSoFar: int)

  /** `get_quiz_progress`: without a quiz, inactive zeros; otherwise the
      one-based position, the requested total (the number of questions when
      no request is stored), whether the cursor has reached it, and how many
      questions exist. */
  function QuizProgress(s: Session): (p: Progress)
    ensures s.quiz.None? <==> p.Inactive?
    ensures p.Active? ==>
      var total := if s.request.Some? then Requested(s) else |s.quiz.value.questions|;
      p.current == s.cursor + 1 && p.total == total &&
      (p.completed <==> s.cursor >= total) && p.generatedSoFar == |s.generated|
  {
    if s.quiz.None? then Inactive
    else
      var total := if s.request.Some? then Requested(s) else |s.quiz.value.questions|;
      Active(s.cursor + 1, total, s.cursor >= total, |s.generated|)
  }

  /** The stars of `complete_quiz` for `total` points out of `max`: 5 from
      90 %, 4 from 80 %, 3 from 70 %, 2 from 60 %, else 1; and 1 when no
      points were possible. */
  function Stars(total: int, max: int): (stars: int)
    ensures 1 <= stars <= 5
    ensures max <= 0 ==> stars == 1
    ensures max > 0 ==> (stars == 5 <==> total as real * 10.0 >= max as real * 9.0)
    ensures max > 0 ==> (stars >= 4 <==> total as real * 10.0 >= max as real * 8.0)
    ensures max > 0 ==> (stars >= 3 <==> total as real * 10.0 >= max as real * 7.0)
    ensures max > 0 ==> (stars >= 2 <==> total as real * 10.0 >= max as real * 6.0)
  {
    if max > 0 then
      var percentage := total as real / max as real * 100.0;
      PercentageScale(total, max, 9);
      PercentageScale(total, max, 8);
      PercentageScale(total, max, 7);
      PercentageScale(total, max, 6);
      if percentage >= 90.0 then 5
      else if percentage >= 80.0 then 4
      else if percentage >= 70.0 then 3
      else if percentage >= 60.0 then 2
      else 1
    else 1
  }

  /** `total / max * 100 >= 10 k` is `10 total >= k max` for a positive max. */
  lemma PercentageScale(total: int, max: int, k: int)
    requires max > 0
    ensures total as real / max as real * 100.0 >= k as real * 10.0 <==>
            total as real * 10.0 >= max as real * k as real
  {
    var p := total as real / max as real;
    assert total as real == p * max as real;
  }

  /** More points out of the same maximum never earn fewer stars. */
  lemma StarsMonotone(t1: int, t2: int, max: int)
    requires t1 <= t2
    ensures Stars(t1, max) <= Stars(t2, max)
  {
  }

  /** `complete_quiz`: the stars recorded for the session, or nothing when no
      user or no session is set. */
  function CompleteQuiz(s: Session): (stars: Option<int>)
    ensures stars.Some? <==> Truthy(s.sessionId) && Truthy(s.userId)
    ensures stars.Some? ==> stars.value == Stars(s.totalPoints, s.maxPoints)
  {
    if Truthy(s.sessionId) && Truthy(s.userId) then Some(Stars(s.totalPoints, s.maxPoints))
    else None
  }

  /** `reset_quiz`: the stars of the running session are recorded, then
      every session field is cleared; only the logged-in user stays. */
  function ResetQuiz(s: Session): (r: (Session, Option<int>))
    ensures r.0 == Initial.(userId := s.userId)
    ensures r.1 == CompleteQuiz(s)
    ensures Consistent(r.0) && QuizProgress(r.0).Inactive? && CurrentQuestion(r.0).None?
  {
    (Initial.(userId := s.userId), CompleteQuiz(s))
  }

  // ---------------------------------------------------------------------------
  // The stale quiz
  // ---------------------------------------------------------------------------

  /** A question with the given id; the rest of it does not matter here. */
  function Sample(id: string): Question {
    Question(id, "short_answer", "What is a token?", [], true, [],
             OpenKey("", [], [], 10, None))
  }

  /** As written, a failed first question leaves the previous quiz active
      while the generated list is reset: one `next_question` later the quiz
      holds "q1" twice, and grading "q1" finds the old question rather than
      the new one. */
  lemma StaleQuizAfterFailedStart(p: Prepared, newQ: Question)
    requires p.Ready? && Generator.NumOf(p.req) >= 1
    ensures var before := Session(Some(Quiz("nlp", 1, [Sample(QId(1))])), 0, Some(p.req), [Sample(QId(1))],
                                  None, None, 0, 0, Some("nlp"));
      var failed := StartQuiz(before, p, None, 0).0;
      var next := NextQuestion(failed, Some(newQ)).0;
      Consistent(before) && !Consistent(failed) &&
      |next.quiz.value.questions| == 2 &&
      next.quiz.value.questions[0].id == next.quiz.value.questions[1].id == QId(1) &&
      FindQuestion(next.quiz.value.questions, Some(QId(1))) == Some(Sample(QId(1))) &&
      next.generated == [newQ.(id := QId(1))]
  {
    var before := Session(Some(Quiz("nlp", 1, [Sample(QId(1))])), 0, Some(p.req), [Sample(QId(1))],
                          None, None, 0, 0, Some("nlp"));
    assert Numbered(before.generated) by {
      assert before.generated[0].id == QId(0 + 1);
    }
    var failed := StartQuiz(before, p, None, 0).0;
    assert failed.quiz == before.quiz && failed.generated == [];
    var next := NextQuestion(failed, Some(newQ)).0;
    assert next.quiz.value.questions == [Sample(QId(1)), newQ.(id := QId(1))];
  }
}
