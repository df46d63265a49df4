/**
 * The older, eager quiz session of quizzer-v2/quizzer_v2_engine.py: the
 * whole quiz is generated up front by the older generator, and the session
 * is the generator's answer plus a cursor. The generator's answer is a
 * parameter.
 */
module SessionLegacy {
  import opened Opt
  import opened Questions
  import opened Grading
  import opened GradingLegacy
  import Generator
  import opened Courses
  import Session

  /** The fields of the older `QuizzerV2`: the current quiz, which is
      whatever the generator answered, and the cursor. */
  datatype LSession = LSession(quiz: Option<Generator.GenOutcome>, cursor: nat)

  const LInitial := LSession(None, 0)

  /** `current_quiz.get("questions", [])`: an error answer has none. */
  function QuestionsOf(result: Generator.GenOutcome): (qs: seq<Question>)
    ensures result.MissingNotes? ==> qs == []
    ensures result.Generated? ==> qs == result.questions
  {
    if result.Generated? then result.questions else []
  }

  /** What the older `generate_quiz` answers. */
  datatype LStarted =
    | LCourseInvalid(available: seq<string>)
    | LNotesMissing(files: seq<string>)
    | Returned(result: Generator.GenOutcome)

  /** The older `generate_quiz` once the request checks have given `p`: the
      two request errors leave the session untouched; otherwise whatever the
      generator answers, an error included, becomes the current quiz and the
      cursor goes back to 0. */
  function LStartQuiz(s: LSession, p: Prepared, result: Generator.GenOutcome): (r: (LSession, LStarted))
    ensures p.InvalidCourse? ==> r == (s, LCourseInvalid(p.available))
    ensures p.MissingNotes? ==> r == (s, LNotesMissing(p.files))
    ensures p.Ready? ==> r == (LSession(Some(result), 0), Returned(result))
  {
    match p
    case InvalidCourse(available) => (s, LCourseInvalid(available))
    case MissingNotes(files) => (s, LNotesMissing(files))
    case Ready(_, _) => (LSession(Some(result), 0), Returned(result))
  }

  /** The older `generate_quiz`: the request checks, then the generator. */
  function LGenerateQuiz(s: LSession, req: Generator.GenRequest, exists_: string -> bool,
                         result: Generator.GenOutcome): (LSession, LStarted)
  {
    LStartQuiz(s, Prepare(req, exists_), result)
  }

  /** The question `questionId` names, when the current quiz has one, can be
      graded. */
  predicate LTargetGradable(s: LSession, questionId: Option<string>) {
    s.quiz.Some? && Session.FindQuestion(QuestionsOf(s.quiz.value), questionId).Some? ==>
      Gradable(Session.FindQuestion(QuestionsOf(s.quiz.value), questionId).value)
  }

  /** The older `grade_answer`: no quiz, then an unknown id, are errors;
      otherwise the first question with the id is graded by the older
      engine. The session is not changed. */
  function LGradeAnswer(s: LSession, questionId: Option<string>, answer: string,
                        reply: LegacyGradeReply): (r: Session.Graded)
    requires LTargetGradable(s, questionId)
    ensures s.quiz.None? ==> r.NoActiveQuiz?
    ensures s.quiz.Some? ==>
      (r.QuestionNotFound? <==> Session.FindQuestion(QuestionsOf(s.quiz.value), questionId).None?)
    ensures r.Graded? ==>
      r.grading == LegacyGradeAnswer(Session.FindQuestion(QuestionsOf(s.quiz.value), questionId).value,
                                     answer, reply)
  {
    if s.quiz.None? then Session.NoActiveQuiz
    else
      var found := Session.FindQuestion(QuestionsOf(s.quiz.value), questionId);
      if found.None? then Session.QuestionNotFound
      else Session.Graded(LegacyGradeAnswer(found.value, answer, reply))
  }

  /** The older `get_current_question`. */
  function LCurrentQuestion(s: LSession): (q: Option<Question>)
    ensures q.Some? <==> s.quiz.Some? && s.cursor < |QuestionsOf(s.quiz.value)|
    ensures q.Some? ==> q.value == QuestionsOf(s.quiz.value)[s.cursor]
  {
    if s.quiz.None? || s.cursor >= |QuestionsOf(s.quiz.value)| then None
    else Some(QuestionsOf(s.quiz.value)[s.cursor])
  }

  /** The older `next_question`: with a quiz, the cursor moves on and the
      question under it, if any, is returned. */
  function LNextQuestion(s: LSession): (r: (LSession, Option<Question>))
    ensures s.quiz.None? ==> r == (s, None)
    ensures s.quiz.Some? ==> r.0 == s.(cursor := s.cursor + 1)
    ensures r.1 == LCurrentQuestion(r.0)
  {
    if s.quiz.None? then (s, None)
    else
      var s1 := s.(cursor := s.cursor + 1);
      (s1, LCurrentQuestion(s1))
  }

  /** The older `get_quiz_progress`: the total is the number of questions
      the quiz holds. */
  function LQuizProgress(s: LSession): (p: Session.Progress)
    ensures s.quiz.None? <==> p.Inactive?
    ensures p.Active? ==>
      p.current == s.cursor + 1 && p.total == |QuestionsOf(s.quiz.value)| &&
      (p.completed <==> s.cursor >= |QuestionsOf(s.quiz.value)|)
  {
    if s.quiz.None? then Session.Inactive
    else
      var total := |QuestionsOf(s.quiz.value)|;
      Session.Active(s.cursor + 1, total, s.cursor >= total, total)
  }

  /** An active quiz is completed exactly when no question is under the
      cursor. */
  lemma CompletedIffNoCurrent(s: LSession)
    requires s.quiz.Some?
    ensures LQuizProgress(s).completed <==> LCurrentQuestion(s).None?
  {
  }

  /** The older `reset_quiz`. */
  function LResetQuiz(s: LSession): (s': LSession)
    ensures s' == LInitial
    ensures LQuizProgress(s').Inactive? && LCurrentQuestion(s').None?
  {
    LSession(None, 0)
  }

  /** `k` calls of `next_question`. */
  function Advance(s: LSession, k: nat): LSession
    decreases k
  {
    if k == 0 then s else Advance(LNextQuestion(s).0, k - 1)
  }

  /** On a fresh quiz, `k` calls of `next_question` put the cursor on the
      k-th question: every question is shown once, in order, and the quiz
      is completed after as many calls as it has questions. */
  lemma {:induction false} AdvanceWalks(s: LSession, k: nat)
    requires s.quiz.Some?
    ensures Advance(s, k) == s.(cursor := s.cursor + k)
    ensures s.cursor + k < |QuestionsOf(s.quiz.value)| ==>
      LCurrentQuestion(Advance(s, k)) == Some(QuestionsOf(s.quiz.value)[s.cursor + k])
    ensures LQuizProgress(Advance(s, k)).completed <==> s.cursor + k >= |QuestionsOf(s.quiz.value)|
    decreases k
  {
    if k > 0 {
      AdvanceWalks(s.(cursor := s.cursor + 1), k - 1);
    }
  }
}
