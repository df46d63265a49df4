/**
 * The older generator of quizzer-v2/question_generator.py. It differs from
 * the newer one in four ways: a question keeps the requested type verbatim,
 * the reply's fields are read directly (no "items" wrapper, no type check),
 * slot `j` of a note uses section `j mod len(sections)` instead of a random
 * one, and there is neither validation nor deduplication nor retry.
 */
module GeneratorLegacy {
  import opened Text
  import opened Opt
  import opened Grounding
  import opened Questions
  import Generator

  /** What the oracle gives back; a field is `None` when its key is absent. */
  datatype LegacyReply =
    | Raised
    | Falsy
    | LegacyReply(hasError: bool, prompt: Option<string>, question: Option<string>,
                  options: Option<seq<string>>, correct: Option<seq<string>>,
                  concepts: Option<seq<string>>, answer: Option<string>)

  predicate IsChoiceType(qtype: string) {
    qtype == "mcq_single" || qtype == "mcq_multi"
  }

  /** `response.get("prompt", response.get("question", ""))` */
  function PromptOf(reply: LegacyReply): (p: string)
    requires reply.LegacyReply?
    ensures reply.prompt.Some? ==> p == reply.prompt.value
    ensures reply.prompt.None? && reply.question.Some? ==> p == reply.question.value
    ensures reply.prompt.None? && reply.question.None? ==> p == ""
  {
    reply.prompt.GetOr(reply.question.GetOr(""))
  }

  /** The shape of every question this generator emits. */
  predicate LegacyEmitted(q: Question, qtypes: seq<string>, maxPoints: int, gradingMode: string) {
    |q.grounding| == 1 &&
    |Words(q.grounding[0].quote)| <= 25 &&
    q.qtype in qtypes &&
    (IsChoiceType(q.qtype) <==> q.key.ChoiceKey?) &&
    q.key.maxPoints == maxPoints &&
    q.key.explanation.None? &&
    q.strictConcepts == (gradingMode == "strict_concepts") &&
    (q.key.OpenKey? ==> Total(q.key.breakdown) == maxPoints)
  }

  /** `_generate_single_question` after the oracle has answered `reply`: an
      exception, a falsy reply or an "error" key give no question; any other
      reply gives one of exactly the requested type. */
  function LegacyQuestion(reply: LegacyReply, qtype: string, topic: string, content: string, page: int,
                          path: string, maxPoints: int, gradingMode: string, id: string)
    : (q: Option<Question>)
    ensures q.Some? <==> reply.LegacyReply? && !reply.hasError
    ensures q.Some? ==>
      q.value.id == id && q.value.qtype == qtype && q.value.prompt == PromptOf(reply) &&
      q.value.grounding == [Citation(path, page, ExtractQuote(content, 25))] &&
      LegacyEmitted(q.value, [qtype], maxPoints, gradingMode)
    ensures q.Some? && IsChoiceType(qtype) ==>
      q.value.options == reply.options.GetOr([]) &&
      q.value.key == ChoiceKey(reply.correct.GetOr([]), reply.concepts.GetOr([topic]), maxPoints, None)
    ensures q.Some? && !IsChoiceType(qtype) ==>
      q.value.key.OpenKey? && q.value.key.canonical == reply.answer.GetOr("") &&
      q.value.key.concepts == reply.concepts.GetOr([topic])
  {
    match reply
    case Raised => None
    case Falsy => None
    case LegacyReply(hasError, _, _, options, correct, concepts, answer) =>
      if hasError then None
      else
        var grounding := [Citation(path, page, ExtractQuote(content, 25))];
        var cs := concepts.GetOr([topic]);
        var key :=
          if IsChoiceType(qtype) then ChoiceKey(correct.GetOr([]), cs, maxPoints, None)
          else OpenKey(answer.GetOr(""), cs, GenerateRubric(topic, maxPoints, cs), maxPoints, None);
        RubricSums(topic, maxPoints, cs);
        Some(Question(id, qtype, PromptOf(reply), grounding, gradingMode == "strict_concepts",
                      if IsChoiceType(qtype) then options.GetOr([]) else [], key))
  }

  /** The loop state: accepted questions, notes used, oracle calls and
      random draws so far. */
  datatype LState = LState(questions: seq<Question>, notesUsed: seq<Generator.NoteUse>,
                           calls: nat, draws: nat)

  /** Ids "q1", "q2", ... in order and the emitted shape. Prompts may repeat. */
  predicate LegacyGood(qs: seq<Question>, cfg: Generator.Settings) {
    forall i :: 0 <= i < |qs| ==>
      qs[i].id == QId(i + 1) &&
      LegacyEmitted(qs[i], cfg.questionTypes, cfg.maxPoints, cfg.gradingMode)
  }

  lemma LegacyGoodAppend(qs: seq<Question>, q: Question, cfg: Generator.Settings)
    requires LegacyGood(qs, cfg)
    requires q.id == QId(|qs| + 1) && LegacyEmitted(q, cfg.questionTypes, cfg.maxPoints, cfg.gradingMode)
    ensures LegacyGood(qs + [q], cfg)
  {
    var r := qs + [q];
    forall i | 0 <= i < |r|
      ensures r[i].id == QId(i + 1) &&
        LegacyEmitted(r[i], cfg.questionTypes, cfg.maxPoints, cfg.gradingMode)
    {
      if i < |qs| {
        assert r[i] == qs[i];
      }
    }
  }

  /** One oracle call for the given content; a question, when there is one,
      is appended unchecked. */
  function LegacyAttempt(s: LState, oracle: nat -> LegacyReply, cfg: Generator.Settings, qtype: string,
                         topic: string, content: string, page: int, path: string): (r: LState)
    requires qtype in cfg.questionTypes
    ensures r.calls == s.calls + 1 && r.draws == s.draws && r.notesUsed == s.notesUsed
    ensures r.questions == s.questions ||
      (|r.questions| == |s.questions| + 1 && r.questions[..|s.questions|] == s.questions)
    ensures oracle(s.calls).LegacyReply? && !oracle(s.calls).hasError <==>
      |r.questions| == |s.questions| + 1
    ensures LegacyGood(s.questions, cfg) ==> LegacyGood(r.questions, cfg)
    ensures |r.questions| > |s.questions| ==>
      r.questions[|s.questions|].grounding == [Citation(path, page, ExtractQuote(content, 25))]
  {
    var q := LegacyQuestion(oracle(s.calls), qtype, topic, content, page, path,
                            cfg.maxPoints, cfg.gradingMode, QId(|s.questions| + 1));
    if q.Some? then
      var qs := s.questions + [q.value];
      assert qs[..|s.questions|] == s.questions;
      if LegacyGood(s.questions, cfg) then
        LegacyGoodAppend(s.questions, q.value, cfg);
        s.(questions := qs, calls := s.calls + 1)
      else s.(questions := qs, calls := s.calls + 1)
    else s.(calls := s.calls + 1)
  }

  /** The section slot `j` of a note uses: the sections in turn, round robin. */
  function SectionFor(sections: seq<SearchResult>, j: nat): (section: SearchResult)
    requires |sections| > 0
    ensures section in sections
    ensures j < |sections| ==> section == sections[j]
    ensures section == SectionFor(sections, j % |sections|)
  {
    sections[j % |sections|]
  }

  /** `for j in range(num_to_gen)` over one note's sections. */
  method LegacySlots(s0: LState, sections: seq<SearchResult>, toGenerate: int, num: int,
                     cfg: Generator.Settings, topic: string, path: string, paths: seq<string>,
                     pagesOf: string -> PageMap, oracle: nat -> LegacyReply, choice: nat -> nat)
    returns (s: LState)
    requires |sections| > 0 && |cfg.questionTypes| > 0
    requires path in paths && forall sec :: sec in sections ==> Generator.OnPage(pagesOf(path), sec.page)
    requires LegacyGood(s0.questions, cfg) && Generator.Cited(s0.questions, paths, pagesOf)
    ensures LegacyGood(s.questions, cfg) && Generator.Cited(s.questions, paths, pagesOf)
    ensures |s0.questions| <= |s.questions| <= |s0.questions| + Max(0, toGenerate)
    ensures s.calls - s0.calls <= Max(0, toGenerate)
    ensures s.notesUsed == s0.notesUsed
  {
    s := s0;
    var j := 0;
    while j < toGenerate
      invariant 0 <= j <= Max(0, toGenerate)
      invariant LegacyGood(s.questions, cfg) && Generator.Cited(s.questions, paths, pagesOf)
      invariant |s0.questions| <= |s.questions| <= |s0.questions| + j
      invariant s0.calls <= s.calls <= s0.calls + j
      invariant s.notesUsed == s0.notesUsed
    {
      var section := SectionFor(sections, j);
      var qtype := Generator.Choose(cfg.questionTypes, choice, s.draws);
      var t := LegacyAttempt(s.(draws := s.draws + 1), oracle, cfg, qtype, topic, section.text,
                             section.page, path);
      Generator.CitedStep(s.questions, t.questions, path, section.page, paths, pagesOf);
      s := t;
      if |s.questions| >= num {
        break;
      }
      j := j + 1;
    }
  }

  /** One note of the notes loop: its three-result search, and when that
      finds sections, the note recorded and its slots run. */
  method LegacyNoteRound(s0: LState, topic: string, topics: seq<string>, path: string,
                         paths: seq<string>, pagesOf: string -> PageMap, perTopic: int, num: int,
                         cfg: Generator.Settings, oracle: nat -> LegacyReply, choice: nat -> nat)
    returns (s: LState)
    requires |cfg.questionTypes| > 0 && topic in topics && path in paths
    requires LegacyGood(s0.questions, cfg) && |s0.questions| <= Max(0, num)
    requires Generator.NotesOk(s0.notesUsed, paths, topics) && Generator.Cited(s0.questions, paths, pagesOf)
    ensures LegacyGood(s.questions, cfg) && |s.questions| <= Max(0, num)
    ensures Generator.NotesOk(s.notesUsed, paths, topics) && Generator.Cited(s.questions, paths, pagesOf)
    ensures Search(path, pagesOf(path), topic, 3) == [] ==> s == s0
    ensures Search(path, pagesOf(path), topic, 3) != [] ==>
      Generator.NoteInfo(path, topic, Search(path, pagesOf(path), topic, 3)) in s.notesUsed
  {
    s := s0;
    var sections := Search(path, pagesOf(path), topic, 3);
    if sections != [] {
      Generator.SectionsOnPages(path, pagesOf(path), topic, 3);
      Generator.RecordKeepsNotesOk(s.notesUsed, path, topic, sections, paths, topics);
      s := s.(notesUsed := Generator.Record(s.notesUsed, Generator.NoteInfo(path, topic, sections)));
      var before := |s.questions|;
      s := LegacySlots(s, sections, Min(perTopic, num - before), num, cfg, topic, path,
                       paths, pagesOf, oracle, choice);
      Generator.SlotsBound(before, |s.questions|, perTopic, num);
    }
  }

  /** The notes loop for one topic. */
  method LegacyTopicNotes(s0: LState, topic: string, topics: seq<string>, paths: seq<string>,
                          pagesOf: string -> PageMap, perTopic: int, num: int, cfg: Generator.Settings,
                          oracle: nat -> LegacyReply, choice: nat -> nat)
    returns (s: LState)
    requires |cfg.questionTypes| > 0 && topic in topics
    requires LegacyGood(s0.questions, cfg) && |s0.questions| <= Max(0, num)
    requires Generator.NotesOk(s0.notesUsed, paths, topics) && Generator.Cited(s0.questions, paths, pagesOf)
    ensures LegacyGood(s.questions, cfg) && |s.questions| <= Max(0, num)
    ensures Generator.NotesOk(s.notesUsed, paths, topics) && Generator.Cited(s.questions, paths, pagesOf)
  {
    s := s0;
    var n := 0;
    while n < |paths|
      invariant 0 <= n <= |paths|
      invariant LegacyGood(s.questions, cfg) && |s.questions| <= Max(0, num)
      invariant Generator.NotesOk(s.notesUsed, paths, topics) && Generator.Cited(s.questions, paths, pagesOf)
    {
      s := LegacyNoteRound(s, topic, topics, paths[n], paths, pagesOf, perTopic, num, cfg, oracle, choice);
      if |s.questions| >= num {
        break;
      }
      n := n + 1;
    }
  }

  /** The topic loop. */
  method LegacyTopicLoop(topics: seq<string>, paths: seq<string>, pagesOf: string -> PageMap, num: int,
                         cfg: Generator.Settings, oracle: nat -> LegacyReply, choice: nat -> nat)
    returns (s: LState)
    requires |cfg.questionTypes| > 0
    ensures LegacyGood(s.questions, cfg) && |s.questions| <= Max(0, num)
    ensures Generator.NotesOk(s.notesUsed, paths, topics) && Generator.Cited(s.questions, paths, pagesOf)
  {
    s := LState([], [], 0, 0);
    var perTopic := Generator.PerTopic(num, topics);
    var t := 0;
    while t < |topics|
      invariant 0 <= t <= |topics|
      invariant LegacyGood(s.questions, cfg) && |s.questions| <= Max(0, num)
      invariant Generator.NotesOk(s.notesUsed, paths, topics) && Generator.Cited(s.questions, paths, pagesOf)
    {
      s := LegacyTopicNotes(s, topics[t], topics, paths, pagesOf, perTopic, num, cfg, oracle, choice);
      if |s.questions| >= num {
        break;
      }
      t := t + 1;
    }
  }

  /** One round of the fallback loop: a random note, and when it has pages,
      a random page whose first 1000 characters go to one oracle call. */
  function LegacyFallbackRound(s: LState, paths: seq<string>, pagesOf: string -> PageMap,
                               topics: seq<string>, cfg: Generator.Settings,
                               oracle: nat -> LegacyReply, choice: nat -> nat): (r: LState)
    requires |paths| > 0 && |cfg.questionTypes| > 0
    ensures r.notesUsed == s.notesUsed
    ensures r.questions == s.questions ||
      (|r.questions| == |s.questions| + 1 && r.questions[..|s.questions|] == s.questions)
    ensures LegacyGood(s.questions, cfg) ==> LegacyGood(r.questions, cfg)
    ensures Generator.Cited(s.questions, paths, pagesOf) ==> Generator.Cited(r.questions, paths, pagesOf)
  {
    var path := Generator.Choose(paths, choice, s.draws);
    var pages := pagesOf(path);
    if pages == [] then s.(draws := s.draws + 1)
    else
      var page := Generator.Choose(pages, choice, s.draws + 1);
      var qtype := Generator.Choose(cfg.questionTypes, choice, s.draws + 2);
      var topic := if topics != [] then topics[0] else "general";
      var r := LegacyAttempt(s.(draws := s.draws + 3), oracle, cfg, qtype, topic,
                             PyPrefix(page.text, 1000), page.num, path);
      if Generator.Cited(s.questions, paths, pagesOf) then
        var k :| 0 <= k < |pages| && pages[k] == page;
        assert Generator.OnPage(pagesOf(path), page.num);
        Generator.CitedStep(s.questions, r.questions, path, page.num, paths, pagesOf);
        r
      else r
  }

  /** The unbounded fallback `while` loop, run on `fuel`; the flag reports
      that the fuel ran out while the loop would have gone on. */
  function LegacyFallback(s: LState, paths: seq<string>, pagesOf: string -> PageMap, topics: seq<string>,
                          num: int, cfg: Generator.Settings, oracle: nat -> LegacyReply,
                          choice: nat -> nat, fuel: nat)
    : (r: (LState, bool))
    requires |cfg.questionTypes| > 0
    ensures LegacyGood(s.questions, cfg) ==> LegacyGood(r.0.questions, cfg)
    ensures Generator.Cited(s.questions, paths, pagesOf) ==> Generator.Cited(r.0.questions, paths, pagesOf)
    ensures |s.questions| <= Max(0, num) ==> |r.0.questions| <= Max(0, num)
    ensures r.0.notesUsed == s.notesUsed
    ensures !r.1 ==> |r.0.questions| >= num || paths == []
    ensures r.1 ==> |r.0.questions| < num && paths != []
    decreases fuel
  {
    if |s.questions| >= num || paths == [] then (s, false)
    else if fuel == 0 then (s, true)
    else LegacyFallback(LegacyFallbackRound(s, paths, pagesOf, topics, cfg, oracle, choice), paths,
                        pagesOf, topics, num, cfg, oracle, choice, fuel - 1)
  }

  /** The older `generate_questions`. */
  method LegacyGenerateQuestions(req: Generator.GenRequest, globbed: seq<string>,
                                 pagesOf: string -> PageMap, oracle: nat -> LegacyReply,
                                 choice: nat -> nat, fuel: nat)
    returns (out: Generator.GenOutcome)
    requires |Generator.TypesOf(req)| > 0
    ensures out.MissingNotes? <==> Generator.NotePaths(req, globbed) == []
    ensures out.MissingNotes? ==> out.course == req.course
    ensures out.Generated? ==>
      out.course == req.course &&
      |out.questions| <= Max(0, Generator.NumOf(req)) &&
      LegacyGood(out.questions, Generator.ConfigOf(req)) &&
      Generator.NotesOk(out.notesUsed, Generator.NotePaths(req, globbed), Generator.TopicsOf(req)) &&
      Generator.Cited(out.questions, Generator.NotePaths(req, globbed), pagesOf)
    ensures out.Generated? && !out.cutShort ==> |out.questions| == Max(0, Generator.NumOf(req))
  {
    var paths := Generator.NotePaths(req, globbed);
    if paths == [] {
      return Generator.MissingNotes(req.course);
    }
    var cfg := Generator.ConfigOf(req);
    var s := LegacyTopicLoop(Generator.TopicsOf(req), paths, pagesOf, Generator.NumOf(req), cfg,
                             oracle, choice);
    var r := LegacyFallback(s, paths, pagesOf, Generator.TopicsOf(req), Generator.NumOf(req), cfg,
                            oracle, choice, fuel);
    out := Generator.Generated(req.course, r.0.notesUsed, r.0.questions, r.1);
  }
}
