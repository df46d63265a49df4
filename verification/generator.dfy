/**
 * The question-generation orchestrator of
 * quizzer-v2/src/engines/question_generator.py (the file in quizzer/src/ is
 * the same code): one oracle call per attempt, item extraction and type
 * mapping, validation against the prompts already accepted, the bounded
 * retry per question slot, and the topic loop followed by the fallback loop.
 *
 * The language model is the function `oracle`: its n-th call answers
 * `oracle(n)`. `random.choice(xs)` is `xs[choice(n) % |xs|]` for the n-th
 * draw. Parsed PDFs are the function `pagesOf` (an unreadable file maps to
 * the empty page map).
 */
module Generator {
  import opened Text
  import opened Opt
  import opened Grounding
  import opened Questions

  // ---------------------------------------------------------------------------
  // Oracle replies
  // ---------------------------------------------------------------------------

  /** The `answer` of an item: a string or a list of strings. */
  datatype Answer = AnswerText(text: string) | AnswerList(parts: seq<string>)

  /** One question object of a reply; a field is `None` when its key is absent. */
  datatype Item = Item(
    question: Option<string>,
    itemType: Option<string>,
    choices: Option<seq<string>>,
    answer: Option<Answer>,
    tags: Option<seq<string>>,
    explanation: Option<string>)

  /** The `items` field of a reply. An entry `None` stands for an item that is
      falsy (`{}`, `null`) or not an object, either of which ends in no
      question. */
  datatype ItemsField =
    | NoItems
    | ItemList(entries: seq<Option<Item>>)
    | ItemObject(entry: Option<Item>)
    | OtherItems

  /** What `generate_json` gives back: an exception, a falsy value, or a
      non-empty object that may hold an "error" key, an "items" field, and
      the question fields directly (`top`). */
  datatype Reply =
    | Raised
    | Falsy
    | Reply(hasError: bool, items: ItemsField, top: Item)

  /** The item a reply offers, or `None` when the source returns no question
      before looking at the item. */
  function ItemOf(reply: Reply): (item: Option<Item>)
    ensures item.Some? ==> reply.Reply? && !reply.hasError
    ensures reply.Reply? && !reply.hasError && reply.items.NoItems? ==>
      (item.Some? <==> reply.top.question.Some? || reply.top.itemType.Some?)
  {
    match reply
    case Raised => None
    case Falsy => None
    case Reply(hasError, items, top) =>
      if hasError then None
      else match items
        case NoItems => if top.question.Some? || top.itemType.Some? then Some(top) else None
        case ItemList(entries) => if |entries| > 0 then entries[0] else None
        case ItemObject(entry) => entry
        case OtherItems => None
  }

  /** The oracle's type name mapped to an internal type; a missing type reads
      as "short". */
  function MapType(itemType: Option<string>): (internal: string)
    ensures internal == "mcq_single" || internal == "short_answer"
    ensures internal == "mcq_single" <==> itemType == Some("mcq") || itemType == Some("true_false")
  {
    var name := itemType.GetOr("short");
    if name == "mcq" || name == "true_false" then "mcq_single" else "short_answer"
  }

  /** `_type_matches` */
  predicate TypeMatches(requested: string, generated: string) {
    if (requested == "mcq_single" || requested == "mcq_multi") && generated == "mcq_single" then true
    else if requested == "short_answer" && generated == "short_answer" then true
    else if (requested == "derivation" || requested == "proof" || requested == "code") && generated == "short_answer" then true
    else false
  }

  /** Which oracle types are kept for which requested type: choice requests
      keep "mcq"/"true_false" items, the five open request types keep every
      other item, and nothing else is ever kept. */
  lemma KeptTypes(requested: string, itemType: Option<string>)
    ensures var choice := itemType == Some("mcq") || itemType == Some("true_false");
      TypeMatches(requested, MapType(itemType)) <==>
        ((requested == "mcq_single" || requested == "mcq_multi") && choice) ||
        ((requested == "short_answer" || requested == "derivation" || requested == "proof" ||
          requested == "code") && !choice)
  {
  }

  // ---------------------------------------------------------------------------
  // _generate_single_question
  // ---------------------------------------------------------------------------

  /** The shape of every question this generator emits, for the given
      maximum and grading mode. */
  predicate Emitted(q: Question, maxPoints: int, gradingMode: string) {
    |q.grounding| == 1 &&
    |Words(q.grounding[0].quote)| <= 25 &&
    (q.qtype == "mcq_single" || q.qtype == "short_answer") &&
    (q.qtype == "mcq_single" <==> q.key.ChoiceKey?) &&
    q.key.maxPoints == maxPoints &&
    q.strictConcepts == (gradingMode == "strict_concepts") &&
    (q.key.OpenKey? ==> Total(q.key.breakdown) == maxPoints)
  }

  /** The correct list of a choice item: a string answer becomes a one-element
      list, a list is kept. */
  function CorrectOf(answer: Option<Answer>): (correct: seq<string>)
    ensures answer.None? ==> correct == [""]
  {
    match answer
    case None => [""]
    case Some(AnswerText(t)) => [t]
    case Some(AnswerList(parts)) => parts
  }

  /** The canonical answer of an open item: a list is joined with ", ". */
  function CanonicalOf(answer: Option<Answer>): string {
    match answer
    case None => ""
    case Some(AnswerText(t)) => t
    case Some(AnswerList(parts)) => Join(parts, ", ")
  }

  /** The question built from an accepted item. */
  function Assemble(item: Item, internal: string, topic: string, content: string, page: int,
                    path: string, maxPoints: int, gradingMode: string, id: string): (q: Question)
    requires internal == "mcq_single" || internal == "short_answer"
    ensures Emitted(q, maxPoints, gradingMode)
    ensures q.id == id && q.qtype == internal && q.prompt == item.question.GetOr("")
    ensures q.grounding == [Citation(path, page, ExtractQuote(content, 25))]
    ensures q.key.concepts == item.tags.GetOr([topic])
  {
    var grounding := [Citation(path, page, ExtractQuote(content, 25))];
    var concepts := item.tags.GetOr([topic]);
    var explanation := Some(item.explanation.GetOr(""));
    var key :=
      if internal == "mcq_single" then
        ChoiceKey(CorrectOf(item.answer), concepts, maxPoints, explanation)
      else
        OpenKey(CanonicalOf(item.answer), concepts, GenerateRubric(topic, maxPoints, concepts),
                maxPoints, explanation);
    RubricSums(topic, maxPoints, concepts);
    Question(id, internal, item.question.GetOr(""), grounding, gradingMode == "strict_concepts",
             if internal == "mcq_single" then item.choices.GetOr([]) else [], key)
  }

  /** `_generate_single_question` after the oracle has answered `reply`. */
  function SingleQuestion(reply: Reply, requested: string, topic: string, content: string, page: int,
                          path: string, maxPoints: int, gradingMode: string, id: string)
    : (q: Option<Question>)
    ensures q.Some? <==>
      ItemOf(reply).Some? && TypeMatches(requested, MapType(ItemOf(reply).value.itemType))
    ensures q.Some? ==>
      Emitted(q.value, maxPoints, gradingMode) &&
      q.value.id == id &&
      q.value.qtype == MapType(ItemOf(reply).value.itemType) &&
      q.value.prompt == ItemOf(reply).value.question.GetOr("") &&
      q.value.grounding == [Citation(path, page, ExtractQuote(content, 25))]
  {
    match ItemOf(reply)
    case None => None
    case Some(item) =>
      var internal := MapType(item.itemType);
      if !TypeMatches(requested, internal) then None
      else Some(Assemble(item, internal, topic, content, page, path, maxPoints, gradingMode, id))
  }

  /** An emitted question never has type "mcq_multi", whatever was requested. */
  lemma NeverMulti(reply: Reply, requested: string, topic: string, content: string, page: int,
                   path: string, maxPoints: int, gradingMode: string, id: string)
    ensures var q := SingleQuestion(reply, requested, topic, content, page, path, maxPoints, gradingMode, id);
      q.Some? ==> q.value.qtype != "mcq_multi"
  {
  }

  // ---------------------------------------------------------------------------
  // _is_valid_question
  // ---------------------------------------------------------------------------

  /** The form prompts are compared in: lower-cased and stripped. */
  function Norm(prompt: string): string {
    Strip(Lower(prompt))
  }

  /** `_is_valid_question`: the normalised prompt is non-empty, not seen
      before and at least 10 characters long. */
  predicate IsValidQuestion(q: Question, seen: set<string>) {
    var p := Norm(q.prompt);
    if p == "" then false
    else if p in seen then false
    else if |p| < 10 then false
    else true
  }

  /** Recording an accepted prompt rejects every later question whose prompt
      normalises to the same text. */
  lemma SeenRejects(q: Question, q': Question, seen: set<string>)
    requires Norm(q'.prompt) == Norm(q.prompt)
    ensures !IsValidQuestion(q', seen + {Norm(q.prompt)})
  {
  }

  // ---------------------------------------------------------------------------
  // The generation state and its invariant
  // ---------------------------------------------------------------------------

  /** A note recorded in `notes_used`: its path, the topic, and the pages of
      its first two search results. */
  datatype NoteUse = NoteUse(path: string, sections: seq<string>, pages: seq<int>)

  /** The loop state: accepted questions, the set of seen prompts, the notes
      used, and how many oracle calls and random draws were made. */
  datatype State = State(questions: seq<Question>, seen: set<string>, notesUsed: seq<NoteUse>,
                         calls: nat, draws: nat)

  /** The prompts recorded for `qs`: their normalised forms. */
  function SeenOf(qs: seq<Question>): set<string> {
    if qs == [] then {} else SeenOf(qs[..|qs| - 1]) + {Norm(qs[|qs| - 1].prompt)}
  }

  /** The prompt of question `i` is recorded. */
  lemma {:induction false} SeenOfAt(qs: seq<Question>, i: nat)
    requires i < |qs|
    ensures Norm(qs[i].prompt) in SeenOf(qs)
    decreases |qs|
  {
    if i < |qs| - 1 {
      var init := qs[..|qs| - 1];
      SeenOfAt(init, i);
      assert init[i] == qs[i];
    }
  }

  /** Every accepted prompt is recorded. */
  lemma {:induction false} SeenOfHas(qs: seq<Question>)
    ensures forall i :: 0 <= i < |qs| ==> Norm(qs[i].prompt) in SeenOf(qs)
  {
    forall i | 0 <= i < |qs| ensures Norm(qs[i].prompt) in SeenOf(qs) {
      SeenOfAt(qs, i);
    }
  }

  /** Every accepted question has the id of its position ("q1", "q2", ...),
      the emitted shape and a valid prompt. */
  predicate Shaped(qs: seq<Question>, maxPoints: int, gradingMode: string) {
    forall i :: 0 <= i < |qs| ==>
      qs[i].id == QId(i + 1) && Emitted(qs[i], maxPoints, gradingMode) && |Norm(qs[i].prompt)| >= 10
  }

  /** No two accepted prompts normalise to the same text. */
  predicate Unique(qs: seq<Question>) {
    forall i, j :: 0 <= i < j < |qs| ==> Norm(qs[i].prompt) != Norm(qs[j].prompt)
  }

  /** What holds of the accepted questions throughout. */
  predicate Accepted(qs: seq<Question>, maxPoints: int, gradingMode: string) {
    Shaped(qs, maxPoints, gradingMode) && Unique(qs)
  }

  /** The loop invariant: the accepted questions are well formed and `seen`
      holds exactly their prompts. */
  predicate Good(s: State, maxPoints: int, gradingMode: string) {
    Accepted(s.questions, maxPoints, gradingMode) && s.seen == SeenOf(s.questions)
  }

  /** `num` is the number of one of the pages of `pages`. */
  predicate OnPage(pages: PageMap, num: int) {
    exists k :: 0 <= k < |pages| && pages[k].num == num
  }

  /** The question cites one of the run's notes, at one of that note's pages. */
  predicate CitesNote(q: Question, paths: seq<string>, pagesOf: string -> PageMap) {
    |q.grounding| > 0 && q.grounding[0].path in paths && OnPage(pagesOf(q.grounding[0].path), q.grounding[0].page)
  }

  /** Every accepted question cites a page of one of the run's notes. */
  predicate Cited(qs: seq<Question>, paths: seq<string>, pagesOf: string -> PageMap) {
    forall i :: 0 <= i < |qs| ==> CitesNote(qs[i], paths, pagesOf)
  }

  lemma CitedAppend(qs: seq<Question>, q: Question, paths: seq<string>, pagesOf: string -> PageMap)
    requires Cited(qs, paths, pagesOf) && CitesNote(q, paths, pagesOf)
    ensures Cited(qs + [q], paths, pagesOf)
  {
    var r := qs + [q];
    forall i | 0 <= i < |r|
      ensures CitesNote(r[i], paths, pagesOf)
    {
      if i < |qs| {
        assert r[i] == qs[i];
      }
    }
  }

  /** A state whose questions grew by at most one keeps `Cited` when the
      new question cites `path` at page `page`, a page of that note. */
  lemma CitedStep(qs: seq<Question>, qs': seq<Question>, path: string, page: int,
                  paths: seq<string>, pagesOf: string -> PageMap)
    requires Cited(qs, paths, pagesOf)
    requires qs' == qs || (|qs'| == |qs| + 1 && qs'[..|qs|] == qs)
    requires |qs'| > |qs| ==>
      (|qs'[|qs|].grounding| > 0 &&
       qs'[|qs|].grounding[0].path == path && qs'[|qs|].grounding[0].page == page)
    requires path in paths && OnPage(pagesOf(path), page)
    ensures Cited(qs', paths, pagesOf)
  {
    if qs' != qs {
      assert qs' == qs + [qs'[|qs|]];
      CitedAppend(qs, qs'[|qs|], paths, pagesOf);
    }
  }

  predicate Distinct<T(==)>(xs: seq<T>) {
    forall i, j :: 0 <= i < j < |xs| ==> xs[i] != xs[j]
  }

  lemma ShapedAppend(qs: seq<Question>, q: Question, maxPoints: int, gradingMode: string)
    requires Shaped(qs, maxPoints, gradingMode)
    requires q.id == QId(|qs| + 1) && Emitted(q, maxPoints, gradingMode) && |Norm(q.prompt)| >= 10
    ensures Shaped(qs + [q], maxPoints, gradingMode)
  {
    var r := qs + [q];
    forall i | 0 <= i < |r|
      ensures r[i].id == QId(i + 1) && Emitted(r[i], maxPoints, gradingMode) && |Norm(r[i].prompt)| >= 10
    {
      if i < |qs| {
        assert r[i] == qs[i];
      }
    }
  }

  lemma UniqueAppend(qs: seq<Question>, q: Question)
    requires Unique(qs)
    requires Norm(q.prompt) !in SeenOf(qs)
    ensures Unique(qs + [q])
  {
    var r := qs + [q];
    SeenOfHas(qs);
    forall i, j | 0 <= i < j < |r|
      ensures Norm(r[i].prompt) != Norm(r[j].prompt)
    {
      assert r[i] == qs[i];
      if j == |qs| {
        assert Norm(qs[i].prompt) in SeenOf(qs);
      } else {
        assert r[j] == qs[j];
      }
    }
  }

  lemma SeenAppend(qs: seq<Question>, q: Question)
    ensures SeenOf(qs + [q]) == SeenOf(qs) + {Norm(q.prompt)}
  {
    assert (qs + [q])[..|qs|] == qs;
  }

  lemma AcceptedAppend(qs: seq<Question>, q: Question, maxPoints: int, gradingMode: string)
    requires Accepted(qs, maxPoints, gradingMode)
    requires q.id == QId(|qs| + 1) && Emitted(q, maxPoints, gradingMode)
    requires Norm(q.prompt) !in SeenOf(qs) && |Norm(q.prompt)| >= 10
    ensures Accepted(qs + [q], maxPoints, gradingMode)
  {
    ShapedAppend(qs, q, maxPoints, gradingMode);
    UniqueAppend(qs, q);
  }

  /** Accepting a valid question with the next id keeps the invariant. */
  lemma AcceptKeepsGood(s: State, q: Question, maxPoints: int, gradingMode: string)
    requires Good(s, maxPoints, gradingMode)
    requires q.id == QId(|s.questions| + 1) && Emitted(q, maxPoints, gradingMode)
    requires IsValidQuestion(q, s.seen)
    ensures Good(s.(questions := s.questions + [q], seen := s.seen + {Norm(q.prompt)}),
                 maxPoints, gradingMode)
  {
    SeenAppend(s.questions, q);
    AcceptedAppend(s.questions, q, maxPoints, gradingMode);
  }

  function Choose<T>(xs: seq<T>, choice: nat -> nat, draw: nat): (x: T)
    requires |xs| > 0
    ensures x in xs
  {
    xs[choice(draw) % |xs|]
  }

  /** The settings of one generation run. */
  datatype Settings = Settings(questionTypes: seq<string>, maxPoints: int, gradingMode: string)

  /** One oracle call followed by validation: the question is accepted, its
      prompt recorded, or the state is unchanged but for the call count. */
  function Attempt(s: State, oracle: nat -> Reply, cfg: Settings, requested: string, topic: string,
                   content: string, page: int, path: string): (r: State)
    ensures r.calls == s.calls + 1 && r.draws == s.draws && r.notesUsed == s.notesUsed
    ensures r.questions == s.questions ||
      (|r.questions| == |s.questions| + 1 && r.questions[..|s.questions|] == s.questions)
    ensures Good(s, cfg.maxPoints, cfg.gradingMode) ==> Good(r, cfg.maxPoints, cfg.gradingMode)
    ensures |r.questions| > |s.questions| ==>
      r.questions[|s.questions|].grounding == [Citation(path, page, ExtractQuote(content, 25))]
  {
    var q := SingleQuestion(oracle(s.calls), requested, topic, content, page, path,
                            cfg.maxPoints, cfg.gradingMode, QId(|s.questions| + 1));
    if q.Some? && IsValidQuestion(q.value, s.seen) then
      var r := s.(questions := s.questions + [q.value], seen := s.seen + {Norm(q.value.prompt)},
                  calls := s.calls + 1);
      assert r.questions[..|s.questions|] == s.questions;
      if Good(s, cfg.maxPoints, cfg.gradingMode) then
        AcceptKeepsGood(s, q.value, cfg.maxPoints, cfg.gradingMode);
        r
      else r
    else s.(calls := s.calls + 1)
  }

  /** `for attempt in range(tries)`: attempts until one is accepted. */
  function Retry(s: State, tries: nat, oracle: nat -> Reply, cfg: Settings, requested: string,
                 topic: string, content: string, page: int, path: string): (r: State)
    ensures s.calls <= r.calls <= s.calls + tries
    ensures r.draws == s.draws && r.notesUsed == s.notesUsed
    ensures r.questions == s.questions ||
      (|r.questions| == |s.questions| + 1 && r.questions[..|s.questions|] == s.questions)
    ensures r.questions == s.questions ==> r.calls == s.calls + tries
    ensures Good(s, cfg.maxPoints, cfg.gradingMode) ==> Good(r, cfg.maxPoints, cfg.gradingMode)
    ensures |r.questions| > |s.questions| ==>
      r.questions[|s.questions|].grounding == [Citation(path, page, ExtractQuote(content, 25))]
    decreases tries
  {
    if tries == 0 then s
    else
      var t := Attempt(s, oracle, cfg, requested, topic, content, page, path);
      if |t.questions| > |s.questions| then t
      else Retry(t, tries - 1, oracle, cfg, requested, topic, content, page, path)
  }

  const MaxRetries := 3

  /** One question slot of the topic loop: a random section and question type,
      then at most three oracle attempts. */
  function Slot(s: State, sections: seq<SearchResult>, oracle: nat -> Reply, choice: nat -> nat,
                cfg: Settings, topic: string, path: string): (r: State)
    requires |sections| > 0 && |cfg.questionTypes| > 0
    ensures s.calls <= r.calls <= s.calls + MaxRetries
    ensures r.draws == s.draws + 2 && r.notesUsed == s.notesUsed
    ensures r.questions == s.questions ||
      (|r.questions| == |s.questions| + 1 && r.questions[..|s.questions|] == s.questions)
    ensures Good(s, cfg.maxPoints, cfg.gradingMode) ==> Good(r, cfg.maxPoints, cfg.gradingMode)
    ensures var section := Choose(sections, choice, s.draws);
      |r.questions| > |s.questions| ==>
        r.questions[|s.questions|].grounding ==
          [Citation(path, section.page, ExtractQuote(section.text, 25))]
  {
    var section := Choose(sections, choice, s.draws);
    var requested := Choose(cfg.questionTypes, choice, s.draws + 1);
    Retry(s.(draws := s.draws + 2), MaxRetries, oracle, cfg, requested, topic,
          section.text, section.page, path)
  }

  /** The `notes_used` entry of a note whose search found `sections`. */
  function NoteInfo(path: string, topic: string, sections: seq<SearchResult>): (info: NoteUse)
    ensures info.path == path && info.sections == [topic] && |info.pages| <= 2
  {
    var firstTwo := PyPrefix(sections, 2);
    NoteUse(path, [topic], seq(|firstTwo|, i requires 0 <= i < |firstTwo| => firstTwo[i].page))
  }

  /** Appends `info` unless it is already there. */
  function Record(used: seq<NoteUse>, info: NoteUse): (r: seq<NoteUse>)
    ensures Distinct(used) ==> Distinct(r)
    ensures info in r && forall u :: u in used ==> u in r
    ensures forall u :: u in r ==> u in used || u == info
  {
    if info in used then used else used + [info]
  }

  // ---------------------------------------------------------------------------
  // generate_questions
  // ---------------------------------------------------------------------------

  /** `num_questions // len(topics) if topics else num_questions` */
  function PerTopic(num: int, topics: seq<string>): int {
    if topics == [] then num else num / |topics|
  }

  /** What holds of `notes_used`: no entry twice, and each names one of the
      notes, one requested topic and at most two pages. */
  predicate NotesOk(used: seq<NoteUse>, paths: seq<string>, topics: seq<string>) {
    Distinct(used) &&
    forall u :: u in used ==>
      u.path in paths && |u.sections| == 1 && u.sections[0] in topics && |u.pages| <= 2
  }

  /** `for j in range(num_to_gen)`: the slots fed by one note's sections,
      stopping once `num` questions are accepted. */
  method Slots(s0: State, sections: seq<SearchResult>, toGenerate: int, num: int, cfg: Settings,
               topic: string, path: string, paths: seq<string>, pagesOf: string -> PageMap,
               oracle: nat -> Reply, choice: nat -> nat)
    returns (s: State)
    requires |sections| > 0 && |cfg.questionTypes| > 0
    requires path in paths && forall sec :: sec in sections ==> OnPage(pagesOf(path), sec.page)
    requires Good(s0, cfg.maxPoints, cfg.gradingMode) && Cited(s0.questions, paths, pagesOf)
    ensures Good(s, cfg.maxPoints, cfg.gradingMode) && Cited(s.questions, paths, pagesOf)
    ensures |s0.questions| <= |s.questions| <= |s0.questions| + Max(0, toGenerate)
    ensures s.notesUsed == s0.notesUsed
  {
    s := s0;
    var j := 0;
    while j < toGenerate
      invariant 0 <= j <= Max(0, toGenerate)
      invariant Good(s, cfg.maxPoints, cfg.gradingMode) && Cited(s.questions, paths, pagesOf)
      invariant |s0.questions| <= |s.questions| <= |s0.questions| + j
      invariant s.notesUsed == s0.notesUsed
    {
      var t := Slot(s, sections, oracle, choice, cfg, topic, path);
      CitedStep(s.questions, t.questions, path, Choose(sections, choice, s.draws).page, paths, pagesOf);
      s := t;
      j := j + 1;
      if |s.questions| >= num {
        break;
      }
    }
  }

  /** Every section a search returns lies on a page of the searched note. */
  lemma SectionsOnPages(path: string, pages: PageMap, query: string, maxResults: int)
    ensures forall sec :: sec in Search(path, pages, query, maxResults) ==> OnPage(pages, sec.page)
  {
    var r := Search(path, pages, query, maxResults);
    SearchFacts(path, pages, query, maxResults);
    forall sec | sec in r
      ensures OnPage(pages, sec.page)
    {
      var i :| 0 <= i < |r| && r[i] == sec;
      assert InMap(pages, r[i].page, r[i].text);
    }
  }

  /** Feeding `min(per_topic, num - before)` slots keeps the count at most `num`. */
  lemma SlotsBound(before: int, after: int, perTopic: int, num: int)
    requires before <= Max(0, num)
    requires before <= after <= before + Max(0, Min(perTopic, num - before))
    ensures after <= Max(0, num)
  {
  }

  /** The invariant does not look at the notes used. */
  lemma GoodIgnoresNotes(s: State, used: seq<NoteUse>, maxPoints: int, gradingMode: string)
    ensures Good(s.(notesUsed := used), maxPoints, gradingMode) == Good(s, maxPoints, gradingMode)
  {
  }

  /** Recording a note of the run under a requested topic keeps `NotesOk`. */
  lemma RecordKeepsNotesOk(used: seq<NoteUse>, path: string, topic: string, sections: seq<SearchResult>,
                           paths: seq<string>, topics: seq<string>)
    requires NotesOk(used, paths, topics) && path in paths && topic in topics
    ensures NotesOk(Record(used, NoteInfo(path, topic, sections)), paths, topics)
  {
  }

  /** One note of the topic loop: its three-result search, and when that
      finds sections, the note recorded and
      `min(per_topic, num - len(questions))` slots fed by them. */
  method NoteRound(s0: State, topic: string, topics: seq<string>, path: string, paths: seq<string>,
                   pagesOf: string -> PageMap, perTopic: int, num: int, cfg: Settings,
                   oracle: nat -> Reply, choice: nat -> nat)
    returns (s: State)
    requires |cfg.questionTypes| > 0 && topic in topics && path in paths
    requires Good(s0, cfg.maxPoints, cfg.gradingMode) && |s0.questions| <= Max(0, num)
    requires NotesOk(s0.notesUsed, paths, topics) && Cited(s0.questions, paths, pagesOf)
    ensures Good(s, cfg.maxPoints, cfg.gradingMode) && |s.questions| <= Max(0, num)
    ensures NotesOk(s.notesUsed, paths, topics) && Cited(s.questions, paths, pagesOf)
    ensures Search(path, pagesOf(path), topic, 3) == [] ==> s == s0
    ensures Search(path, pagesOf(path), topic, 3) != [] ==>
      NoteInfo(path, topic, Search(path, pagesOf(path), topic, 3)) in s.notesUsed
  {
    s := s0;
    var sections := Search(path, pagesOf(path), topic, 3);
    if sections != [] {
      SectionsOnPages(path, pagesOf(path), topic, 3);
      RecordKeepsNotesOk(s.notesUsed, path, topic, sections, paths, topics);
      GoodIgnoresNotes(s, Record(s.notesUsed, NoteInfo(path, topic, sections)), cfg.maxPoints, cfg.gradingMode);
      s := s.(notesUsed := Record(s.notesUsed, NoteInfo(path, topic, sections)));
      var before := |s.questions|;
      s := Slots(s, sections, Min(perTopic, num - before), num, cfg, topic, path,
                 paths, pagesOf, oracle, choice);
      SlotsBound(before, |s.questions|, perTopic, num);
    }
  }

  /** The loop over the notes for one topic, stopping once `num` questions
      are accepted. */
  method TopicNotes(s0: State, topic: string, topics: seq<string>, paths: seq<string>,
                    pagesOf: string -> PageMap, perTopic: int, num: int, cfg: Settings,
                    oracle: nat -> Reply, choice: nat -> nat)
    returns (s: State)
    requires |cfg.questionTypes| > 0 && topic in topics
    requires Good(s0, cfg.maxPoints, cfg.gradingMode) && |s0.questions| <= Max(0, num)
    requires NotesOk(s0.notesUsed, paths, topics) && Cited(s0.questions, paths, pagesOf)
    ensures Good(s, cfg.maxPoints, cfg.gradingMode) && |s.questions| <= Max(0, num)
    ensures NotesOk(s.notesUsed, paths, topics) && Cited(s.questions, paths, pagesOf)
  {
    s := s0;
    var n := 0;
    while n < |paths|
      invariant 0 <= n <= |paths|
      invariant Good(s, cfg.maxPoints, cfg.gradingMode) && |s.questions| <= Max(0, num)
      invariant NotesOk(s.notesUsed, paths, topics) && Cited(s.questions, paths, pagesOf)
    {
      s := NoteRound(s, topic, topics, paths[n], paths, pagesOf, perTopic, num, cfg, oracle, choice);
      if |s.questions| >= num {
        break;
      }
      n := n + 1;
    }
  }

  /** The topic loop: every topic in turn, stopping as soon as `num`
      questions are accepted. */
  method TopicLoop(topics: seq<string>, paths: seq<string>, pagesOf: string -> PageMap, num: int,
                   cfg: Settings, oracle: nat -> Reply, choice: nat -> nat) returns (s: State)
    requires |cfg.questionTypes| > 0
    ensures Good(s, cfg.maxPoints, cfg.gradingMode)
    ensures |s.questions| <= Max(0, num)
    ensures NotesOk(s.notesUsed, paths, topics) && Cited(s.questions, paths, pagesOf)
  {
    s := State([], {}, [], 0, 0);
    var perTopic := PerTopic(num, topics);
    var t := 0;
    while t < |topics|
      invariant 0 <= t <= |topics|
      invariant Good(s, cfg.maxPoints, cfg.gradingMode) && |s.questions| <= Max(0, num)
      invariant NotesOk(s.notesUsed, paths, topics) && Cited(s.questions, paths, pagesOf)
    {
      s := TopicNotes(s, topics[t], topics, paths, pagesOf, perTopic, num, cfg, oracle, choice);
      if |s.questions| >= num {
        break;
      }
      t := t + 1;
    }
  }

  /** One round of the fallback loop: a random note, and when it has pages, a
      random page whose first 1000 characters go to one oracle attempt. The
      topic is the first requested topic, or "general". */
  function FallbackRound(s: State, paths: seq<string>, pagesOf: string -> PageMap, topics: seq<string>,
                         cfg: Settings, oracle: nat -> Reply, choice: nat -> nat): (r: State)
    requires |paths| > 0 && |cfg.questionTypes| > 0
    ensures r.notesUsed == s.notesUsed
    ensures r.questions == s.questions ||
      (|r.questions| == |s.questions| + 1 && r.questions[..|s.questions|] == s.questions)
    ensures Good(s, cfg.maxPoints, cfg.gradingMode) ==> Good(r, cfg.maxPoints, cfg.gradingMode)
    ensures s.calls <= r.calls <= s.calls + 1
    ensures pagesOf(Choose(paths, choice, s.draws)) == [] ==> r == s.(draws := s.draws + 1)
    ensures Cited(s.questions, paths, pagesOf) ==> Cited(r.questions, paths, pagesOf)
  {
    var path := Choose(paths, choice, s.draws);
    var pages := pagesOf(path);
    if pages == [] then s.(draws := s.draws + 1)
    else
      var page := Choose(pages, choice, s.draws + 1);
      var requested := Choose(cfg.questionTypes, choice, s.draws + 2);
      var topic := if topics != [] then topics[0] else "general";
      var r := Attempt(s.(draws := s.draws + 3), oracle, cfg, requested, topic,
                       PyPrefix(page.text, 1000), page.num, path);
      if Cited(s.questions, paths, pagesOf) then
        var k :| 0 <= k < |pages| && pages[k] == page;
        assert OnPage(pagesOf(path), page.num);
        CitedStep(s.questions, r.questions, path, page.num, paths, pagesOf);
        r
      else r
  }

  /** The fallback `while` loop as written: it runs while fewer than `num`
      questions are accepted and gives itself no bound. Here each round spends
      one unit of `fuel`; the flag reports that the fuel ran out while the
      loop would have gone on. */
  function Fallback(s: State, paths: seq<string>, pagesOf: string -> PageMap, topics: seq<string>,
                    num: int, cfg: Settings, oracle: nat -> Reply, choice: nat -> nat, fuel: nat)
    : (r: (State, bool))
    requires |cfg.questionTypes| > 0
    ensures Good(s, cfg.maxPoints, cfg.gradingMode) ==> Good(r.0, cfg.maxPoints, cfg.gradingMode)
    ensures |s.questions| <= Max(0, num) ==> |r.0.questions| <= Max(0, num)
    ensures r.0.notesUsed == s.notesUsed
    ensures Cited(s.questions, paths, pagesOf) ==> Cited(r.0.questions, paths, pagesOf)
    ensures !r.1 ==> |r.0.questions| >= num || paths == []
    ensures r.1 ==> |r.0.questions| < num && paths != []
    decreases fuel
  {
    if |s.questions| >= num || paths == [] then (s, false)
    else if fuel == 0 then (s, true)
    else Fallback(FallbackRound(s, paths, pagesOf, topics, cfg, oracle, choice), paths, pagesOf,
                  topics, num, cfg, oracle, choice, fuel - 1)
  }

  /** When no note yields any text (an image-only PDF, say), the loop as
      written never ends: whatever fuel it is given, it stops only because
      the fuel ran out, and no question is added. */
  lemma {:induction false} UnreadableNotesSpin(s: State, paths: seq<string>, pagesOf: string -> PageMap,
                                                topics: seq<string>, num: int, cfg: Settings,
                                                oracle: nat -> Reply, choice: nat -> nat, fuel: nat)
    requires |cfg.questionTypes| > 0
    requires paths != [] && |s.questions| < num
    requires forall p :: p in paths ==> pagesOf(p) == []
    ensures var r := Fallback(s, paths, pagesOf, topics, num, cfg, oracle, choice, fuel);
      r.1 && r.0.questions == s.questions
    decreases fuel
  {
    if fuel > 0 {
      var t := FallbackRound(s, paths, pagesOf, topics, cfg, oracle, choice);
      assert pagesOf(Choose(paths, choice, s.draws)) == [];
      UnreadableNotesSpin(t, paths, pagesOf, topics, num, cfg, oracle, choice, fuel - 1);
    }
  }

  /** The fallback loop with an attempt bound: at most `MaxRetries` rounds
      for each question still missing, the allowance the topic loop gives a
      slot. It always ends, after at most that many oracle calls. */
  method BoundedFallback(s0: State, paths: seq<string>, pagesOf: string -> PageMap, topics: seq<string>,
                         num: int, cfg: Settings, oracle: nat -> Reply, choice: nat -> nat)
    returns (s: State, cutShort: bool)
    requires |cfg.questionTypes| > 0
    requires Good(s0, cfg.maxPoints, cfg.gradingMode) && |s0.questions| <= Max(0, num)
    requires Cited(s0.questions, paths, pagesOf)
    ensures Good(s, cfg.maxPoints, cfg.gradingMode) && |s.questions| <= Max(0, num)
    ensures Cited(s.questions, paths, pagesOf)
    ensures s.notesUsed == s0.notesUsed
    ensures s.calls <= s0.calls + MaxRetries * Max(0, num - |s0.questions|)
    ensures !cutShort ==> |s.questions| >= num || paths == []
    ensures cutShort ==> |s.questions| < num && paths != []
  {
    s := s0;
    var budget := MaxRetries * Max(0, num - |s0.questions|);
    var rounds := 0;
    while |s.questions| < num && paths != [] && rounds < budget
      invariant 0 <= rounds <= budget
      invariant Good(s, cfg.maxPoints, cfg.gradingMode) && |s.questions| <= Max(0, num)
      invariant Cited(s.questions, paths, pagesOf)
      invariant s.notesUsed == s0.notesUsed
      invariant s.calls <= s0.calls + rounds
      decreases budget - rounds
    {
      s := FallbackRound(s, paths, pagesOf, topics, cfg, oracle, choice);
      rounds := rounds + 1;
    }
    cutShort := |s.questions| < num && paths != [];
  }

  // ---------------------------------------------------------------------------
  // The request and the whole run
  // ---------------------------------------------------------------------------

  /** The request keys the generator reads; `None` is an absent key.
      "difficulty" and "include_solutions" only shape the prompt text. */
  datatype GenRequest = GenRequest(
    course: Option<string>,
    topics: Option<seq<string>>,
    noteFiles: Option<seq<string>>,
    questionTypes: Option<seq<string>>,
    numQuestions: Option<int>,
    gradingMode: Option<string>,
    maxPoints: Option<int>)

  function TopicsOf(req: GenRequest): seq<string> { req.topics.GetOr([]) }
  function TypesOf(req: GenRequest): seq<string> { req.questionTypes.GetOr(["short_answer"]) }
  function NumOf(req: GenRequest): int { req.numQuestions.GetOr(10) }
  function ConfigOf(req: GenRequest): Settings {
    Settings(TypesOf(req), req.maxPoints.GetOr(10), req.gradingMode.GetOr("strict_concepts"))
  }

  /** The notes to use: the request's note files, or when it names none, the
      course's PDFs found on disk (`globbed`). */
  function NotePaths(req: GenRequest, globbed: seq<string>): (paths: seq<string>)
    ensures req.noteFiles.GetOr([]) != [] ==> paths == req.noteFiles.value
    ensures req.noteFiles.GetOr([]) == [] ==> paths == globbed
  {
    var given := req.noteFiles.GetOr([]);
    if given != [] then given else globbed
  }

  datatype GenOutcome =
    | MissingNotes(course: Option<string>)
    | Generated(course: Option<string>, notesUsed: seq<NoteUse>, questions: seq<Question>,
                cutShort: bool)

  /** `generate_questions` as written, with the fallback loop run on `fuel`.
      `random.choice` on an empty list of question types raises, so at least
      one type is required. */
  method GenerateQuestions(req: GenRequest, globbed: seq<string>, pagesOf: string -> PageMap,
                           oracle: nat -> Reply, choice: nat -> nat, fuel: nat)
    returns (out: GenOutcome)
    requires |TypesOf(req)| > 0
    ensures out.MissingNotes? <==> NotePaths(req, globbed) == []
    ensures out.MissingNotes? ==> out.course == req.course
    ensures out.Generated? ==>
      out.course == req.course &&
      |out.questions| <= Max(0, NumOf(req)) &&
      Accepted(out.questions, ConfigOf(req).maxPoints, ConfigOf(req).gradingMode) &&
      NotesOk(out.notesUsed, NotePaths(req, globbed), TopicsOf(req)) &&
      Cited(out.questions, NotePaths(req, globbed), pagesOf)
    ensures out.Generated? && !out.cutShort ==> |out.questions| == Max(0, NumOf(req))
  {
    var paths := NotePaths(req, globbed);
    if paths == [] {
      return MissingNotes(req.course);
    }
    var cfg := ConfigOf(req);
    var s := TopicLoop(TopicsOf(req), paths, pagesOf, NumOf(req), cfg, oracle, choice);
    var r := Fallback(s, paths, pagesOf, TopicsOf(req), NumOf(req), cfg, oracle, choice, fuel);
    out := Generated(req.course, r.0.notesUsed, r.0.questions, r.1);
  }

  /** `generate_questions` with the bounded fallback loop: the same outcome
      contract, with no fuel, and a run cut short only after the attempt
      budget is spent. */
  method GenerateQuestionsBounded(req: GenRequest, globbed: seq<string>, pagesOf: string -> PageMap,
                                  oracle: nat -> Reply, choice: nat -> nat)
    returns (out: GenOutcome)
    requires |TypesOf(req)| > 0
    ensures out.MissingNotes? <==> NotePaths(req, globbed) == []
    ensures out.MissingNotes? ==> out.course == req.course
    ensures out.Generated? ==>
      out.course == req.course &&
      |out.questions| <= Max(0, NumOf(req)) &&
      Accepted(out.questions, ConfigOf(req).maxPoints, ConfigOf(req).gradingMode) &&
      NotesOk(out.notesUsed, NotePaths(req, globbed), TopicsOf(req)) &&
      Cited(out.questions, NotePaths(req, globbed), pagesOf)
    ensures out.Generated? && !out.cutShort ==> |out.questions| == Max(0, NumOf(req))
  {
    var paths := NotePaths(req, globbed);
    if paths == [] {
      return MissingNotes(req.course);
    }
    var cfg := ConfigOf(req);
    var s := TopicLoop(TopicsOf(req), paths, pagesOf, NumOf(req), cfg, oracle, choice);
    var cutShort;
    s, cutShort := BoundedFallback(s, paths, pagesOf, TopicsOf(req), NumOf(req), cfg, oracle, choice);
    out := Generated(req.course, s.notesUsed, s.questions, cutShort);
  }
}
