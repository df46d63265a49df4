/**
 * The older LaTeX-notes quiz of quizzer-v2/quiz.py: the tail of
 * `clean_latex`, the chunk list `extract_content_chunks` builds, the
 * question fallback, the five-level evaluation around the oracle, and
 * `format_reference`.
 *
 * The file read is an `Option` (None when reading raised), the environment
 * regexes `re.findall` runs are a parameter `findall`, and the
 * regex-by-regex LaTeX substitutions that open `clean_latex` are a
 * parameter `prepass`.
 */
module LatexQuiz {
  import opened Opt
  import opened Text

  // ---------------------------------------------------------------------------
  // clean_latex
  // ---------------------------------------------------------------------------

  const MaxChunk := 500

  /** The end of `clean_latex`: every whitespace run becomes one space, the
      ends are stripped, and at most 500 characters are kept. Nothing is left
      exactly when the text was only whitespace. */
  function CleanTail(t: string): (r: string)
    ensures |r| <= MaxChunk
    ensures r == [] <==> AllSpace(t)
    ensures r == [] || !IsSpace(r[0])
    ensures Collapsed(r)
  {
    var s := Strip(Collapse(t));
    CleanShape(t);
    if |s| > MaxChunk then CollapsedSlice(s, 0, MaxChunk); s[..MaxChunk] else s
  }

  /** `clean_latex`, with its substitutions before the tail as `prepass`. */
  function CleanLatex(prepass: string -> string, text: string): string {
    CleanTail(prepass(text))
  }

  /** Cleaning a text that was short enough to keep whole changes nothing
      the second time. */
  lemma CleanTwice(t: string)
    requires |Strip(Collapse(t))| <= MaxChunk
    ensures CleanTail(CleanTail(t)) == CleanTail(t)
  {
    var r := CleanTail(t);
    CleanShape(t);
    assert r == Strip(Collapse(t));
    CleanFixed(r);
  }

  /** A collapsed, unpadded text short enough to keep whole is its own
      cleaning. */
  lemma CleanFixed(r: string)
    requires Collapsed(r) && |r| <= MaxChunk
    requires r == [] || (!IsSpace(r[0]) && !IsSpace(r[|r| - 1]))
    ensures CleanTail(r) == r
  {
    CollapseFixed(r);
    if r != [] {
      StripUnpadded(r);
    } else {
      assert Strip(r) == [];
    }
  }

  // ---------------------------------------------------------------------------
  // extract_content_chunks
  // ---------------------------------------------------------------------------

  /** The four environments, in the order they are collected. */
  datatype Kind = Definition | Theorem | Proposition | Lemma

  function Rank(k: Kind): nat {
    match k
    case Definition => 0
    case Theorem => 1
    case Proposition => 2
    case Lemma => 3
  }

  /** The chunk type as the code spells it. */
  function KindName(k: Kind): string {
    match k
    case Definition => "definition"
    case Theorem => "theorem"
    case Proposition => "proposition"
    case Lemma => "lemma"
  }

  /** The title used when the environment has no `[...]` option. */
  function DefaultTitle(k: Kind): (t: string)
    ensures t != []
  {
    match k
    case Definition => "Definition"
    case Theorem => "Theorem"
    case Proposition => "Proposition"
    case Lemma => "Lemma"
  }

  /** One `re.findall` match: the optional title group ("" when absent)
      and the body. */
  datatype Match = Match(title: string, body: string)

  datatype Chunk = Chunk(kind: Kind, title: string, text: string)

  /** `title or 'Definition'` and its siblings. */
  function TitleOr(title: string, k: Kind): (t: string)
    ensures t != []
    ensures title != [] ==> t == title
  {
    if title != [] then title else DefaultTitle(k)
  }

  /** The chunk a match becomes. */
  function ChunkOf(prepass: string -> string, k: Kind, m: Match): Chunk {
    Chunk(k, TitleOr(m.title, k), CleanLatex(prepass, m.body))
  }

  /** Every chunk has a title and a non-empty text of at most 500
      characters. */
  predicate Shaped(cs: seq<Chunk>) {
    forall i :: 0 <= i < |cs| ==> cs[i].title != [] && cs[i].text != [] && |cs[i].text| <= MaxChunk
  }

  predicate AllOfKind(cs: seq<Chunk>, k: Kind) {
    forall i :: 0 <= i < |cs| ==> cs[i].kind == k
  }

  /** The matches of one environment whose cleaned body is not empty, in
      match order. */
  function Keep(prepass: string -> string, k: Kind, ms: seq<Match>): (cs: seq<Chunk>)
    ensures |cs| <= |ms|
    ensures AllOfKind(cs, k) && Shaped(cs)
  {
    if ms == [] then []
    else
      var c := ChunkOf(prepass, k, ms[0]);
      var rest := Keep(prepass, k, ms[1..]);
      if c.text != [] then [c] + rest else rest
  }

  /** Every kept chunk is the chunk of one of the matches, and every match
      whose body is not only whitespace gives its chunk. */
  lemma {:induction false} KeepMatches(prepass: string -> string, k: Kind, ms: seq<Match>)
    ensures forall c :: c in Keep(prepass, k, ms) ==> exists m :: m in ms && c == ChunkOf(prepass, k, m)
    ensures forall m :: m in ms && !AllSpace(prepass(m.body)) ==> ChunkOf(prepass, k, m) in Keep(prepass, k, ms)
    decreases |ms|
  {
    if ms != [] {
      var c := ChunkOf(prepass, k, ms[0]);
      var rest := Keep(prepass, k, ms[1..]);
      KeepMatches(prepass, k, ms[1..]);
      assert Keep(prepass, k, ms) == if c.text != [] then [c] + rest else rest;
      forall m | m in ms && !AllSpace(prepass(m.body))
        ensures ChunkOf(prepass, k, m) in Keep(prepass, k, ms)
      {
        if m != ms[0] {
          assert m in ms[1..];
        }
      }
      forall x | x in Keep(prepass, k, ms)
        ensures exists m :: m in ms && x == ChunkOf(prepass, k, m)
      {
        if x != c {
          assert x in rest;
          var m :| m in ms[1..] && x == ChunkOf(prepass, k, m);
          assert m in ms;
        }
      }
    }
  }

  /** Chunks come kind by kind in collection order. */
  predicate Ordered(cs: seq<Chunk>) {
    forall i, j :: 0 <= i < j < |cs| ==> Rank(cs[i].kind) <= Rank(cs[j].kind)
  }

  /** `extract_content_chunks`: nothing when the file cannot be read;
      otherwise the kept definitions, theorems, propositions and lemmas, in
      that order. */
  function ExtractChunks(content: Option<string>, findall: (string, Kind) -> seq<Match>,
                         prepass: string -> string): (cs: seq<Chunk>)
    ensures content.None? ==> cs == []
    ensures Ordered(cs) && Shaped(cs)
  {
    match content
    case None => []
    case Some(text) =>
      var d := Keep(prepass, Definition, findall(text, Definition));
      var t := Keep(prepass, Theorem, findall(text, Theorem));
      var p := Keep(prepass, Proposition, findall(text, Proposition));
      var l := Keep(prepass, Lemma, findall(text, Lemma));
      OrderedBlocks(d, t, p, l);
      d + t + p + l
  }

  /** Four blocks of one kind each, in rank order, make an ordered list. */
  lemma OrderedBlocks(d: seq<Chunk>, t: seq<Chunk>, p: seq<Chunk>, l: seq<Chunk>)
    requires AllOfKind(d, Definition) && AllOfKind(t, Theorem)
    requires AllOfKind(p, Proposition) && AllOfKind(l, Lemma)
    requires Shaped(d) && Shaped(t) && Shaped(p) && Shaped(l)
    ensures Ordered(d + t + p + l) && Shaped(d + t + p + l)
  {
    var cs := d + t + p + l;
    forall i | 0 <= i < |cs|
      ensures Rank(cs[i].kind) == (if i < |d| then 0 else if i < |d| + |t| then 1
                                   else if i < |d| + |t| + |p| then 2 else 3)
      ensures cs[i].title != [] && cs[i].text != [] && |cs[i].text| <= MaxChunk
    {
      if i < |d| { assert cs[i] == d[i]; }
      else if i < |d| + |t| { assert cs[i] == t[i - |d|]; }
      else if i < |d| + |t| + |p| { assert cs[i] == p[i - |d| - |t|]; }
      else { assert cs[i] == l[i - |d| - |t| - |p|]; }
    }
  }

  /** The chunks of one kind, in order. */
  function OfKind(cs: seq<Chunk>, k: Kind): (r: seq<Chunk>)
    ensures |r| <= |cs|
  {
    if cs == [] then []
    else if cs[0].kind == k then [cs[0]] + OfKind(cs[1..], k)
    else OfKind(cs[1..], k)
  }

  lemma {:induction false} OfKindAppend(a: seq<Chunk>, b: seq<Chunk>, k: Kind)
    ensures OfKind(a + b, k) == OfKind(a, k) + OfKind(b, k)
    decreases |a|
  {
    if a != [] {
      assert (a + b)[0] == a[0];
      assert (a + b)[1..] == a[1..] + b;
      OfKindAppend(a[1..], b, k);
    } else {
      assert a + b == b;
    }
  }

  lemma {:induction false} OfKindBlock(a: seq<Chunk>, k: Kind, k': Kind)
    requires AllOfKind(a, k')
    ensures OfKind(a, k) == if k == k' then a else []
    decreases |a|
  {
    if a != [] {
      OfKindBlock(a[1..], k, k');
    }
  }

  /** Four single-kind blocks in environment order: reading one kind out of
      their concatenation gives that kind's block. */
  lemma OfKindBlocks(d: seq<Chunk>, t: seq<Chunk>, p: seq<Chunk>, l: seq<Chunk>, k: Kind)
    requires AllOfKind(d, Definition) && AllOfKind(t, Theorem)
    requires AllOfKind(p, Proposition) && AllOfKind(l, Lemma)
    ensures OfKind(d + t + p + l, k) ==
      match k
      case Definition => d
      case Theorem => t
      case Proposition => p
      case Lemma => l
  {
    OfKindAppend(d + t + p, l, k);
    OfKindAppend(d + t, p, k);
    OfKindAppend(d, t, k);
    OfKindBlock(d, k, Definition);
    OfKindBlock(t, k, Theorem);
    OfKindBlock(p, k, Proposition);
    OfKindBlock(l, k, Lemma);
    match k
    case Definition =>
    case Theorem =>
    case Proposition =>
    case Lemma =>
  }

  /** Reading one kind out of the chunk list gives back exactly the kept
      matches of that environment, in match order: chunks of different
      environments never mix. */
  lemma ChunksByKind(text: string, findall: (string, Kind) -> seq<Match>,
                     prepass: string -> string, k: Kind)
    ensures OfKind(ExtractChunks(Some(text), findall, prepass), k) == Keep(prepass, k, findall(text, k))
  {
    var d := Keep(prepass, Definition, findall(text, Definition));
    var t := Keep(prepass, Theorem, findall(text, Theorem));
    var p := Keep(prepass, Proposition, findall(text, Proposition));
    var l := Keep(prepass, Lemma, findall(text, Lemma));
    assert ExtractChunks(Some(text), findall, prepass) == d + t + p + l;
    OfKindBlocks(d, t, p, l, k);
    match k
    case Definition =>
    case Theorem =>
    case Proposition =>
    case Lemma =>
  }

  // ---------------------------------------------------------------------------
  // generate_question_from_chunk
  // ---------------------------------------------------------------------------

  /** What the oracle gave back: nothing, an exception, or an object that
      may carry a "question". */
  datatype QuestionReply = NoQuestionReply | QuestionRaised | Parsed(question: Option<string>)

  /** `f"Explain the {chunk_type}: {title}"` */
  function FallbackQuestion(k: Kind, title: string): string {
    "Explain the " + KindName(k) + ": " + title
  }

  /** The question for a chunk: the oracle's "question" when it has one,
      the fallback otherwise. */
  function QuestionFor(k: Kind, title: string, reply: QuestionReply): (q: string)
    ensures reply.Parsed? && reply.question.Some? ==> q == reply.question.value
    ensures !(reply.Parsed? && reply.question.Some?) ==> q == FallbackQuestion(k, title)
  {
    match reply
    case Parsed(Some(question)) => question
    case _ => FallbackQuestion(k, title)
  }

  /** The fallback names the chunk: it starts with "Explain the ", then the
      chunk type, and ends with the title. */
  lemma FallbackNamesChunk(k: Kind, title: string)
    ensures StartsWith(FallbackQuestion(k, title), "Explain the ")
    ensures EndsWith(FallbackQuestion(k, title), title)
    ensures Contains(FallbackQuestion(k, title), KindName(k))
  {
    var q := FallbackQuestion(k, title);
    var pre := "Explain the ";
    assert q == pre + KindName(k) + ": " + title;
    assert q[..|pre|] == pre;
    assert q[|pre|..|pre| + |KindName(k)|] == KindName(k);
    assert IsAt(q, KindName(k), |pre|);
    ContainsWitness(q, KindName(k), |pre|);
  }

  // ---------------------------------------------------------------------------
  // evaluate_answer_5_level
  // ---------------------------------------------------------------------------

  /** What the oracle gave back: nothing (None or an empty object), an
      exception, an object with an "error" key, an object without "level",
      or a level with an optional explanation. */
  datatype EvalReply =
    | NoEvalReply
    | EvalRaised
    | ErrorKey
    | NoLevel
    | Leveled(level: string, explanation: Option<string>)

  /** The second element of the returned pair, by the case that produced it. */
  datatype Feedback =
    | TooBrief
    | ParsingError
    | MissingLevel
    | NoResponse
    | EvaluationError
    | Explained(explanation: Option<string>)

  datatype Evaluation = Evaluation(level: string, feedback: Feedback)

  const Wrong := "WRONG"

  /** The answer is too brief when it has fewer than 10 characters once
      stripped. */
  predicate TooBriefAnswer(answer: string) {
    |Strip(answer)| < 10
  }

  /** `evaluate_answer_5_level` around the oracle: a brief answer is WRONG
      before the oracle is asked; then an error key, a missing level,
      nothing or an exception are all WRONG; a level is uppercased. */
  function Evaluate(answer: string, reply: EvalReply): (e: Evaluation)
    ensures TooBriefAnswer(answer) ==> e == Evaluation(Wrong, TooBrief)
    ensures e.level != Wrong ==> !TooBriefAnswer(answer) && reply.Leveled?
    ensures !TooBriefAnswer(answer) && reply.Leveled? ==>
      e.level == Upper(reply.level) && e.feedback == Explained(reply.explanation)
    ensures !TooBriefAnswer(answer) && !reply.Leveled? ==> e.level == Wrong
    ensures forall i :: 0 <= i < |e.level| ==> !('a' <= e.level[i] <= 'z')
  {
    if TooBriefAnswer(answer) then Evaluation(Wrong, TooBrief)
    else
      match reply
      case NoEvalReply => Evaluation(Wrong, NoResponse)
      case EvalRaised => Evaluation(Wrong, EvaluationError)
      case ErrorKey => Evaluation(Wrong, ParsingError)
      case NoLevel => Evaluation(Wrong, MissingLevel)
      case Leveled(level, explanation) => Evaluation(Upper(level), Explained(explanation))
  }

  /** A brief answer never reaches the oracle: whatever it would have said,
      the evaluation is the same; and the level is already in upper case. */
  lemma BriefAnswersSkipOracle(answer: string, r1: EvalReply, r2: EvalReply)
    ensures TooBriefAnswer(answer) ==> Evaluate(answer, r1) == Evaluate(answer, r2)
    ensures Upper(Evaluate(answer, r1).level) == Evaluate(answer, r1).level
  {
    var lv := Evaluate(answer, r1).level;
    assert forall i :: 0 <= i < |lv| ==> UpperChar(lv[i]) == lv[i];
  }

  // ---------------------------------------------------------------------------
  // format_reference
  // ---------------------------------------------------------------------------

  /** `format_reference`: a non-empty formatted text wins over the raw
      content. */
  function FormatReference(content: string, formatted: Option<string>): (r: string)
    ensures formatted.Some? && formatted.value != [] ==> r == formatted.value
    ensures formatted.None? || formatted.value == [] ==> r == content
  {
    if formatted.Some? && formatted.value != [] then formatted.value else content
  }
}
