/**
 * The course table and the request checks that open `generate_quiz` in both
 * quiz sessions (quizzer/src/engines/quizzer_v2_engine.py and
 * quizzer-v2/quizzer_v2_engine.py, whose table and checks are the same
 * code): an unknown course, then the note files that fail
 * `validate_note_file`, then the defaults for the optional fields.
 */
module Courses {
  import opened Opt
  import opened Grounding
  import Generator

  /** One entry of `COURSES`. */
  datatype Course = Course(code: string, name: string, defaultNotes: seq<string>)

  const Table: seq<Course> := [
    Course("nlp", "Natural Language Processing",
           ["courses/natural-language-processing/notes/NLP Appunti.pdf"]),
    Course("ml-dl", "Machine Learning & Deep Learning",
           ["courses/machine-learning-and-deep-learning/notes/ML&DL Appunti.pdf"]),
    Course("ar", "Automated Reasoning",
           ["courses/automated-reasoning/notes/AR Appunti.pdf"]),
    Course("planning", "Planning",
           ["courses/planning-and-reinforcement-learning/notes/Planning appunti.pdf"]),
    Course("hci", "Human-Computer Interaction",
           ["courses/human-computer-interaction/notes/HCI Theory 1 Appunti.pdf",
            "courses/human-computer-interaction/notes/HCI Theory 2 Appunti.pdf"])
  ]

  /** `list(COURSES.keys())`, in table order. */
  function Codes(): (codes: seq<string>)
    ensures |codes| == |Table|
    ensures forall i :: 0 <= i < |Table| ==> codes[i] == Table[i].code
  {
    seq(|Table|, i requires 0 <= i < |Table| => Table[i].code)
  }

  /** The table entry of `code`, if there is one. */
  function Lookup(code: string): (c: Option<Course>)
    ensures c.Some? <==> code in Codes()
    ensures c.Some? ==> c.value in Table && c.value.code == code
  {
    LookupIn(Table, code)
  }

  function LookupIn(table: seq<Course>, code: string): (c: Option<Course>)
    ensures c.Some? <==> exists i :: 0 <= i < |table| && table[i].code == code
    ensures c.Some? ==> c.value in table && c.value.code == code
  {
    if table == [] then None
    else if table[0].code == code then Some(table[0])
    else LookupIn(table[1..], code)
  }

  /** Every course has at least one default note file. */
  lemma DefaultNotesNonEmpty(code: string)
    requires code in Codes()
    ensures Lookup(code).value.defaultNotes != []
  {
  }

  /** The note files that fail `validate_note_file`, in request order;
      `exists_` says which paths are on disk. */
  function Missing(files: seq<string>, exists_: string -> bool): (missing: seq<string>)
    ensures |missing| <= |files|
    ensures forall f :: f in missing <==> f in files && !ValidateNoteFile(exists_(f), f)
  {
    if files == [] then []
    else
      var rest := Missing(files[1..], exists_);
      assert forall f :: f in files <==> f == files[0] || f in files[1..];
      if ValidateNoteFile(exists_(files[0]), files[0]) then rest else [files[0]] + rest
  }

  /** The `setdefault` calls: each missing optional field takes its fixed
      default and a present one is kept. */
  function WithDefaults(req: Generator.GenRequest): (r: Generator.GenRequest)
    ensures r.course == req.course && r.noteFiles == req.noteFiles
    ensures r.topics == Some(req.topics.GetOr(["general"]))
    ensures r.questionTypes == Some(req.questionTypes.GetOr(["short_answer"]))
    ensures r.numQuestions == Some(req.numQuestions.GetOr(10))
    ensures r.gradingMode == Some(req.gradingMode.GetOr("strict_concepts"))
    ensures r.maxPoints == Some(req.maxPoints.GetOr(10))
  {
    req.(topics := Some(req.topics.GetOr(["general"])),
         questionTypes := Some(req.questionTypes.GetOr(["short_answer"])),
         numQuestions := Some(req.numQuestions.GetOr(10)),
         gradingMode := Some(req.gradingMode.GetOr("strict_concepts")),
         maxPoints := Some(req.maxPoints.GetOr(10)))
  }

  /** Filling in the defaults twice changes nothing more. */
  lemma WithDefaultsIdempotent(req: Generator.GenRequest)
    ensures WithDefaults(WithDefaults(req)) == WithDefaults(req)
  {
  }

  /** The outcome of the request checks. */
  datatype Prepared =
    | InvalidCourse(available: seq<string>)
    | MissingNotes(files: seq<string>)
    | Ready(course: Course, req: Generator.GenRequest)

  /** The checks of `generate_quiz`, in order: the course must be a key of
      `COURSES`; an absent or empty `note_files` takes the course's defaults;
      every note file must pass `validate_note_file`; then the optional
      fields take their defaults. */
  function Prepare(req: Generator.GenRequest, exists_: string -> bool): (p: Prepared)
    ensures p.InvalidCourse? <==> req.course.None? || req.course.value !in Codes()
    ensures p.InvalidCourse? ==> p.available == Codes()
    ensures !p.InvalidCourse? ==> Lookup(req.course.value).Some?
    ensures p.MissingNotes? ==>
      p.files == Missing(FilesOf(req, Lookup(req.course.value).value), exists_) && p.files != []
    ensures p.Ready? ==>
      p.course == Lookup(req.course.value).value &&
      Missing(FilesOf(req, p.course), exists_) == [] &&
      p.req == WithDefaults(req.(noteFiles := Some(FilesOf(req, p.course))))
  {
    if req.course.None? || req.course.value !in Codes() then InvalidCourse(Codes())
    else
      var course := Lookup(req.course.value).value;
      var files := FilesOf(req, course);
      var missing := Missing(files, exists_);
      if missing != [] then MissingNotes(missing)
      else Ready(course, WithDefaults(req.(noteFiles := Some(files))))
  }

  /** The note files a request uses: its own, or the course defaults when it
      names none. */
  function FilesOf(req: Generator.GenRequest, course: Course): (files: seq<string>)
    ensures req.noteFiles.GetOr([]) != [] ==> files == req.noteFiles.value
    ensures req.noteFiles.GetOr([]) == [] ==> files == course.defaultNotes
  {
    if req.noteFiles.GetOr([]) == [] then course.defaultNotes else req.noteFiles.value
  }

  /** A prepared request is complete: it has a known course, at least one
      note file, and every optional field set. */
  lemma ReadyIsComplete(req: Generator.GenRequest, exists_: string -> bool)
    requires Prepare(req, exists_).Ready?
    ensures var r := Prepare(req, exists_).req;
      r.course.Some? && r.course.value in Codes() &&
      r.noteFiles.Some? && r.noteFiles.value != [] &&
      r.topics.Some? && r.questionTypes.Some? && r.numQuestions.Some? &&
      r.gradingMode.Some? && r.maxPoints.Some?
  {
    DefaultNotesNonEmpty(req.course.value);
  }
}
