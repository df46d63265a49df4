# Quizzer core in Dafny

This project models the deterministic core of Quizzer, a course-notes quiz
application. Quizzer reads lecture PDFs, asks a language model for questions
grounded in them, grades the answers, and tracks quiz sessions, ratings and
accounts. The repository holds two generations of the code:

- `quizzer/src/...` and `quizzer-v2/src/...`, whose grounding, generator and
  rating modules are identical. One Dafny module serves both copies.
- The older top-level `quizzer-v2/*.py` files, whose formulas differ. They get
  their own modules (`GeneratorLegacy`, `GradingLegacy`, `SessionLegacy`) and
  are not merged with the newer code.

Everything the core gets from outside becomes a parameter:

- A PDF is a page map: an ascending sequence of (page number, text) pairs.
  Reading one is an `Option` (a failed read is `None`).
- File existence and directory globbing are predicates and sequences.
- Each language-model call is an oracle indexed by a call counter. Its reply
  is a datatype with a variant for every shape the code branches on: no
  response, an `"error"` key, a raised exception, missing fields, and a
  well-formed item.
- `random.choice` is a choice function indexed by a draw counter.
- The SQLite store is an immutable map from username to account.
- The password hash is an uninterpreted function, and the salt is a parameter.

Sessions and the chatbot are immutable records with pure transition functions.
Each Python method that mutates `self` becomes a function returning the new
state together with the method's result.

Modules, one per component:

- `Text` models the Python `str` primitives the code relies on: `lower`,
  `upper`, `strip`, `split`, `join`, `in`, `startswith`, and the `\s+`
  collapse. Whitespace is Python's ASCII whitespace.
- `Numeric` models `int()` truncation and `round()` half-to-even on reals.
- `Opt` is the option type.
- The engine modules: `Grounding`, `Questions`, `Generator`,
  `GeneratorLegacy`, `Grading`, `GradingLegacy`, `Courses`, `Session`,
  `SessionLegacy`, `Chatbot`, `Rating`, `Accounts`, `LatexQuiz`.

Ratios and weights are exact `real` numbers. `int(x)` is modelled as
truncation toward zero and `round(x)` as round-half-to-even, both written out
explicitly.

## Model

Paths are relative to the repository root. The grounding, generator and
rating files are cited in their `quizzer-v2/src` copy; the `quizzer/src`
copies are byte-identical.

| member | source | states |
|---|---|---|
| Numeric.Trunc | quizzer-v2/src/engines/grading_engine.py:253 | `int()` of a real drops the fraction toward zero: the result is within one of the input, on the input's side of zero |
| Numeric.RoundHalfEven | quizzer-v2/src/engines/grading_engine.py:143 | `round()` lands within one half of the input, and an exact tie goes to the even neighbour |
| Grounding.PagesFrom | quizzer-v2/src/utils/pdf_grounding.py:82-88 | the extracted page map is in ascending page order, numbers pages from 1, and holds every page whose text is non-empty |
| Grounding.ExtractPdfText | quizzer-v2/src/utils/pdf_grounding.py:56-100 | a cached path returns the cached pages and leaves the cache as it was; a failed read returns no pages and caches nothing; a successful read returns the pages and caches them |
| Grounding.PageContent | quizzer-v2/src/utils/pdf_grounding.py:148-159 | the text of a page is absent exactly when no page has that number; otherwise it is that page's text |
| Grounding.Score | quizzer-v2/src/utils/pdf_grounding.py:117-123 | a page's relevance never exceeds the number of query tokens and is zero exactly when no token occurs in the lowercased page text |
| Grounding.FirstHit | quizzer-v2/src/utils/pdf_grounding.py:127-130 | the excerpt is anchored at the first token, in query order, that occurs on the page; no earlier token occurs |
| Grounding.Window | quizzer-v2/src/utils/pdf_grounding.py:130-133 | the excerpt is exactly the stripped slice from 150 characters before the match to 150 after it, clipped to the text; it is a substring of the page text of at most 300 characters |
| Grounding.WindowShowsTerm | quizzer-v2/src/utils/pdf_grounding.py:127-133 | the window around a match of a query term of at most 150 characters shows the whole term, in any case |
| Grounding.Hit | quizzer-v2/src/utils/pdf_grounding.py:125-141 | a search result carries the page's number, its full original text, the searched path and its score; its excerpt is the window around the first occurrence, in the lowercased text, of the first query token found there |
| Grounding.HitShowsTerm | quizzer-v2/src/utils/pdf_grounding.py:125-133 | the excerpt of a hit shows the query token it is anchored at, when that token is at most 150 characters long |
| Grounding.EntriesFrom | quizzer-v2/src/utils/pdf_grounding.py:119-142 | a page yields a result exactly when its score is positive, at most once, in page order |
| Grounding.Insert | quizzer-v2/src/utils/pdf_grounding.py:145 | one insertion step of the sort adds exactly the new element to the multiset of the list |
| Grounding.SortByScore | quizzer-v2/src/utils/pdf_grounding.py:145 | the sort returns a permutation of its input |
| Grounding.SortRanked | quizzer-v2/src/utils/pdf_grounding.py:145 | the sort is by non-increasing score and stable: equal scores keep their page order |
| Grounding.QueryTerms | quizzer-v2/src/utils/pdf_grounding.py:117 | the query tokens are non-empty and free of whitespace, and there are none exactly when the query is blank |
| Grounding.ResultsAt | quizzer-v2/src/utils/pdf_grounding.py:119-141 | the i-th result is the hit of the page the i-th ranked entry points at |
| Grounding.ResultsHas | quizzer-v2/src/utils/pdf_grounding.py:119-141 | every ranked entry's page has its hit among the results |
| Grounding.Search | quizzer-v2/src/utils/pdf_grounding.py:102-146 | the number of results is min(`max_results`, number of scoring pages), and Python's negative slice bound is followed for a negative `max_results` |
| Grounding.SearchFacts | quizzer-v2/src/utils/pdf_grounding.py:102-146 | every result names the searched path, has a score in 1..(number of query tokens) and an excerpt of at most 300 characters, and holds the full text of a page in the map; with distinct page numbers no page comes back twice |
| Grounding.SearchComplete | quizzer-v2/src/utils/pdf_grounding.py:119-146 | when `max_results` leaves room for every scoring page, every scoring page's hit is among the results |
| Grounding.SearchRanking | quizzer-v2/src/utils/pdf_grounding.py:119-146 | every result is the hit of some page; results are sorted by non-increasing score, with ties in ascending page order; any scoring page left out scores no higher than every returned result |
| Grounding.BlankQueryFindsNothing | quizzer-v2/src/utils/pdf_grounding.py:117-125 | an empty or whitespace-only query finds nothing |
| Grounding.FirstBreak | quizzer-v2/src/utils/pdf_grounding.py:175 | finds the first `[.!?]` followed by whitespace at or after a position, or reports there is none |
| Grounding.SplitSentences | quizzer-v2/src/utils/pdf_grounding.py:175 | sentence splitting always yields at least one piece, the empty text included |
| Grounding.SplitSentencesFirst | quizzer-v2/src/utils/pdf_grounding.py:175 | the first sentence opens the text and is exactly the text before the first break |
| Grounding.SplitSentencesBreaks | quizzer-v2/src/utils/pdf_grounding.py:175 | no sentence contains a break, and every consumed separator is a sentence mark followed by whitespace only |
| Grounding.SplitSentencesJoin | quizzer-v2/src/utils/pdf_grounding.py:175 | splitting loses nothing: the sentences with the consumed separators put back between them give the text again |
| Grounding.SplitSentencesTrimmed | quizzer-v2/src/utils/pdf_grounding.py:175 | every sentence after a break starts past the whole whitespace run, as the greedy `\s+` consumes it |
| Grounding.FirstQuotable | quizzer-v2/src/utils/pdf_grounding.py:178-181 | picks the first sentence with 5..`max_words` words; every earlier sentence fails the test |
| Grounding.ExtractQuote | quizzer-v2/src/utils/pdf_grounding.py:161-185 | the quote never exceeds `max_words` words; it is the first sentence with 5..`max_words` words, stripped, when there is one; otherwise it ends with "..." and its words are the first min(`max_words`, word count) words of the cleaned text with "..." glued to the last, or "..." alone for a blank text |
| Grounding.Truncated | quizzer-v2/src/utils/pdf_grounding.py:184-185 | the first `max_words` words, space-joined with the mark glued on, split back into exactly those words with the mark on the last |
| Grounding.TruncatedWords | quizzer-v2/src/utils/pdf_grounding.py:184-185 | joining kept words and gluing a mark on splits back into the kept words with the mark on the last one, or the mark alone, and ends with the mark |
| Grounding.Cite | quizzer-v2/src/utils/pdf_grounding.py:202-210 | a citation keeps the result's path and page, and its quote has at most 25 words |
| Grounding.CitationsOf | quizzer-v2/src/utils/pdf_grounding.py:201-212 | one citation per search result, in result order |
| Grounding.FindGrounding | quizzer-v2/src/utils/pdf_grounding.py:187-212 | at most three citations, all of the searched file, each citing one of the top three results for "topic concept" with a quote of at most 25 words |
| Grounding.ExtractTopicSections | quizzer/src/utils/pdf_grounding.py:236-242 | exactly one key per topic, each mapped to the at most five search results for that topic |
| Grounding.BaseName | quizzer/src/engines/chatbot_engine.py:284 | `Path(p).name` holds no slash and is never "."; empty and "." components are dropped as `pathlib` drops them |
| Grounding.BaseNameJoin | quizzer/src/engines/chatbot_engine.py:284 | a directory joined with a real file name has that file name as its name |
| Grounding.ValidateNoteFileIff | quizzer-v2/src/utils/pdf_grounding.py:214-224 | a note file is valid exactly when it exists and its base name is "X.pdf" with a non-empty stem X |
| Questions.QId | quizzer/src/engines/quizzer_v2_engine.py:326 | a question id starts with "q" and has at least one digit after it |
| Questions.QIdInjective | quizzer/src/engines/quizzer_v2_engine.py:326 | different sequence numbers give different ids |
| Questions.RubricConcepts | quizzer-v2/src/engines/question_generator.py:497-498 | the concepts graded are the given ones, or the topic alone when none are given; never empty |
| Questions.GenerateRubric | quizzer-v2/src/engines/question_generator.py:486-520 | one criterion per graded concept, all worth the same points, followed by a single completeness criterion |
| Questions.RubricSums | quizzer-v2/src/engines/question_generator.py:514-518 | the rubric's points always add up to exactly `max_points` |
| Questions.RubricShares | quizzer-v2/src/engines/question_generator.py:504-518 | with a non-negative maximum every criterion is worth at least zero, the concept criteria share at most `int(max_points*0.7)`, and the completeness criterion gets at least 30 % |
| Generator.ItemOf | quizzer-v2/src/engines/question_generator.py:201-226 | an item is found only in a reply without an error; an unwrapped reply counts as an item exactly when it has a question or a type |
| Generator.MapType | quizzer-v2/src/engines/question_generator.py:228-235 | only "mcq" and "true_false" become `mcq_single`; every other or missing type becomes `short_answer` |
| Generator.KeptTypes | quizzer-v2/src/engines/question_generator.py:336-342 | a generated item is kept exactly for the allowed pairs: a choice item for `mcq_single`/`mcq_multi`, any other item for `short_answer`/`derivation`/`proof`/`code` |
| Generator.Assemble | quizzer-v2/src/engines/question_generator.py:242-284 | the built question has the emitted shape, the given id, the mapped type, the item's prompt, one grounding entry quoting the source page, and the item's tags as concepts (the topic when it has none) |
| Generator.SingleQuestion | quizzer-v2/src/engines/question_generator.py:169-293 | a question comes back exactly when the reply holds an item whose mapped type matches the request; it is then well formed and grounded in the given page |
| Generator.NeverMulti | quizzer-v2/src/engines/question_generator.py:228-240 | an emitted question is never of type `mcq_multi`, whatever was requested |
| Generator.SeenRejects | quizzer-v2/src/engines/question_generator.py:307-323 | once a prompt is accepted, any prompt with the same lowercased, stripped form is rejected |
| Generator.SeenOfHas | quizzer-v2/src/engines/question_generator.py:115-116 | every accepted prompt is in the seen set |
| Generator.AcceptKeepsGood | quizzer-v2/src/engines/question_generator.py:114-116 | accepting a valid question keeps the invariant: ids numbered from "q1", prompts at least 10 characters and pairwise distinct after lowercasing and stripping, and the seen set equal to the accepted prompts |
| Generator.Choose | quizzer-v2/src/engines/question_generator.py:92 | a random choice returns an element of the list |
| Generator.Attempt | quizzer-v2/src/engines/question_generator.py:101-117 | one oracle call either leaves the questions alone or appends exactly one, keeps the invariant, and grounds the new question in the chosen section |
| Generator.Retry | quizzer-v2/src/engines/question_generator.py:97-117 | a slot makes at most three oracle calls, makes all three if none succeeds, keeps the invariant, and a question it adds cites the given note and page |
| Generator.Slot | quizzer-v2/src/engines/question_generator.py:90-117 | a slot draws a section and a type, makes at most three calls and adds at most one question, which cites the drawn section's page of the note |
| Generator.NoteInfo | quizzer-v2/src/engines/question_generator.py:79-83 | the note record names the path, the one topic and at most two pages |
| Generator.Record | quizzer-v2/src/engines/question_generator.py:84-85 | a note record is added only if absent: no duplicates, nothing lost |
| Generator.RecordKeepsNotesOk | quizzer-v2/src/engines/question_generator.py:77-85 | recording a note of the request under a requested topic keeps `notes_used` free of duplicates, with one topic and at most two pages per entry |
| Generator.SectionsOnPages | quizzer-v2/src/utils/pdf_grounding.py:119-141 | every section a note's search returns lies on a page of that note |
| Generator.NoteRound | quizzer-v2/src/engines/question_generator.py:74-120 | a note whose search finds nothing changes nothing; otherwise it is recorded in `notes_used`, and the total stays at most `num_questions` with every question citing a page of one of the request's notes |
| Generator.Slots | quizzer-v2/src/engines/question_generator.py:88-120 | a note's slots add at most `num_to_gen` questions, keep the invariant, and every question added cites that note at one of its pages |
| Generator.TopicNotes | quizzer-v2/src/engines/question_generator.py:74-123 | a topic never takes the total past `num_questions`, records only notes of the request, and keeps every citation on a page of one of those notes |
| Generator.TopicLoop | quizzer-v2/src/engines/question_generator.py:70-126 | the topic loop keeps the invariant, stops at `num_questions`, and every question it accepts cites a page of one of the request's notes |
| Generator.FallbackRound | quizzer-v2/src/engines/question_generator.py:129-155 | one fallback round makes at most one oracle call and adds at most one question, citing the drawn page of the drawn note; an unreadable note only consumes a draw |
| Generator.Fallback | quizzer-v2/src/engines/question_generator.py:129-155 | the fallback loop as written (run with fuel): it keeps the invariant and never exceeds `num_questions`; it is cut short only while questions are still missing |
| Generator.UnreadableNotesSpin | quizzer-v2/src/engines/question_generator.py:129-135 | when no note has a readable page, every round adds nothing and the loop never finishes, however much fuel it gets |
| Generator.BoundedFallback | quizzer-v2/src/engines/question_generator.py:129-155 | the corrected fallback makes at most three oracle calls per missing question, keeps the invariant, never exceeds `num_questions`, and is cut short only while questions are still missing |
| Generator.NotePaths | quizzer-v2/src/engines/question_generator.py:49-54 | the given note files are used when there are any, otherwise the course's globbed files |
| Generator.GenerateQuestions | quizzer-v2/src/engines/question_generator.py:29-167 | `missing_notes` exactly when no note path resolves; otherwise at most `num_questions` well-formed questions with pairwise distinct prompts, numbered from "q1", each citing one of the request's notes at a page that note has, and exactly `num_questions` unless the loop is cut short |
| Generator.GenerateQuestionsBounded | quizzer-v2/src/engines/question_generator.py:29-167 | with the bounded fallback: `missing_notes` exactly when no note path resolves; otherwise at most `num_questions` well-formed questions with pairwise distinct prompts, numbered from "q1", each citing one of the request's notes at a page that note has, and exactly `num_questions` unless the attempt budget runs out |
| GeneratorLegacy.PromptOf | quizzer-v2/question_generator.py:210 | the prompt is the reply's "prompt", else its "question", else "" |
| GeneratorLegacy.LegacyQuestion | quizzer-v2/question_generator.py:158-247 | a question comes back exactly when the reply is neither missing nor an error; its type is the requested one verbatim; choice types get options and correct answers, all others a canonical answer, concepts and a rubric |
| GeneratorLegacy.LegacyGoodAppend | quizzer-v2/question_generator.py:107-108 | appending a question keeps ids numbered from "q1"; prompts are not deduplicated |
| GeneratorLegacy.LegacyAttempt | quizzer-v2/question_generator.py:95-108 | an oracle call adds exactly one question when the reply is usable and none otherwise |
| GeneratorLegacy.SectionFor | quizzer-v2/question_generator.py:89 | slot j uses section j modulo the number of sections |
| GeneratorLegacy.LegacySlots | quizzer-v2/question_generator.py:86-111 | a note's slots make one oracle call each, add at most `num_to_gen` questions, and every question added cites that note at one of its pages |
| GeneratorLegacy.LegacyNoteRound | quizzer-v2/question_generator.py:72-111 | a note whose search finds nothing changes nothing; otherwise it is recorded in `notes_used`, and the total stays at most `num_questions` with every question citing a page of one of the request's notes |
| GeneratorLegacy.LegacyTopicNotes | quizzer-v2/question_generator.py:72-114 | a topic never takes the total past `num_questions`, records only notes of the request, and keeps every citation on a page of one of those notes |
| GeneratorLegacy.LegacyTopicLoop | quizzer-v2/question_generator.py:68-117 | the topic loop keeps ids numbered and stops at `num_questions` |
| GeneratorLegacy.LegacyFallbackRound | quizzer-v2/question_generator.py:120-144 | one fallback round adds at most one question, citing the drawn page of the drawn note |
| GeneratorLegacy.LegacyFallback | quizzer-v2/question_generator.py:120-144 | the fallback never exceeds `num_questions`; it is cut short only while questions are still missing |
| GeneratorLegacy.LegacyGenerateQuestions | quizzer-v2/question_generator.py:28-156 | `missing_notes` exactly when no note path resolves; otherwise at most `num_questions` questions numbered from "q1", each citing one of the request's notes at a page that note has, exactly that many unless cut short |
| Grading.Decide | quizzer-v2/src/engines/grading_engine.py:146-151 | a ratio at or above the high threshold is correct, one between the thresholds is partially correct, and anything lower is incorrect |
| Grading.NormChoice | quizzer-v2/src/engines/grading_engine.py:65 | an empty answer-key entry normalises to ""; any other entry to a single non-blank character |
| Grading.UserChoice | quizzer-v2/src/engines/grading_engine.py:61-63 | the user's choice is at most one character, and empty exactly when the answer is blank |
| Grading.NormChoices | quizzer-v2/src/engines/grading_engine.py:65 | every answer-key entry is normalised, in order |
| Grading.GradeSingle | quizzer-v2/src/engines/grading_engine.py:56-92 | full points and "correct" exactly when the user's choice equals some normalised key entry, otherwise 0 and "incorrect"; one check records the same verdict; the guard flag is set |
| Grading.BlankAnswerMatchesEmptyEntry | quizzer-v2/src/engines/grading_engine.py:61-68 | a blank answer earns full marks when the key has an empty entry |
| Grading.UserLetters | quizzer-v2/src/engines/grading_engine.py:112-115 | only letters are selected from a multi-choice answer |
| Grading.OptionLetters | quizzer-v2/src/engines/grading_engine.py:124-127 | the declared option letters are letters |
| Grading.MultiRatio | quizzer-v2/src/engines/grading_engine.py:129-141 | the multi-choice ratio lies in [0, 1] and is 0 when nothing is correct |
| Grading.ExactSelectionScoresOne | quizzer-v2/src/engines/grading_engine.py:136-141 | selecting exactly the correct letters gives ratio 1 |
| Grading.StrayLetterIsFree | quizzer-v2/src/engines/grading_engine.py:129 | selecting a letter that is neither correct nor an option costs nothing |
| Grading.WrongLetterNeverHelps | quizzer-v2/src/engines/grading_engine.py:136-141 | selecting an extra wrong option never raises the ratio |
| Grading.RoundedShareWithin | quizzer-v2/src/engines/grading_engine.py:143 | `round(ratio*max)` stays within [0, max] |
| Grading.MultiChecks | quizzer-v2/src/engines/grading_engine.py:170-181 | the "all correct" check holds exactly when every correct letter was chosen, and "no incorrect" exactly when no wrong option was chosen |
| Grading.RoundedPoints | quizzer-v2/src/engines/grading_engine.py:143 | multi-choice points lie in [0, max], are max at ratio 1 and 0 at ratio 0 |
| Grading.MultiGrading | quizzer-v2/src/engines/grading_engine.py:107-188 | multi-choice points are the half-even rounding of ratio×max and lie in [0, max]; the decision uses thresholds 0.9 and 0.4; the checks are the two selection checks; the guard flag is set |
| Grading.VerdictDecision | quizzer-v2/src/engines/grading_engine.py:267-273 | "exact" and "semantically_correct" mean correct, "partially_correct" means partially correct, and any other verdict means incorrect |
| Grading.RubricChecks | quizzer-v2/src/engines/grading_engine.py:276-286 | one check per rubric criterion, in order, all met or all unmet together |
| Grading.FromVerdict | quizzer-v2/src/engines/grading_engine.py:252-286 | an answer with fewer than five characters left after removing `.,!?` and stripping gets 0 points, "incorrect" and no met check; otherwise points are `int(score*max)`, the decision follows the verdict, and checks are met when score ≥ 0.7 |
| Grading.TruncatedPoints | quizzer-v2/src/engines/grading_engine.py:374 | truncated points lie in [0, max], are max at ratio 1 and 0 at ratio 0 |
| Grading.KeyTerms | quizzer-v2/src/engines/grading_engine.py:367 | the key terms are exactly the canonical words longer than four characters, in order |
| Grading.Matches | quizzer-v2/src/engines/grading_engine.py:370 | the match count never exceeds the number of terms; it equals it exactly when every term occurs and is 0 exactly when none occurs |
| Grading.TermRatio | quizzer-v2/src/engines/grading_engine.py:370-371 | the keyword ratio lies in [0, 1], is 0 without key terms, and is 1 exactly when every key term occurs in the answer |
| Grading.KeywordFallback | quizzer-v2/src/engines/grading_engine.py:355-402 | fallback points are `int(ratio*10)` out of 10, the decision uses thresholds 0.9 and 0.4, the guard flag is off, and an answer containing every key term scores 10 and is correct |
| Grading.GradeOpen | quizzer-v2/src/engines/grading_engine.py:190-312 | a missing, failed or error reply falls back to keyword grading; a usable reply is graded from its verdict and score |
| Grading.GradeAnswer | quizzer-v2/src/engines/grading_engine.py:37-44 | `mcq_single` and `mcq_multi` go to their scorers; every other type, a missing one included, is graded as open-ended |
| GradingLegacy.LegacyMultiRatio | quizzer-v2/grading_engine.py:121-129 | the older ratio, max(0, (hits − misses)/number correct), lies in [0, 1] and is 0 when nothing is correct |
| GradingLegacy.LegacyExactSelectionScoresOne | quizzer-v2/grading_engine.py:121-129 | selecting exactly the correct letters gives ratio 1 |
| GradingLegacy.LegacyStrayLetterCosts | quizzer-v2/grading_engine.py:122 | any letter outside the correct set, option or not, never raises the older ratio and lowers it while it is positive |
| GradingLegacy.LegacyMultiChecks | quizzer-v2/grading_engine.py:146-157 | the checks hold when no correct letter is missed and when no letter outside the correct set was chosen |
| GradingLegacy.NothingLeftOver | quizzer-v2/grading_engine.py:123 | no false negatives exactly when every correct letter was chosen |
| GradingLegacy.LegacyMultiGrading | quizzer-v2/grading_engine.py:94-169 | points are `int(ratio*max)`; the decision uses thresholds 1.0 and 0.5, so "correct" means exactly the correct letters were chosen |
| GradingLegacy.LegacyFullRatioIsExact | quizzer-v2/grading_engine.py:129-135 | the older ratio reaches 1 exactly when the selection equals a non-empty correct set |
| GradingLegacy.PointsDecision | quizzer-v2/grading_engine.py:228-236 | the oracle's points are compared with 0.9 and 0.5 of the rubric total; with an empty rubric any points ≥ 0 count as correct |
| GradingLegacy.DivideThresholds | quizzer-v2/grading_engine.py:231-236 | comparing points with a fraction of the maximum is the same as comparing their ratio with that fraction |
| GradingLegacy.FromPoints | quizzer-v2/grading_engine.py:225-250 | the oracle's points and checks pass through unchanged, and the possible points are the rubric total |
| GradingLegacy.LegacyKeywordFallback | quizzer-v2/grading_engine.py:320-366 | fallback points are `int(ratio*10)` out of 10, the decision uses thresholds 0.7 and 0.4, the completeness check is met exactly when the decision is correct, and the guard flag is off |
| GradingLegacy.FallbacksAgreeOnPoints | quizzer-v2/grading_engine.py:338-346 | the older and newer keyword fallbacks award the same points; a newer correct is an older correct, and a newer partial is at least an older partial |
| GradingLegacy.LegacyGradeOpen | quizzer-v2/grading_engine.py:171-254 | a missing, failed or error reply falls back to keyword grading; otherwise the oracle's points are kept |
| GradingLegacy.LegacyGradeAnswer | quizzer-v2/grading_engine.py:27-44 | the same dispatch by type, to the older scorers |
| Courses.Codes | quizzer/src/engines/quizzer_v2_engine.py:22-46 | the available course codes are the table's, in table order |
| Courses.Lookup | quizzer/src/engines/quizzer_v2_engine.py:88 | a course is found exactly when its code is in the table, and the entry found has that code |
| Courses.LookupIn | quizzer/src/engines/quizzer_v2_engine.py:88 | lookup in any table finds an entry exactly when some entry has the code |
| Courses.DefaultNotesNonEmpty | quizzer/src/engines/quizzer_v2_engine.py:22-46 | every course has at least one default note file |
| Courses.Missing | quizzer/src/engines/quizzer_v2_engine.py:102-105 | the missing files are exactly the requested ones that fail note validation, and never more than requested |
| Courses.WithDefaults | quizzer/src/engines/quizzer_v2_engine.py:117-123 | each absent optional field gets its fixed default and each present one is kept |
| Courses.WithDefaultsIdempotent | quizzer/src/engines/quizzer_v2_engine.py:117-123 | filling in defaults twice changes nothing more |
| Courses.Prepare | quizzer/src/engines/quizzer_v2_engine.py:86-123 | `invalid_course`, with the code list, exactly when the course is missing or unknown; then `missing_notes` listing exactly the failing files; otherwise a request completed with defaults |
| Courses.FilesOf | quizzer/src/engines/quizzer_v2_engine.py:98-99 | the requested note files are used when non-empty, otherwise the course's defaults |
| Courses.ReadyIsComplete | quizzer-v2/quizzer_v2_engine.py:84-110 | a prepared request names a known course, has a non-empty note list, and has every optional field set |
| Session.NumberedIdsDistinct | quizzer/src/engines/quizzer_v2_engine.py:326 | sequentially numbered questions have pairwise distinct ids |
| Session.InitialConsistent | quizzer/src/engines/quizzer_v2_engine.py:360-373 | a fresh session satisfies the session invariant |
| Session.NextGenerated | quizzer/src/engines/quizzer_v2_engine.py:307-329 | a question is produced exactly when a request is stored and the generator returned one, and it is renumbered "q{n+1}" |
| Session.NumberedAppend | quizzer/src/engines/quizzer_v2_engine.py:268-270 | appending the renumbered question keeps the ids sequential |
| Session.Reset | quizzer/src/engines/quizzer_v2_engine.py:125-145 | starting a quiz stores the request and course, empties the generated list, cursor and totals, keeps the quiz and user, and takes a new session id only for a logged-in user |
| Session.StartQuiz | quizzer/src/engines/quizzer_v2_engine.py:77-171 | an invalid course or missing notes returns the error and leaves the session untouched; otherwise the session is reset and, when the first question arrives, the quiz holds "q1" alone; when it does not, the previous quiz is kept |
| Session.StartQuizFixed | quizzer/src/engines/quizzer_v2_engine.py:147-171 | the corrected start returns the same result and drops the active quiz when generation fails |
| Session.StartQuizFixedConsistent | quizzer/src/engines/quizzer_v2_engine.py:77-171 | the corrected start keeps the session invariant |
| Session.GenerateQuiz | quizzer/src/engines/quizzer_v2_engine.py:77-171 | an unknown or missing course gives `invalid_course` with the course list, and missing notes give that error with the missing files, both leaving the session untouched; otherwise the session holds the completed request, the course and a fresh cursor, and the quiz starts, holding "q1" alone, exactly when the first question is produced; if it is not, the previous quiz stays |
| Session.FindQuestion | quizzer/src/engines/quizzer_v2_engine.py:193-198 | a question is found exactly when one has the requested id, and it is the one with that id |
| Session.FindFirst | quizzer/src/engines/quizzer_v2_engine.py:193-198 | the lookup stops at the first question carrying the id: when no earlier question has it, the k-th one is returned |
| Session.FindNumbered | quizzer/src/engines/quizzer_v2_engine.py:193-198 | in a numbered quiz, looking up "qk" finds the k-th question |
| Session.GradeAnswer | quizzer/src/engines/quizzer_v2_engine.py:173-230 | `no_active_quiz` and `question_not_found` leave the session as it was; otherwise the grading engine's result is returned, and the totals grow by its points only when both a user and a session are set |
| Session.CurrentQuestion | quizzer/src/engines/quizzer_v2_engine.py:232-246 | the current question exists exactly when a quiz is active and the cursor is inside it, and it is the question at the cursor |
| Session.NextQuestion | quizzer/src/engines/quizzer_v2_engine.py:248-280 | without an active quiz and stored request nothing changes; otherwise the cursor advances by one; a question is generated exactly when the cursor reaches the end of the generated list, fewer than `num_questions` exist and the generator succeeds, and it is then appended to the list and the quiz, renumbered and returned; in every other case the quiz and list stay as they were, and the result is the question under the new cursor while it is inside the list and nothing at the end; course, user, session and totals are untouched |
| Session.NextQuestionConsistent | quizzer/src/engines/quizzer_v2_engine.py:262-271 | advancing keeps the invariant: the quiz's questions equal the generated list, numbered from "q1" |
| Session.NextQuestionReturnsCurrent | quizzer/src/engines/quizzer_v2_engine.py:259-280 | in a consistent session, a move that adds no question returns `get_current_question()`: the question under the new cursor, or nothing past the end |
| Session.GradeAnswerConsistent | quizzer/src/engines/quizzer_v2_engine.py:173-230 | grading keeps the session invariant |
| Session.GeneratedBounded | quizzer/src/engines/quizzer_v2_engine.py:260-278 | the generated count never exceeds max(1, `num_questions`) |
| Session.QuizProgress | quizzer/src/engines/quizzer_v2_engine.py:282-305 | no quiz reports inactive; otherwise current is cursor + 1, total is the requested count (the quiz's question count without a request), and completed holds exactly when the cursor has reached the total |
| Session.Stars | quizzer/src/engines/quizzer_v2_engine.py:336-355 | stars lie in 1..5: at least 90 % gives 5, 80 % gives at least 4, 70 % at least 3, 60 % at least 2, and a zero maximum gives 1 |
| Session.PercentageScale | quizzer/src/engines/quizzer_v2_engine.py:338-339 | comparing the percentage with a threshold is comparing the points with that share of the maximum |
| Session.StarsMonotone | quizzer/src/engines/quizzer_v2_engine.py:344-355 | more points never earn fewer stars |
| Session.CompleteQuiz | quizzer/src/engines/quizzer_v2_engine.py:331-358 | stars are recorded only when both a session and a user are set, and they are the star grade of the session totals |
| Session.ResetQuiz | quizzer/src/engines/quizzer_v2_engine.py:360-373 | reset completes an open session first, then clears every quiz field, keeps the user, and leaves no active quiz |
| Session.StaleQuizAfterFailedStart | quizzer/src/engines/quizzer_v2_engine.py:126-171 | as written, a failed start leaves the old quiz active with an empty generated list; the next question then puts a second "q1" in the quiz, and grading "q1" finds the old question |
| SessionLegacy.QuestionsOf | quizzer-v2/quizzer_v2_engine.py:170 | an error result has no questions, and a generated result has its questions |
| SessionLegacy.LStartQuiz | quizzer-v2/quizzer_v2_engine.py:64-119 | an invalid course or missing notes returns the error and leaves the session alone; otherwise whatever the generator returned, error included, becomes the quiz and the cursor returns to 0 |
| SessionLegacy.LGradeAnswer | quizzer-v2/quizzer_v2_engine.py:121-159 | `no_active_quiz` without a quiz, `question_not_found` for an unknown id, otherwise the grading engine's result for the question with that id |
| SessionLegacy.LCurrentQuestion | quizzer-v2/quizzer_v2_engine.py:161-175 | the current question exists exactly when the cursor is inside the quiz's questions, and it is the question at the cursor |
| SessionLegacy.LNextQuestion | quizzer-v2/quizzer_v2_engine.py:177-187 | with a quiz the cursor advances by one and the new current question is returned |
| SessionLegacy.LQuizProgress | quizzer-v2/quizzer_v2_engine.py:189-210 | no quiz reports inactive; otherwise total is the number of questions and completed holds exactly when the cursor has reached it |
| SessionLegacy.CompletedIffNoCurrent | quizzer-v2/quizzer_v2_engine.py:161-210 | a quiz is complete exactly when there is no current question |
| SessionLegacy.LResetQuiz | quizzer-v2/quizzer_v2_engine.py:212-215 | reset leaves no quiz and no current question |
| SessionLegacy.AdvanceWalks | quizzer-v2/quizzer_v2_engine.py:177-210 | k calls of `next_question` visit the questions in order and complete the quiz exactly when the cursor passes the last one |
| Chatbot.AddNew | quizzer/src/engines/chatbot_engine.py:50-53 | sibling files are added only when absent: the list only grows, nothing else enters, and no duplicates are created |
| Chatbot.ExpandNotes | quizzer/src/engines/chatbot_engine.py:41-55 | the expanded notes are exactly the existing requested files and their sibling PDFs |
| Chatbot.ExpandNotesFixed | quizzer/src/engines/chatbot_engine.py:41-55 | the corrected expansion reaches the same files and never lists one twice |
| Chatbot.SetCourseAsWritten | quizzer/src/engines/chatbot_engine.py:30-56 | choosing a course sets it, empties the history, and loads exactly the reachable notes |
| Chatbot.SetCourse | quizzer/src/engines/chatbot_engine.py:30-56 | the corrected course choice loads the same notes, each once |
| Chatbot.DuplicateSecondNote | quizzer/src/engines/chatbot_engine.py:42-53 | as written, two default notes in one directory, as the HCI course has, load the second note twice; the corrected version loads each once |
| Chatbot.Merged | quizzer/src/engines/chatbot_engine.py:74-85 | the merged results come only from existing notes and are hits of their note's pages, and every result of every existing note's search is among them |
| Chatbot.HitsOfNote | quizzer/src/engines/chatbot_engine.py:84 | every result of a note's search names that note |
| Chatbot.RankTop | quizzer/src/engines/chatbot_engine.py:87-89 | the top results are min(`max_pages`, count) of the merged list, sorted by non-increasing score, none kept more often than it was merged and all of them, each as often, when they fit; no result left out scores higher than one kept |
| Chatbot.RankTopFacts | quizzer/src/engines/chatbot_engine.py:87-89 | the first `max_pages` entries of a stably sorted list are ordered and beat every entry left out |
| Chatbot.RankTopCounts | quizzer/src/engines/chatbot_engine.py:87-89 | a prefix of the sorted entries picks a sub-multiset of the merged results, and the whole sorted list picks exactly them |
| Chatbot.RelevantContext | quizzer/src/engines/chatbot_engine.py:61-89 | no notes gives no context; otherwise min(`max_pages`, merged count) merged results, none more often than merged and all of them, each as often, when they fit, sorted by non-increasing score, all from existing notes, and no merged result left out scores above one kept |
| Chatbot.AnyIn | quizzer/src/engines/chatbot_engine.py:133 | `any(p in hay for p in pats)` holds exactly when some pattern occurs in the text |
| Chatbot.IsCasual | quizzer/src/engines/chatbot_engine.py:100-119 | a message is casual exactly when some pattern fits its lower-cased, stripped form under the word-count rules; a casual message has at most five words |
| Chatbot.CasualFor | quizzer/src/engines/chatbot_engine.py:100-119 | a message is casual exactly when some pattern occurs in it and it has at most three words, or opens it and it has at most five words |
| Chatbot.ShortOpenerIsCasual | quizzer/src/engines/chatbot_engine.py:111-117 | a message of at most three words starting with a pattern is casual |
| Chatbot.DefineTokenIsCasual | quizzer/src/engines/chatbot_engine.py:103-112 | "define token" is casual, because "token" contains "ok" |
| Chatbot.ReplyFor | quizzer/src/engines/chatbot_engine.py:130-149 | each reply kind is chosen exactly when its own test holds and every earlier test fails, in the order greeting, "how are you", thanks, goodbye, "help" in at most three words; the generic reply exactly when all fail |
| Chatbot.CasualReply | quizzer/src/engines/chatbot_engine.py:121-149 | a greeting anywhere in the message wins; the help menu only answers a message of at most three words that mentions "help"; the generic reply only comes when no thanks and no goodbye occurs |
| Chatbot.ThanksForThisIsGreeting | quizzer/src/engines/chatbot_engine.py:133-134 | "thanks for this" gets the greeting, because "this" contains "hi" |
| Chatbot.SourcesOf | quizzer/src/engines/chatbot_engine.py:196-205 | one source per relevant page, in order, with the path reduced to its base name |
| Chatbot.AnswerFromNotes | quizzer/src/engines/chatbot_engine.py:177-253 | no relevant page gives `found_info` false and no sources; an empty model answer gives the sources with `found_info` false; only a non-empty answer is appended to the history, once |
| Chatbot.SourcesNameNotes | quizzer/src/engines/chatbot_engine.py:201-205 | every source names the base name of a loaded note |
| Chatbot.AnswerQuestion | quizzer/src/engines/chatbot_engine.py:151-253 | no course gives a warning with no sources and an unchanged history; a casual message gets a canned reply and leaves the history alone; the history grows by exactly one entry only for a found, non-casual answer |
| Chatbot.PlainAnswerQuestion | quizzer-v2/src/engines/chatbot_engine.py:91-178 | the newer chatbot has no small-talk branch; the history grows exactly when information was found |
| Chatbot.EnginesAgreeOffSmallTalk | quizzer-v2/src/engines/chatbot_engine.py:91-178 | off small talk the two chatbots give the same answer and the same history |
| Chatbot.ClearHistory | quizzer/src/engines/chatbot_engine.py:263-265 | clearing empties the history and keeps the course and notes |
| Chatbot.ClearForgetsAnswers | quizzer/src/engines/chatbot_engine.py:263-265 | asking a question and then clearing leaves the same chat as clearing alone |
| Chatbot.PageTotal | quizzer/src/engines/chatbot_engine.py:277-282 | a note list of which none exists has no pages |
| Chatbot.PageTotalConcat | quizzer/src/engines/chatbot_engine.py:277-282 | the page total of two lists together is the sum of their totals |
| Chatbot.PageTotalOne | quizzer/src/engines/chatbot_engine.py:277-282 | one note adds its page count when it exists and nothing otherwise |
| Chatbot.CourseOverview | quizzer/src/engines/chatbot_engine.py:267-282 | "No course selected." exactly when no course or no notes are set; otherwise the overview lists each note's base name, their number and the total pages |
| Rating.TiersTable | quizzer-v2/src/engines/rating_generator.py:61-95 | five tiers with levels 1 to 5 in order and five different names; every title is the tier's emoji, a space and its name |
| Rating.Score | quizzer-v2/src/engines/rating_generator.py:53-58 | the weighted score of in-range stats lies in [0, 90] |
| Rating.TierFor | quizzer-v2/src/engines/rating_generator.py:61-95 | exactly one tier is chosen; its level is at least 5, 4, 3 or 2 exactly when the score reaches 80, 60, 40 or 20 |
| Rating.CalculateTier | quizzer-v2/src/engines/rating_generator.py:44-95 | the chosen tier is one of the five and is decided by the weighted score |
| Rating.TierMonotone | quizzer-v2/src/engines/rating_generator.py:61-95 | a higher score never gives a lower tier |
| Rating.ScoreMonotone | quizzer-v2/src/engines/rating_generator.py:58 | the score never falls when any stat grows |
| Rating.StatsMonotone | quizzer-v2/src/engines/rating_generator.py:53-95 | the tier never falls when any stat grows |
| Rating.CapsIgnored | quizzer-v2/src/engines/rating_generator.py:58 | stars above 100 and quizzes above 50 do not change the tier |
| Rating.MissingCountsAsZero | quizzer-v2/src/engines/rating_generator.py:53-55 | a missing stat counts as 0 |
| Rating.MasterNeedsAccuracy | quizzer-v2/src/engines/rating_generator.py:58-67 | the top tier needs at least 80 % accuracy, because the capped counts give at most 40 points |
| Rating.Kept | quizzer-v2/src/engines/rating_generator.py:133 | the kept pieces are at most as many as the pieces, none is empty, and none contains a '.' |
| Rating.Summarise | quizzer-v2/src/engines/rating_generator.py:132-133 | the shortened description ends with '.' and has one or two '.' in all, so at most two sentences |
| Rating.CleanDescription | quizzer-v2/src/engines/rating_generator.py:128-133 | a model description always ends with '.' and has at most two sentences |
| Rating.TailDropped | quizzer-v2/src/engines/rating_generator.py:132-133 | only the first two sentences survive, stripped and joined with ". ", and everything after them is dropped |
| Rating.BlankReplyGivesDot | quizzer-v2/src/engines/rating_generator.py:128-133 | a blank but non-empty model reply becomes a lone "." |
| Rating.Performance | quizzer-v2/src/engines/rating_generator.py:156-163 | the fallback phrase is chosen by the accuracy thresholds 80, 60 and 40 |
| Rating.FallbackMentions | quizzer-v2/src/engines/rating_generator.py:142-165 | the fallback opens with "You've completed ", contains the quiz count and the performance phrase (missing keys counting as 0), and ends with the fixed encouragement |
| Rating.GenerateRating | quizzer-v2/src/engines/rating_generator.py:21-42 | tier, title and emoji come from the same tier record; a non-empty model reply gives the shortened description, and an empty or failed one the fallback |
| Accounts.Body | quizzer-v2/src/utils/user_manager.py:133 | the part of a string the pattern must match: the string itself, or without one final newline |
| Accounts.Validate | quizzer-v2/src/utils/user_manager.py:123-160 | checks run in order (empty, too short, too long, bad characters), and each outcome holds exactly under its condition |
| Accounts.ValidateUsername | quizzer-v2/src/utils/user_manager.py:114-136 | a username is valid exactly when it has 3..20 characters matching `[A-Za-z0-9]+$`; the failures are reported in the source's order |
| Accounts.ValidatePassword | quizzer-v2/src/utils/user_manager.py:138-160 | a password is valid exactly when it has 6..50 characters from the allowed set; the failures are reported in the source's order |
| Accounts.ValidUsernameShape | quizzer-v2/src/utils/user_manager.py:126-134 | a valid username is 3..20 characters of letters and digits, optionally ending in one newline |
| Accounts.TrailingNewlineAccepted | quizzer-v2/src/utils/user_manager.py:133 | one trailing newline is accepted and counts toward the length; two are rejected |
| Accounts.ValidPasswordHasNoSpace | quizzer-v2/src/utils/user_manager.py:157 | a valid password contains no space |
| Accounts.Register | quizzer-v2/src/utils/user_manager.py:162-205 | the username is checked before the password and both before the store; a taken name fails; success, which also needs the insert to succeed, adds exactly one account with the next id and the salted hash; a failure leaves the store unchanged |
| Accounts.Login | quizzer-v2/src/utils/user_manager.py:207-247 | login succeeds exactly when the user exists and the salted hash matches, returning the stored id; every failure is "invalid credentials" |
| Accounts.RegisterThenLogin | quizzer-v2/src/utils/user_manager.py:162-247 | registration keeps the store well formed and leaves other accounts and their logins unchanged, and after success the new user can log in |
| Accounts.LoginFailuresAgree | quizzer-v2/src/utils/user_manager.py:226-237 | an unknown user and a wrong password get the same answer |
| Accounts.CountCorrect | quizzer-v2/src/utils/user_manager.py:306-310 | correct answers are never more than the attempts |
| Accounts.DeriveStats | quizzer-v2/src/utils/user_manager.py:313-354 | incorrect is total minus correct, accuracy is 0 with no attempts, and otherwise accuracy times total equals 100 times correct |
| Accounts.CountsSplit | quizzer-v2/src/utils/user_manager.py:298-313 | correct and incorrect attempts add up to all attempts |
| Accounts.AccuracyPercent | quizzer-v2/src/utils/user_manager.py:354 | accuracy lies in [0, 100] and is 100 exactly when every attempt was correct |
| Accounts.AttemptStats | quizzer-v2/src/utils/user_manager.py:298-354 | statistics derived from an attempt list count its correct and incorrect attempts exactly |
| LatexQuiz.CleanTail | quizzer-v2/quiz.py:178-182 | the cleaned text has at most 500 characters, no leading blank, no whitespace other than single spaces, and is empty exactly when the input is blank |
| Text.CleanText | quizzer-v2/src/utils/pdf_grounding.py:172 | the cleaned text has single spaces only, no blank at either end, and is empty exactly when the input is blank |
| Text.CleanShape | quizzer-v2/quiz.py:179-180 | collapsing and stripping gives single spaces only, no blank at either end, and an empty result exactly for blank input |
| Text.StripCollapsed | quizzer-v2/quiz.py:180 | stripping keeps the single-space form |
| LatexQuiz.CleanTwice | quizzer-v2/quiz.py:178-182 | cleaning a text that fits in 500 characters twice gives the same as once |
| LatexQuiz.DefaultTitle | quizzer-v2/quiz.py:116 | every kind has a non-empty default title |
| LatexQuiz.TitleOr | quizzer-v2/quiz.py:116 | a chunk's title is its own when present, otherwise the default |
| LatexQuiz.Keep | quizzer-v2/quiz.py:113-116 | the kept chunks are no more than the matches, all of the one kind, each with a title and a non-empty text of at most 500 characters |
| LatexQuiz.KeepMatches | quizzer-v2/quiz.py:113-116 | every kept chunk comes from a match, and every match whose cleaned body is non-empty is kept |
| LatexQuiz.ExtractChunks | quizzer-v2/quiz.py:97-151 | a read failure gives no chunks; otherwise definitions come first, then theorems, propositions and lemmas, each with a title and a non-empty text |
| LatexQuiz.OrderedBlocks | quizzer-v2/quiz.py:107-149 | the four blocks of one kind each, concatenated, are in kind order |
| LatexQuiz.OfKindAppend | quizzer-v2/quiz.py:107-149 | selecting a kind distributes over concatenation |
| LatexQuiz.OfKindBlock | quizzer-v2/quiz.py:107-149 | selecting from a block of one kind gives the whole block or nothing |
| LatexQuiz.ChunksByKind | quizzer-v2/quiz.py:97-151 | the chunks of each kind are exactly that kind's kept matches, in match order |
| LatexQuiz.QuestionFor | quizzer-v2/quiz.py:204-218 | the model's question is used when the reply has one; otherwise the fallback question |
| LatexQuiz.FallbackNamesChunk | quizzer-v2/quiz.py:216 | the fallback question starts with "Explain the ", names the chunk kind and ends with the title |
| LatexQuiz.Evaluate | quizzer-v2/quiz.py:256-400 | an answer under 10 stripped characters is "WRONG" before any model call; any other level comes only from a reply with a level and is uppercased; every other reply gives "WRONG" |
| LatexQuiz.BriefAnswersSkipOracle | quizzer-v2/quiz.py:265-267 | for a too-brief answer the reply is irrelevant, and every level is already uppercase |
| LatexQuiz.FormatReference | quizzer-v2/quiz.py:402-406 | the formatted text is returned when non-empty, otherwise the content |

## Left out

- PDF parsing (PyPDF2), stderr redirection, `Path.exists`, directory globbing and file reading are outside the model. They become page maps, `Option` reads, existence predicates and given file lists.
- The language-model and OpenAI HTTP calls, JSON decoding and the prompt builders (`_build_*_prompt`, the grading and chatbot prompts) are outside the model. The oracle's replies are a datatype, and the prompt text has no behaviour to prove.
- Randomness (`random.choice`) is a choice function given as a parameter, so every property holds for every sequence of choices.
- SQLite, PBKDF2 and `secrets` are outside the model. The store is an immutable map, the hash is an uninterpreted function, and the salt is a parameter.
- Floating point: ratios, weights and percentages are exact reals, with `int()` and `round()` written out. At exact thresholds a float can round differently from the real number. For example, `int(max_points * 0.7)` in Python is one less than the exact value for 90, 170 and 180.
- Generator.Fallback and GeneratorLegacy.LegacyFallback: the `while` loops have no bound in the source. They run with a fuel parameter, and running out of fuel is reported as "cut short". Nothing is claimed about termination.
- Generator.GenerateQuestions: requires a non-empty list of question types; the source would raise on `random.choice([])`.
- Grading.GradeSingle: requires a non-empty answer key with no whitespace-only entry. The source raises `IndexError` at `correct_choices[0]` and at `c.strip().upper()[0]`; that exception is not modelled.
- Grading.GradeAnswer and GradingLegacy.LegacyGradeAnswer: require the same of choice questions, for the same reason.
- Session.GradeAnswer, Session.GradeAnswerConsistent and SessionLegacy.LGradeAnswer: require only the question the id names to be gradable in that sense. The generator stores choice questions without checking their key, so the source can raise on such a question; the model does not follow that exception.
- The grading explanations, evidence strings, citations and the legacy reference-content assembly (`get_page_content(...)[:1000]`) are outside the model. They are display text passed to the student or the oracle.
- The legacy grader's oracle `points_awarded` is taken as an integer, and its checks are passed through as given.
- `difficulty` and `include_solutions` are stored but never read by the modelled code, so they are left out of the request.
- The top-level quizzer-v2/pdf_grounding.py, which quizzer-v2/question_generator.py:11, quizzer-v2/grading_engine.py:10 and quizzer-v2/quizzer_v2_engine.py:10 import, is not part of this model. The legacy generator and session assume it behaves like quizzer-v2/src/utils/pdf_grounding.py and search, quote and validate notes through that model.
- quizzer/src/engines/grading_engine.py, which quizzer/src/engines/quizzer_v2_engine.py:12 imports, is not part of this model. The session assumes it behaves like quizzer-v2/src/engines/grading_engine.py and grades through that model.
- Session.GenerateQuiz: calls to `chatbot.set_course` and to the user store (`record_quiz_session`, `record_question_attempt`, `complete_quiz_session`) are outside the model. The new session id is a parameter, and `complete_quiz` returns the stars it would record.
- The login, register, logout, profile and topic-validation wrappers of the session engine, and `get_available_courses`, are outside the model. They only forward to the user store or the course table.
- Accounts.Login: the `last_login` timestamp update is not modelled.
- Accounts.DeriveStats: `average_score` (a SQL average rounded to one decimal), `favorite_course` and `member_since` are not modelled. The other `user_manager` members (sessions, stars, deletion, password change) are left out too.
- Generator.NoteInfo and Generator.Assemble: the `notes_used` and citation paths are the note paths as given, not made relative to `repo_root` with `relative_to`, which only rewrites a string.
- Chatbot.AnswerQuestion: answer and warning texts are an enum of message kinds, not the literal strings. The `[:2500]` context window and `repo_root` path prefixes are not modelled.
- Chatbot.CourseOverview: only the guard and the file and page counts are modelled, not the welcome text.
- Rating.GenerateRating: `stats_summary` formatting is not modelled.
- LatexQuiz.CleanLatex: the regex substitutions of `clean_latex` (comments, environments, math delimiters, commands) are one opaque pre-pass given as a parameter. The `re.findall` extraction of chunks is a parameter too.
- LatexQuiz.Evaluate: the explanation texts and the answer-characteristic hints are not modelled. A source comment speaks of 15 characters, but the code tests 10; the model follows the code.
- Text: case and whitespace are ASCII only. Python's `str.lower` also lowers non-ASCII letters ('È' becomes 'è', which matters for Italian notes), `str.split` and `strip` also treat characters such as '\xa0' as whitespace, and `'İ'.lower()` is two code points long, so `text_lower.find` indexes a string of another length than the text the excerpt is cut from (quizzer-v2/src/utils/pdf_grounding.py:120-133). None of this is modelled.
- GUI files, `run.py`, `local_ai.py`, the print-only test script and logging are outside the model.

## Findings

| source | as written | input that shows it | evidently intended | confidence | as-written member | corrected member |
|---|---|---|---|---|---|---|
| quizzer-v2/src/engines/question_generator.py:129-155 | the fallback `while` loop retries until enough questions exist, with no bound on attempts | a course whose only note file exists and ends in ".pdf" but yields no page text, so `extract_pdf_text` returns `{}` on every round | give up after a bounded number of attempts per missing question | not executed | Generator.Fallback, Generator.UnreadableNotesSpin | Generator.BoundedFallback, Generator.GenerateQuestionsBounded |
| quizzer/src/engines/quizzer_v2_engine.py:126-171 | when the first question fails, the request and generated list are reset but `current_quiz` keeps the previous quiz | an active quiz with question "q1", then `generate_quiz` whose first generation fails, then `next_question` | a failed start leaves no active quiz | not executed | Session.StartQuiz, Session.StaleQuizAfterFailedStart | Session.StartQuizFixed, Session.StartQuizFixedConsistent |
| quizzer/src/engines/chatbot_engine.py:42-53 | each requested note is appended without checking whether the sibling scan already added it | course "hci" with its two default notes, which share a directory: the notes become [Theory 1, Theory 2, Theory 2] | each note file listed once | not executed | Chatbot.SetCourseAsWritten, Chatbot.DuplicateSecondNote | Chatbot.SetCourse |
