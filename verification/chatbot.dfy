/**
 * The course chatbot of quizzer/src/engines/chatbot_engine.py and its plainer
 * sibling quizzer-v2/src/engines/chatbot_engine.py. Both share `set_course`,
 * `get_relevant_context`, `clear_history` and the guard of
 * `get_course_overview`; only the first answers small talk before searching
 * the notes. The filesystem (which note files exist, what `glob("*.pdf")`
 * lists next to a note, the parsed pages of a note) and the oracle's answer
 * are parameters.
 */
module Chatbot {
  import opened Text
  import opened Opt
  import opened Grounding

  /** One source listed under an answer: page, file name and excerpt. */
  datatype Source = Source(page: int, path: string, excerpt: string)

  /** One entry of `chat_history`. */
  datatype Exchange = Exchange(question: string, answer: string, sources: seq<Source>)

  /** The fields of `ChatbotEngine`: course code, note files, history. */
  datatype Chat = Chat(course: Option<string>, notes: seq<string>, history: seq<Exchange>)

  const Unconfigured := Chat(None, [], [])

  /** `if not self.current_course`: an empty code counts as none. */
  predicate Selected(c: Chat) {
    c.course.Some? && c.course.value != ""
  }

  predicate Distinct(s: seq<string>) {
    forall i, j :: 0 <= i < j < |s| ==> s[i] != s[j]
  }

  // ---------------------------------------------------------------------------
  // set_course
  // ---------------------------------------------------------------------------

  /** `x` is one of the files, or a PDF next to one of them, and that file
      exists. `siblings(f)` is what `glob("*.pdf")` lists in the directory of
      `f`, as repository-relative paths. */
  predicate Reached(files: seq<string>, exists_: string -> bool, siblings: string -> seq<string>, x: string) {
    exists i :: 0 <= i < |files| && exists_(files[i]) && (x == files[i] || x in siblings(files[i]))
  }

  /** The inner loop of `set_course`: each path not yet listed is appended. */
  function AddNew(acc: seq<string>, paths: seq<string>): (r: seq<string>)
    ensures acc <= r
    ensures forall x :: x in r <==> x in acc || x in paths
    ensures Distinct(acc) ==> Distinct(r)
    decreases |paths|
  {
    if paths == [] then acc
    else
      assert forall x :: x in paths <==> x == paths[0] || x in paths[1..];
      if paths[0] in acc then AddNew(acc, paths[1..])
      else AddNew(acc + [paths[0]], paths[1..])
  }

  /** The note list `set_course` builds, as written: for each existing file,
      the file itself is appended unconditionally, then every PDF of its
      directory that is not listed yet. */
  function ExpandNotes(files: seq<string>, exists_: string -> bool, siblings: string -> seq<string>,
                       acc: seq<string>): (r: seq<string>)
    ensures acc <= r
    ensures forall x :: x in r <==> x in acc || Reached(files, exists_, siblings, x)
    decreases |files|
  {
    if files == [] then acc
    else
      var rest := files[1..];
      assert forall x :: Reached(files, exists_, siblings, x) <==>
        (exists_(files[0]) && (x == files[0] || x in siblings(files[0]))) ||
        Reached(rest, exists_, siblings, x) by {
        forall x | Reached(rest, exists_, siblings, x) ensures Reached(files, exists_, siblings, x) {
          var i :| 0 <= i < |rest| && exists_(rest[i]) && (x == rest[i] || x in siblings(rest[i]));
          assert files[i + 1] == rest[i];
        }
        forall x | Reached(files, exists_, siblings, x) && !(exists_(files[0]) && (x == files[0] || x in siblings(files[0])))
          ensures Reached(rest, exists_, siblings, x)
        {
          var i :| 0 <= i < |files| && exists_(files[i]) && (x == files[i] || x in siblings(files[i]));
          assert i > 0 && rest[i - 1] == files[i];
        }
      }
      if !exists_(files[0]) then ExpandNotes(rest, exists_, siblings, acc)
      else ExpandNotes(rest, exists_, siblings, AddNew(acc + [files[0]], siblings(files[0])))
  }

  /** The note list with the file itself deduplicated like its neighbours:
      the same files, each listed once. */
  function ExpandNotesFixed(files: seq<string>, exists_: string -> bool, siblings: string -> seq<string>,
                            acc: seq<string>): (r: seq<string>)
    ensures acc <= r
    ensures forall x :: x in r <==> x in acc || Reached(files, exists_, siblings, x)
    ensures Distinct(acc) ==> Distinct(r)
    decreases |files|
  {
    if files == [] then acc
    else
      var rest := files[1..];
      assert forall x :: Reached(files, exists_, siblings, x) <==>
        (exists_(files[0]) && (x == files[0] || x in siblings(files[0]))) ||
        Reached(rest, exists_, siblings, x) by {
        forall x | Reached(rest, exists_, siblings, x) ensures Reached(files, exists_, siblings, x) {
          var i :| 0 <= i < |rest| && exists_(rest[i]) && (x == rest[i] || x in siblings(rest[i]));
          assert files[i + 1] == rest[i];
        }
        forall x | Reached(files, exists_, siblings, x) && !(exists_(files[0]) && (x == files[0] || x in siblings(files[0])))
          ensures Reached(rest, exists_, siblings, x)
        {
          var i :| 0 <= i < |files| && exists_(files[i]) && (x == files[i] || x in siblings(files[i]));
          assert i > 0 && rest[i - 1] == files[i];
        }
      }
      if !exists_(files[0]) then ExpandNotesFixed(rest, exists_, siblings, acc)
      else ExpandNotesFixed(rest, exists_, siblings, AddNew(acc, [files[0]] + siblings(files[0])))
  }

  /** `set_course` as written: the course, the expanded note list and an
      empty history. */
  function SetCourseAsWritten(code: string, files: seq<string>, exists_: string -> bool,
                              siblings: string -> seq<string>): (c: Chat)
    ensures c.course == Some(code) && c.history == []
    ensures forall x :: x in c.notes <==> Reached(files, exists_, siblings, x)
  {
    Chat(Some(code), ExpandNotes(files, exists_, siblings, []), [])
  }

  /** `set_course` with each note listed once: the same notes as written,
      and no note twice. */
  function SetCourse(code: string, files: seq<string>, exists_: string -> bool,
                     siblings: string -> seq<string>): (c: Chat)
    ensures c.course == Some(code) && c.history == []
    ensures forall x :: x in c.notes <==> Reached(files, exists_, siblings, x)
    ensures Distinct(c.notes)
  {
    Chat(Some(code), ExpandNotesFixed(files, exists_, siblings, []), [])
  }

  /** Two existing notes `a` and `b` of one directory, such as the two
      default notes of "hci": as written, `b` is listed twice, once as a
      neighbour of `a` and again for itself, so it is searched twice and its
      pages can be cited twice. Deduplicating it lists each note once. */
  lemma DuplicateSecondNote(a: string, b: string, exists_: string -> bool, siblings: string -> seq<string>)
    requires a != b && exists_(a) && exists_(b)
    requires siblings(a) == [a, b] && siblings(b) == [a, b]
    ensures SetCourseAsWritten("hci", [a, b], exists_, siblings).notes == [a, b, b]
    ensures !Distinct(SetCourseAsWritten("hci", [a, b], exists_, siblings).notes)
    ensures SetCourse("hci", [a, b], exists_, siblings).notes == [a, b]
  {
    assert [a, b][1..] == [b] && [b][1..] == [];
    assert ([a] + [a, b])[1..] == [a, b];
    assert ([b] + [a, b])[1..] == [a, b];
    // as written: a, then b as a's neighbour, then b again
    assert AddNew([a, b], []) == [a, b];
    assert AddNew([a], [b]) == [a, b];
    assert AddNew([a], [a, b]) == [a, b];
    assert AddNew([a, b, b], []) == [a, b, b];
    assert AddNew([a, b, b], [b]) == [a, b, b];
    assert AddNew([a, b, b], [a, b]) == [a, b, b];
    assert [a, b] + [b] == [a, b, b];
    assert ExpandNotes([], exists_, siblings, [a, b, b]) == [a, b, b];
    assert ExpandNotes([b], exists_, siblings, [a, b]) == [a, b, b];
    var asWritten := [a, b, b];
    assert asWritten[1] == asWritten[2];
    // deduplicated
    assert AddNew([a], [a, b]) == [a, b];
    assert [] + [a] == [a];
    assert AddNew([], [a] + [a, b]) == [a, b];
    assert AddNew([a, b], [a, b]) == [a, b] by {
      assert AddNew([a, b], [b]) == [a, b];
    }
    assert AddNew([a, b], [b, a, b]) == [a, b];
    assert ExpandNotesFixed([b], exists_, siblings, [a, b]) == [a, b];
  }

  // ---------------------------------------------------------------------------
  // get_relevant_context
  // ---------------------------------------------------------------------------

  /** The hits of every listed note that exists, note by note in list order,
      each search capped at `maxPages`. `pagesOf(n)` is the parsed page map
      of note `n`. */
  function Merged(notes: seq<string>, exists_: string -> bool, pagesOf: string -> PageMap,
                  question: string, maxPages: int): (r: seq<SearchResult>)
    ensures forall x :: x in r ==>
      x.path in notes && exists_(x.path) && 0 < x.score && InMap(pagesOf(x.path), x.page, x.text)
    ensures forall n, x :: n in notes && exists_(n) && x in Search(n, pagesOf(n), question, maxPages) ==> x in r
    decreases |notes|
  {
    if notes == [] then []
    else
      var here := if exists_(notes[0]) then Search(notes[0], pagesOf(notes[0]), question, maxPages) else [];
      var rest := Merged(notes[1..], exists_, pagesOf, question, maxPages);
      assert forall x :: x in rest ==> x.path in notes by {
        forall x | x in rest ensures x.path in notes {
          assert x.path in notes[1..];
        }
      }
      HitsOfNote(notes[0], pagesOf(notes[0]), question, maxPages);
      here + rest
  }

  /** Every hit of one note names that note and one of its pages. */
  lemma HitsOfNote(note: string, pages: PageMap, question: string, maxPages: int)
    ensures forall x :: x in Search(note, pages, question, maxPages) ==>
      x.path == note && 0 < x.score && InMap(pages, x.page, x.text)
  {
    var r := Search(note, pages, question, maxPages);
    SearchFacts(note, pages, question, maxPages);
    forall x | x in r ensures x.path == note && 0 < x.score && InMap(pages, x.page, x.text) {
      var i :| 0 <= i < |r| && r[i] == x;
    }
  }

  /** Each merged hit as a sortable entry: its score and its position. */
  function Keyed(rs: seq<SearchResult>): (es: seq<Entry>)
    ensures |es| == |rs|
    ensures forall i :: 0 <= i < |rs| ==> es[i] == Entry(rs[i].score, i)
  {
    seq(|rs|, i requires 0 <= i < |rs| => Entry(rs[i].score, i))
  }

  /** The hits the entries point at, in entry order. */
  function Pick(rs: seq<SearchResult>, es: seq<Entry>): (r: seq<SearchResult>)
    requires forall e :: e in es ==> e.idx < |rs|
    ensures |r| == |es|
    ensures forall i :: 0 <= i < |es| ==> r[i] == rs[es[i].idx]
  {
    seq(|es|, i requires 0 <= i < |es| => rs[es[i].idx])
  }

  /** `r` is the best `maxPages` of `m`: as many as asked for while there are
      enough, no hit more often than merged (each exactly as often when all
      fit), and nothing left out scoring above anything kept. */
  predicate BestOf(m: seq<SearchResult>, maxPages: int, r: seq<SearchResult>) {
    (maxPages >= 0 ==> |r| == Min(maxPages, |m|)) &&
    (maxPages < 0 ==> |r| == Max(0, |m| + maxPages)) &&
    (maxPages >= |m| ==> forall x :: x in m ==> x in r) &&
    (forall k, i :: 0 <= k < |m| && 0 <= i < |r| && m[k] !in r ==> m[k].score <= r[i].score) &&
    multiset(r) <= multiset(m) &&
    (maxPages >= |m| ==> multiset(r) == multiset(m))
  }

  /** `all_results.sort(key=score, reverse=True)` then `[:max_pages]`: the
      best `maxPages` of the merged hits, in non-increasing score. */
  function RankTop(rs: seq<SearchResult>, maxPages: int): (r: seq<SearchResult>)
    ensures BestOf(rs, maxPages, r)
    ensures forall i, j :: 0 <= i < j < |r| ==> r[i].score >= r[j].score
    ensures forall x :: x in r ==> x in rs
  {
    var keyed := Keyed(rs);
    var sorted := SortByScore(keyed);
    SortRanked(keyed);
    var top := PyPrefix(sorted, maxPages);
    assert forall e :: e in sorted ==> e.idx < |rs| && e.score == rs[e.idx].score;
    var r := Pick(rs, top);
    RankTopFacts(rs, keyed, sorted, top, r);
    RankTopCounts(rs, keyed, sorted, top, r);
    r
  }

  /** `[f(x) for x in xs]` */
  function MapSeq<A, B>(f: A -> B, xs: seq<A>): (ys: seq<B>)
    ensures |ys| == |xs|
    ensures forall i :: 0 <= i < |xs| ==> ys[i] == f(xs[i])
  {
    seq(|xs|, i requires 0 <= i < |xs| => f(xs[i]))
  }

  lemma MapAppend<A, B>(f: A -> B, a: seq<A>, b: seq<A>)
    ensures MapSeq(f, a + b) == MapSeq(f, a) + MapSeq(f, b)
  {
    var l, r := MapSeq(f, a + b), MapSeq(f, a) + MapSeq(f, b);
    forall i | 0 <= i < |l| ensures l[i] == r[i] {
      if i < |a| {
        assert (a + b)[i] == a[i];
      } else {
        assert (a + b)[i] == b[i - |a|];
      }
    }
  }

  /** Taking `x` out of the middle of `b1 + [x] + b2` leaves what is left
      of a permutation `[x] + c` once `x` is taken off its head. */
  lemma TakeOut<T>(b1: seq<T>, x: T, b2: seq<T>, c: seq<T>)
    requires multiset(b1 + [x] + b2) == multiset([x] + c)
    ensures multiset(b1 + b2) == multiset(c)
  {
    forall z ensures multiset(b1 + b2)[z] == multiset(c)[z] {
      assert multiset(b1 + [x] + b2)[z] == multiset(b1)[z] + multiset([x])[z] + multiset(b2)[z];
      assert multiset([x] + c)[z] == multiset([x])[z] + multiset(c)[z];
    }
  }

  /** Putting `y` back in the middle: the converse of `TakeOut`. */
  lemma PutBack<T>(p1: seq<T>, y: T, p2: seq<T>, c: seq<T>)
    requires multiset(p1 + p2) == multiset(c)
    ensures multiset(p1 + [y] + p2) == multiset([y] + c)
  {
    forall z ensures multiset(p1 + [y] + p2)[z] == multiset([y] + c)[z] {
      assert multiset(p1 + [y] + p2)[z] == multiset(p1)[z] + multiset([y])[z] + multiset(p2)[z];
      assert multiset([y] + c)[z] == multiset([y])[z] + multiset(c)[z];
    }
  }

  /** Mapping two permutations of one list gives two permutations of one
      list: each image occurs as often in both. */
  lemma {:induction false} MapPerm<A, B>(f: A -> B, a: seq<A>, b: seq<A>)
    requires multiset(a) == multiset(b)
    ensures multiset(MapSeq(f, a)) == multiset(MapSeq(f, b))
    decreases |a|
  {
    if a == [] {
      assert |b| == |multiset(b)| == 0;
    } else {
      var x, tail := a[0], a[1..];
      assert a == [x] + tail;
      assert x in multiset(b);
      var i :| 0 <= i < |b| && b[i] == x;
      var b1, b2 := b[..i], b[i + 1..];
      assert b == b1 + [x] + b2;
      TakeOut(b1, x, b2, tail);
      MapPerm(f, tail, b1 + b2);
      MapPermStep(f, x, tail, b1, b2);
    }
  }

  lemma MapPermStep<A, B>(f: A -> B, x: A, tail: seq<A>, b1: seq<A>, b2: seq<A>)
    requires multiset(MapSeq(f, tail)) == multiset(MapSeq(f, b1 + b2))
    ensures multiset(MapSeq(f, [x] + tail)) == multiset(MapSeq(f, b1 + [x] + b2))
  {
    MapAppend(f, [x], tail);
    MapAppend(f, b1 + [x], b2);
    MapAppend(f, b1, [x]);
    MapAppend(f, b1, b2);
    assert MapSeq(f, [x]) == [f(x)];
    PutBack(MapSeq(f, b1), f(x), MapSeq(f, b2), MapSeq(f, tail));
  }

  /** The hit an entry points at, or a blank one for an entry out of range. */
  function At(rs: seq<SearchResult>): Entry -> SearchResult {
    (e: Entry) => if e.idx < |rs| then rs[e.idx] else SearchResult(0, "", "", 0, "")
  }

  /** Picking is mapping each entry to the hit it points at. */
  lemma PickIsMap(rs: seq<SearchResult>, es: seq<Entry>)
    requires forall e :: e in es ==> e.idx < |rs|
    ensures Pick(rs, es) == MapSeq(At(rs), es)
  {
    assert forall i :: 0 <= i < |es| ==> es[i] in es;
  }

  /** The entries of every hit pick the hits back. */
  lemma PickKeyed(rs: seq<SearchResult>)
    ensures forall e :: e in Keyed(rs) ==> e.idx < |rs|
    ensures Pick(rs, Keyed(rs)) == rs
  {
    var keyed := Keyed(rs);
    assert forall e :: e in keyed ==> e.idx < |rs|;
    var r := Pick(rs, keyed);
    assert forall i :: 0 <= i < |rs| ==> r[i] == rs[i];
  }

  /** The kept hits are a sub-multiset of the merged ones, and all of them
      when every entry is kept. */
  lemma RankTopCounts(rs: seq<SearchResult>, keyed: seq<Entry>, sorted: seq<Entry>, top: seq<Entry>,
                      r: seq<SearchResult>)
    requires keyed == Keyed(rs)
    requires multiset(sorted) == multiset(keyed)
    requires |top| <= |sorted| && top == sorted[..|top|]
    requires forall e :: e in sorted ==> e.idx < |rs|
    requires r == Pick(rs, top)
    ensures multiset(r) <= multiset(rs)
    ensures |top| == |sorted| ==> multiset(r) == multiset(rs)
  {
    var f := At(rs);
    PickKeyed(rs);
    PickIsMap(rs, keyed);
    assert forall e :: e in top ==> e in sorted;
    PickIsMap(rs, top);
    MapPerm(f, keyed, sorted);
    var rest := sorted[|top|..];
    assert sorted == top + rest;
    MapAppend(f, top, rest);
    assert multiset(MapSeq(f, sorted)) == multiset(r) + multiset(MapSeq(f, rest));
    if |top| == |sorted| {
      assert rest == [];
    }
  }


  lemma RankTopFacts(rs: seq<SearchResult>, keyed: seq<Entry>, sorted: seq<Entry>, top: seq<Entry>,
                     r: seq<SearchResult>)
    requires keyed == Keyed(rs)
    requires forall e :: e in sorted <==> e in keyed
    requires Ranked(sorted)
    requires |top| <= |sorted| && top == sorted[..|top|]
    requires forall e :: e in top ==> e.idx < |rs|
    requires r == Pick(rs, top)
    ensures forall i, j :: 0 <= i < j < |r| ==> r[i].score >= r[j].score
    ensures forall x :: x in r ==> x in rs
    ensures |top| == |sorted| ==> forall x :: x in rs ==> x in r
    ensures forall k, i :: 0 <= k < |rs| && 0 <= i < |r| && rs[k] !in r ==> rs[k].score <= r[i].score
  {
    assert forall e :: e in sorted ==> e.idx < |rs| && e.score == rs[e.idx].score;
    forall i, j | 0 <= i < j < |r| ensures r[i].score >= r[j].score {
      assert top[i] == sorted[i] && top[j] == sorted[j];
      assert Before(sorted[i], sorted[j]);
      assert top[i] in sorted && top[j] in sorted;
    }
    forall x | x in r ensures x in rs {
      var i :| 0 <= i < |r| && r[i] == x;
      assert top[i] in top;
    }
    forall k, i | 0 <= k < |rs| && 0 <= i < |r| && rs[k] !in r ensures rs[k].score <= r[i].score {
      var e := Entry(rs[k].score, k);
      assert keyed[k] == e;
      assert e in sorted;
      forall p | 0 <= p < |top| ensures sorted[p] != e {
        assert r[p] == rs[top[p].idx] && r[p] in r;
      }
      var q :| 0 <= q < |sorted| && sorted[q] == e;
      assert q >= |top|;
      assert top[i] == sorted[i];
      assert Before(sorted[i], sorted[q]);
      assert top[i] in sorted;
    }
    if |top| == |sorted| {
      forall x | x in rs ensures x in r {
        var k :| 0 <= k < |rs| && rs[k] == x;
        assert keyed[k] in sorted;
        var q :| 0 <= q < |sorted| && sorted[q] == keyed[k];
        assert top[q] == keyed[k];
        assert r[q] == x;
      }
    }
  }

  /** `get_relevant_context`: nothing without notes; otherwise the best
      `maxPages` hits over all notes. */
  function RelevantContext(notes: seq<string>, exists_: string -> bool, pagesOf: string -> PageMap,
                           question: string, maxPages: int): (r: seq<SearchResult>)
    ensures notes == [] ==> r == []
    ensures maxPages >= 0 ==> |r| <= maxPages
    ensures notes != [] ==> BestOf(Merged(notes, exists_, pagesOf, question, maxPages), maxPages, r)
    ensures forall i, j :: 0 <= i < j < |r| ==> r[i].score >= r[j].score
    ensures forall x :: x in r ==> x in Merged(notes, exists_, pagesOf, question, maxPages)
    ensures forall i :: 0 <= i < |r| ==> r[i].path in notes && exists_(r[i].path)
  {
    if notes == [] then []
    else
      var m := Merged(notes, exists_, pagesOf, question, maxPages);
      var r := RankTop(m, maxPages);
      RankedFromNotes(notes, exists_, m, maxPages, r);
      MinBound(maxPages, |m|, |r|);
      r
  }

  lemma MinBound(a: int, b: int, n: int)
    requires a >= 0 ==> n == Min(a, b)
    ensures a >= 0 ==> n <= a
  {
  }

  /** What ranking the merged hits `m` gives `get_relevant_context`. */
  lemma RankedFromNotes(notes: seq<string>, exists_: string -> bool, m: seq<SearchResult>, maxPages: int,
                        r: seq<SearchResult>)
    requires forall x :: x in m ==> x.path in notes && exists_(x.path)
    requires r == RankTop(m, maxPages)
    ensures BestOf(m, maxPages, r)
    ensures forall i, j :: 0 <= i < j < |r| ==> r[i].score >= r[j].score
    ensures forall x :: x in r ==> x in m
    ensures forall i :: 0 <= i < |r| ==> r[i].path in notes && exists_(r[i].path)
  {
    assert forall i :: 0 <= i < |r| ==> r[i] in r;
  }

  // ---------------------------------------------------------------------------
  // Small talk (quizzer/src only)
  // ---------------------------------------------------------------------------

  const CasualPatterns: seq<string> := [
    "hello", "hi", "hey", "good morning", "good afternoon", "good evening",
    "how are you", "whats up", "what's up", "thanks", "thank you", "bye",
    "goodbye", "see you", "nice", "cool", "ok", "okay", "yes", "no",
    "sure", "please", "help"
  ]

  /** `any(p in hay for p in pats)` */
  function AnyIn(hay: string, pats: seq<string>): (b: bool)
    ensures b <==> exists i :: 0 <= i < |pats| && Contains(hay, pats[i])
  {
    if pats == [] then false
    else if Contains(hay, pats[0]) then true
    else
      var b := AnyIn(hay, pats[1..]);
      assert b ==> exists i :: 0 <= i < |pats| && Contains(hay, pats[i]) by {
        if b {
          var i :| 0 <= i < |pats[1..]| && Contains(hay, pats[1..][i]);
          assert pats[i + 1] == pats[1..][i];
        }
      }
      b
  }

  /** One pattern makes a message casual: the message, lower-cased and
      stripped to `low`, has `n <= 3` words and the pattern occurs in it, or
      `n <= 5` words and it starts with the pattern. */
  predicate Fits(low: string, n: nat, pattern: string) {
    (n <= 3 && Contains(low, pattern)) || (n <= 5 && StartsWith(low, pattern))
  }

  /** `_is_casual_message` for the lower-cased, stripped message `low` of
      `n` words: a pattern anywhere in a message of at most three words,
      even inside a longer word, or a pattern opening a message of at most
      five words. */
  function CasualFor(low: string, n: nat): (c: bool)
    ensures c ==> n <= 5
    ensures c <==> exists i :: 0 <= i < |CasualPatterns| && Fits(low, n, CasualPatterns[i])
  {
    (n <= 3 && (exists i :: 0 <= i < |CasualPatterns| && Contains(low, CasualPatterns[i]))) ||
    ((exists i :: 0 <= i < |CasualPatterns| && StartsWith(low, CasualPatterns[i])) && n <= 5)
  }

  /** `_is_casual_message`: the rules of `CasualFor` applied to the
      lower-cased, stripped message and the word count of the message. */
  function IsCasual(question: string): (c: bool)
    ensures c ==> |Words(question)| <= 5
    ensures c <==>
      exists i :: 0 <= i < |CasualPatterns| && Fits(Strip(Lower(question)), |Words(question)|, CasualPatterns[i])
  {
    CasualFor(Strip(Lower(question)), |Words(question)|)
  }

  /** A message of up to three words that opens with a pattern is casual
      by the first rule already, since a prefix is an occurrence. */
  lemma ShortOpenerIsCasual(low: string, n: nat, i: nat)
    requires i < |CasualPatterns| && n <= 3 && StartsWith(low, CasualPatterns[i])
    ensures CasualFor(low, n)
    ensures Contains(low, CasualPatterns[i])
  {
    StartsWithContains(low, CasualPatterns[i]);
  }

  /** A lower-case message without padding is its own lower-cased,
      stripped form. */
  lemma PlainMessage(q: string)
    requires q != [] && q[0] != ' ' && q[|q| - 1] != ' '
    requires forall i :: 0 <= i < |q| ==> 'a' <= q[i] <= 'z' || q[i] == ' '
    ensures Strip(Lower(q)) == q
  {
    assert Lower(q) == q;
    StripUnpadded(q);
  }

  /** A two-word technical request counts as small talk: "token" contains
      the pattern "ok". The words are parameters so that the solver does
      not evaluate `split()` on a literal. */
  lemma DefineTokenIsCasual(q: string, w1: string, w2: string)
    requires w1 == "define" && w2 == "token" && q == w1 + " " + w2
    ensures q == "define token"
    ensures IsCasual(q)
  {
    PlainMessage(q);
    assert Join([w1, w2], " ") + "" == q;
    WordsJoinSuffix([w1, w2], "");
    DefineTokenText(q, w1, w2);
    DefineTokenFits(q, 2);
  }

  lemma DefineTokenText(q: string, w1: string, w2: string)
    requires w1 == "define" && w2 == "token" && q == w1 + " " + w2
    ensures q == "define token"
  {
  }

  lemma DefineTokenFits(low: string, n: nat)
    requires low == "define token" && n == 2
    ensures CasualFor(low, n)
  {
    assert CasualPatterns[16] == "ok";
    assert IsAt(low, "ok", 8);
    ContainsWitness(low, "ok", 8);
  }

  /** The reply `_generate_casual_response` picks. */
  datatype CasualKind = Greeting | Wellbeing | Welcome | Farewell | HelpMenu | Generic

  const Greetings: seq<string> := ["hello", "hi", "hey"]
  const Thanks: seq<string> := ["thanks", "thank you"]
  const Goodbyes: seq<string> := ["bye", "goodbye", "see you"]

  /** `_generate_casual_response` for the lower-cased, stripped message
      `low` of `n` words: the first matching rule wins, in the order
      greeting, "how are you", thanks, goodbye, then a request for help of
      at most three words; anything else gets the generic reply. */
  function ReplyFor(low: string, n: nat): (k: CasualKind)
    ensures k == Greeting <==> AnyIn(low, Greetings)
    ensures k == Wellbeing <==> !AnyIn(low, Greetings) && Contains(low, "how are you")
    ensures k == Welcome <==>
      !AnyIn(low, Greetings) && !Contains(low, "how are you") && AnyIn(low, Thanks)
    ensures k == Farewell <==>
      !AnyIn(low, Greetings) && !Contains(low, "how are you") && !AnyIn(low, Thanks) &&
      AnyIn(low, Goodbyes)
    ensures k == HelpMenu <==>
      !AnyIn(low, Greetings) && !Contains(low, "how are you") && !AnyIn(low, Thanks) &&
      !AnyIn(low, Goodbyes) && Contains(low, "help") && n <= 3
    ensures k == Generic <==>
      !AnyIn(low, Greetings) && !Contains(low, "how are you") && !AnyIn(low, Thanks) &&
      !AnyIn(low, Goodbyes) && !(Contains(low, "help") && n <= 3)
  {
    if AnyIn(low, Greetings) then Greeting
    else if Contains(low, "how are you") then Wellbeing
    else if AnyIn(low, Thanks) then Welcome
    else if AnyIn(low, Goodbyes) then Farewell
    else if Contains(low, "help") && n <= 3 then HelpMenu
    else Generic
  }

  /** `_generate_casual_response`: greetings win over everything else, and
      the help menu only answers a message of at most three words. */
  function CasualReply(question: string): (k: CasualKind)
    ensures k == Greeting <==> AnyIn(Strip(Lower(question)), Greetings)
    ensures k == HelpMenu ==> |Words(question)| <= 3 && Contains(Strip(Lower(question)), "help")
    ensures k == Generic ==> !AnyIn(Strip(Lower(question)), Thanks) && !AnyIn(Strip(Lower(question)), Goodbyes)
  {
    ReplyFor(Strip(Lower(question)), |Words(question)|)
  }

  /** A thank-you that mentions "this" is answered as a greeting: "this"
      contains "hi", and greetings come first. */
  lemma ThanksForThisIsGreeting(q: string, w1: string, w2: string, w3: string)
    requires w1 == "thanks" && w2 == "for" && w3 == "this" && q == w1 + " " + w2 + " " + w3
    ensures q == "thanks for this"
    ensures IsCasual(q)
    ensures CasualReply(q) == Greeting
  {
    PlainMessage(q);
    assert Join([w1, w2, w3], " ") + "" == q by {
      assert [w1, w2, w3][1..] == [w2, w3] && [w2, w3][1..] == [w3];
      assert Join([w2, w3], " ") == w2 + " " + w3;
    }
    WordsJoinSuffix([w1, w2, w3], "");
    ThanksForThisText(q, w1, w2, w3);
    ThanksForThisFits(q, 3);
  }

  lemma ThanksForThisText(q: string, w1: string, w2: string, w3: string)
    requires w1 == "thanks" && w2 == "for" && w3 == "this" && q == w1 + " " + w2 + " " + w3
    ensures q == "thanks for this"
  {
  }

  lemma ThanksForThisFits(low: string, n: nat)
    requires low == "thanks for this" && n == 3
    ensures CasualFor(low, n)
    ensures AnyIn(low, Thanks)
    ensures ReplyFor(low, n) == Greeting
  {
    assert IsAt(low, "hi", 12);
    ContainsWitness(low, "hi", 12);
    assert CasualPatterns[1] == "hi" && Greetings[1] == "hi";
    assert IsAt(low, "thanks", 0);
    ContainsWitness(low, "thanks", 0);
    assert Thanks[0] == "thanks";
  }

  // ---------------------------------------------------------------------------
  // answer_question
  // ---------------------------------------------------------------------------

  /** What an answer says: a fixed message, a small-talk reply or the
      oracle's text. */
  datatype Answer =
    | NoCourse
    | SmallTalk(kind: CasualKind)
    | NothingFound
    | NoAnswer
    | Answered(text: string)

  /** The dictionary `answer_question` returns; `is_casual` is absent, read
      as false, outside small talk. */
  datatype Response = Response(answer: Answer, sources: seq<Source>, foundInfo: bool, isCasual: bool)

  /** One source per relevant page, the path reduced to its file name. */
  function SourcesOf(pages: seq<SearchResult>): (sources: seq<Source>)
    ensures |sources| == |pages|
    ensures forall i :: 0 <= i < |pages| ==>
      sources[i] == Source(pages[i].page, BaseName(pages[i].path), pages[i].excerpt)
  {
    seq(|pages|, i requires 0 <= i < |pages| => Source(pages[i].page, BaseName(pages[i].path), pages[i].excerpt))
  }

  /** The part of `answer_question` after the course check and, where there
      is one, the small-talk check: search up to five pages, then ask the
      oracle, whose answer is `generated` (`None` for no answer). Only a
      non-empty answer is recorded. */
  function AnswerFromNotes(c: Chat, question: string, exists_: string -> bool, pagesOf: string -> PageMap,
                           generated: Option<string>): (r: (Chat, Response))
    ensures var pages := RelevantContext(c.notes, exists_, pagesOf, question, 5);
      (pages == [] ==> r == (c, Response(NothingFound, [], false, false))) &&
      (pages != [] ==> r.1.sources == SourcesOf(pages) && !r.1.isCasual)
    ensures |r.1.sources| <= 5
    ensures r.0.course == c.course && r.0.notes == c.notes
    ensures r.1.foundInfo <==>
      RelevantContext(c.notes, exists_, pagesOf, question, 5) != [] && generated.Some? && generated.value != ""
    ensures r.1.foundInfo ==>
      r.0.history == c.history + [Exchange(question, generated.value, r.1.sources)] &&
      r.1.answer == Answered(generated.value)
    ensures !r.1.foundInfo ==> r.0 == c
  {
    var pages := RelevantContext(c.notes, exists_, pagesOf, question, 5);
    if pages == [] then (c, Response(NothingFound, [], false, false))
    else
      var sources := SourcesOf(pages);
      if generated.None? || generated.value == "" then (c, Response(NoAnswer, sources, false, false))
      else (c.(history := c.history + [Exchange(question, generated.value, sources)]),
            Response(Answered(generated.value), sources, true, false))
  }

  /** Every source names one of the chat's note files. */
  lemma SourcesNameNotes(c: Chat, question: string, exists_: string -> bool, pagesOf: string -> PageMap,
                         generated: Option<string>)
    ensures forall s :: s in AnswerFromNotes(c, question, exists_, pagesOf, generated).1.sources ==>
      exists n :: n in c.notes && s.path == BaseName(n)
  {
    var pages := RelevantContext(c.notes, exists_, pagesOf, question, 5);
    var sources := AnswerFromNotes(c, question, exists_, pagesOf, generated).1.sources;
    forall s | s in sources ensures exists n :: n in c.notes && s.path == BaseName(n) {
      var i :| 0 <= i < |sources| && sources[i] == s;
      assert pages[i].path in c.notes;
    }
  }

  /** `answer_question` of quizzer/src: no course, then small talk, are
      answered without touching the notes or the history. */
  function AnswerQuestion(c: Chat, question: string, exists_: string -> bool, pagesOf: string -> PageMap,
                          generated: Option<string>): (r: (Chat, Response))
    ensures !Selected(c) ==> r == (c, Response(NoCourse, [], false, false))
    ensures Selected(c) && IsCasual(question) ==>
      r == (c, Response(SmallTalk(CasualReply(question)), [], true, true))
    ensures Selected(c) && !IsCasual(question) ==> r == AnswerFromNotes(c, question, exists_, pagesOf, generated)
    ensures r.1.isCasual <==> Selected(c) && IsCasual(question)
    ensures r.0.course == c.course && r.0.notes == c.notes
    ensures |r.0.history| == |c.history| + 1 <==> r.1.foundInfo && !r.1.isCasual
    ensures r.0.history == c.history || |r.0.history| == |c.history| + 1
  {
    if !Selected(c) then (c, Response(NoCourse, [], false, false))
    else if IsCasual(question) then (c, Response(SmallTalk(CasualReply(question)), [], true, true))
    else AnswerFromNotes(c, question, exists_, pagesOf, generated)
  }

  /** `answer_question` of quizzer-v2/src, which has no small talk: the
      course check, then the notes. */
  function PlainAnswerQuestion(c: Chat, question: string, exists_: string -> bool, pagesOf: string -> PageMap,
                               generated: Option<string>): (r: (Chat, Response))
    ensures !Selected(c) ==> r == (c, Response(NoCourse, [], false, false))
    ensures Selected(c) ==> r == AnswerFromNotes(c, question, exists_, pagesOf, generated)
    ensures !r.1.isCasual
    ensures r.0.course == c.course && r.0.notes == c.notes
    ensures |r.0.history| == |c.history| + 1 <==> r.1.foundInfo
  {
    if !Selected(c) then (c, Response(NoCourse, [], false, false))
    else AnswerFromNotes(c, question, exists_, pagesOf, generated)
  }

  /** The two engines answer alike whenever the message is not small talk. */
  lemma EnginesAgreeOffSmallTalk(c: Chat, question: string, exists_: string -> bool,
                                 pagesOf: string -> PageMap, generated: Option<string>)
    requires !IsCasual(question)
    ensures AnswerQuestion(c, question, exists_, pagesOf, generated) ==
            PlainAnswerQuestion(c, question, exists_, pagesOf, generated)
  {
  }

  /** `clear_history` */
  function ClearHistory(c: Chat): (c': Chat)
    ensures c'.history == [] && c'.course == c.course && c'.notes == c.notes
  {
    c.(history := [])
  }

  /** After an answer is recorded, clearing forgets it: the conversation
      starts over with the same course and notes. */
  lemma ClearForgetsAnswers(c: Chat, question: string, exists_: string -> bool,
                            pagesOf: string -> PageMap, generated: Option<string>)
    ensures ClearHistory(AnswerQuestion(c, question, exists_, pagesOf, generated).0) == ClearHistory(c)
  {
  }

  // ---------------------------------------------------------------------------
  // get_course_overview
  // ---------------------------------------------------------------------------

  /** The pages of every listed note that exists. */
  function PageTotal(notes: seq<string>, exists_: string -> bool, pagesOf: string -> PageMap): (t: nat)
    ensures (forall n :: n in notes ==> !exists_(n)) ==> t == 0
    decreases |notes|
  {
    if notes == [] then 0
    else
      assert forall n :: n in notes[1..] ==> n in notes;
      (if exists_(notes[0]) then |pagesOf(notes[0])| else 0) + PageTotal(notes[1..], exists_, pagesOf)
  }

  /** The running total over a list is the sum of the totals of its parts:
      each note adds its own pages once, wherever it sits in the list. */
  lemma {:induction false} PageTotalConcat(a: seq<string>, b: seq<string>, exists_: string -> bool,
                                           pagesOf: string -> PageMap)
    ensures PageTotal(a + b, exists_, pagesOf) == PageTotal(a, exists_, pagesOf) + PageTotal(b, exists_, pagesOf)
    decreases |a|
  {
    if a != [] {
      assert (a + b)[0] == a[0] && (a + b)[1..] == a[1..] + b;
      PageTotalConcat(a[1..], b, exists_, pagesOf);
    } else {
      assert a + b == b;
    }
  }

  /** A single note adds its page count when it exists and nothing otherwise. */
  lemma PageTotalOne(n: string, exists_: string -> bool, pagesOf: string -> PageMap)
    ensures PageTotal([n], exists_, pagesOf) == if exists_(n) then |pagesOf(n)| else 0
  {
    assert [n][1..] == [];
  }

  /** What the overview message reports: the number of documents, their
      page total and their file names. */
  datatype Overview = NoCourseSelected | Overview(documents: nat, pages: nat, names: seq<string>)

  /** `get_course_overview`: "No course selected." without a course or
      without notes; otherwise every listed note is named and counted. */
  function CourseOverview(c: Chat, exists_: string -> bool, pagesOf: string -> PageMap): (o: Overview)
    ensures o.NoCourseSelected? <==> !Selected(c) || c.notes == []
    ensures o.Overview? ==>
      o.documents == |c.notes| && |o.names| == |c.notes| &&
      (forall i :: 0 <= i < |c.notes| ==> o.names[i] == BaseName(c.notes[i])) &&
      o.pages == PageTotal(c.notes, exists_, pagesOf)
  {
    if !Selected(c) || c.notes == [] then NoCourseSelected
    else
      Overview(|c.notes|, PageTotal(c.notes, exists_, pagesOf),
               seq(|c.notes|, i requires 0 <= i < |c.notes| => BaseName(c.notes[i])))
  }
}
