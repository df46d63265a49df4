/**
 * The PDF grounding index of quizzer/src/utils/pdf_grounding.py (the file in
 * quizzer-v2/src/utils/ is the same code). A parsed PDF is a page map: the
 * page number and text of every page whose extracted text is non-empty, in
 * ascending page order. Parsing itself is an input (`read`).
 */
module Grounding {
  import opened Text
  import opened Opt

  datatype Page = Page(num: int, text: string)

  type PageMap = seq<Page>

  /** The shape every parsed map has: strictly ascending page numbers. */
  predicate Ascending(pages: PageMap) {
    forall i, j :: 0 <= i < j < |pages| ==> pages[i].num < pages[j].num
  }

  /** One hit of `search_content`. */
  datatype SearchResult = SearchResult(page: int, text: string, excerpt: string, score: nat, path: string)

  /** One grounding citation: where the evidence is and a short quote of it. */
  datatype Citation = Citation(path: string, page: int, quote: string)

  // ---------------------------------------------------------------------------
  // extract_pdf_text / get_page_content
  // ---------------------------------------------------------------------------

  /** The map built from the raw page texts `raw[k..]` (page numbers count from
      1): pages with empty text are skipped. */
  function PagesFrom(raw: seq<string>, k: nat): (pages: PageMap)
    requires k <= |raw|
    ensures Ascending(pages)
    ensures forall i :: 0 <= i < |pages| ==>
      k < pages[i].num <= |raw| && pages[i].text == raw[pages[i].num - 1] && pages[i].text != ""
    ensures forall j :: k <= j < |raw| && raw[j] != "" ==> Page(j + 1, raw[j]) in pages
    decreases |raw| - k
  {
    if k == |raw| then []
    else if raw[k] == "" then PagesFrom(raw, k + 1)
    else [Page(k + 1, raw[k])] + PagesFrom(raw, k + 1)
  }

  /** `extract_pdf_text`: a cache hit returns the cached map; a read failure
      (`read == None`) returns the empty map and caches nothing; a successful
      read builds the map and caches it under the path. */
  function ExtractPdfText(cache: map<string, PageMap>, path: string, read: Option<seq<string>>)
    : (out: (PageMap, map<string, PageMap>))
    ensures path in cache ==> out == (cache[path], cache)
    ensures path !in cache && read.None? ==> out == ([], cache)
    ensures path !in cache && read.Some? ==>
      out.1 == cache[path := out.0] && Ascending(out.0) &&
      (forall j :: 0 <= j < |read.value| ==>
        (read.value[j] != "" <==> Page(j + 1, read.value[j]) in out.0))
  {
    if path in cache then (cache[path], cache)
    else match read
      case None => ([], cache)
      case Some(raw) =>
        var pages := PagesFrom(raw, 0);
        assert forall j :: 0 <= j < |raw| && Page(j + 1, raw[j]) in pages ==> raw[j] != "";
        (pages, cache[path := pages])
  }

  /** `get_page_content`: `pages.get(num)`. */
  function PageContent(pages: PageMap, num: int): (r: Option<string>)
    ensures r.None? <==> forall k :: 0 <= k < |pages| ==> pages[k].num != num
    ensures r.Some? ==> Page(num, r.value) in pages
  {
    if pages == [] then None
    else if pages[0].num == num then Some(pages[0].text)
    else PageContent(pages[1..], num)
  }

  // ---------------------------------------------------------------------------
  // search_content
  // ---------------------------------------------------------------------------

  /** `query.lower().split()`: whitespace-free words, none at all exactly
      for a blank query. */
  function QueryTerms(query: string): (terms: seq<string>)
    ensures forall i :: 0 <= i < |terms| ==> terms[i] != [] && NoSpace(terms[i])
    ensures terms == [] <==> AllSpace(query)
  {
    LowerSpaces(query);
    WordsEmptyIff(Lower(query));
    assert AllSpace(Lower(query)) <==> AllSpace(query);
    Words(Lower(query))
  }

  /** `sum(1 for term in terms if term in hay)`: repeated terms count again. */
  function Score(hay: string, terms: seq<string>): (n: nat)
    ensures n <= |terms|
    ensures n == 0 <==> forall i :: 0 <= i < |terms| ==> !Contains(hay, terms[i])
  {
    if terms == [] then 0
    else (if Contains(hay, terms[0]) then 1 else 0) + Score(hay, terms[1..])
  }

  /** The position in query order of the first term that occurs in `hay`. */
  function FirstHit(hay: string, terms: seq<string>): (k: nat)
    requires Score(hay, terms) > 0
    ensures k < |terms| && Contains(hay, terms[k])
    ensures forall j :: 0 <= j < k ==> !Contains(hay, terms[j])
  {
    if Contains(hay, terms[0]) then 0 else 1 + FirstHit(hay, terms[1..])
  }

  /** `text[max(0, i - 150):min(len(text), i + 150)].strip()` */
  function Window(text: string, i: nat): (e: string)
    requires i <= |text|
    ensures e == Strip(text[Max(0, i - 150)..Min(|text|, i + 150)])
    ensures |e| <= 300
    ensures Contains(text, e)
  {
    var start := Max(0, i - 150);
    var end := Min(|text|, i + 150);
    StripIsInfix(text, start, end);
    Strip(text[start..end])
  }

  /** A term found at `i` of the lowered text, and no longer than the 150
      characters after `i`, shows up whole in the lowered window. */
  lemma WindowShowsTerm(text: string, i: nat, t: string)
    requires IsAt(Lower(text), t, i) && t != [] && NoSpace(t) && |t| <= 150
    ensures Contains(Lower(Window(text, i)), t)
  {
    var a := Max(0, i - 150);
    var b := Min(|text|, i + 150);
    var s := text[a..b];
    var p := i - a;
    TermInSlice(text, i, t, a, b);
    StrippedTerm(s, p, t);
    assert Window(text, i) == Strip(s);
  }

  /** The characters of a found term, seen in a slice around it: none is
      whitespace, and each lowers to the term's character. */
  lemma TermInSlice(text: string, i: nat, t: string, a: nat, b: nat)
    requires IsAt(Lower(text), t, i) && NoSpace(t)
    requires a <= i && i + |t| <= b <= |text|
    ensures forall j :: i - a <= j < i - a + |t| ==>
      !IsSpace(text[a..b][j]) && LowerChar(text[a..b][j]) == t[j - (i - a)]
  {
    var s := text[a..b];
    var p := i - a;
    forall j | p <= j < p + |t| ensures !IsSpace(s[j]) && LowerChar(s[j]) == t[j - p] {
      assert s[j] == text[i + (j - p)];
      assert Lower(text)[i..i + |t|][j - p] == t[j - p];
    }
  }

  /** A whitespace-free run of `s` that lowers to `t` survives `strip()`, so
      the lowered, stripped text contains `t`. */
  lemma StrippedTerm(s: string, p: nat, t: string)
    requires t != [] && p + |t| <= |s|
    requires forall j :: p <= j < p + |t| ==> !IsSpace(s[j]) && LowerChar(s[j]) == t[j - p]
    ensures Contains(Lower(Strip(s)), t)
  {
    StripKeeps(s, p, |t|);
    var e := Strip(s);
    var o := p - SpaceRun(s);
    var low := Lower(e);
    assert low[o..o + |t|] == t by {
      forall j | 0 <= j < |t| ensures low[o..o + |t|][j] == t[j] {
        assert e[o..o + |t|][j] == s[p..p + |t|][j];
      }
    }
    ContainsWitness(low, t, o);
  }

  /** A stripped slice of `text` still occurs in `text`. */
  lemma StripIsInfix(text: string, start: nat, end: nat)
    requires start <= end <= |text|
    ensures |Strip(text[start..end])| <= end - start
    ensures Contains(text, Strip(text[start..end]))
  {
    var s := text[start..end];
    var k := SpaceRun(s);
    var l := s[k..];
    var m := |l| - TrailRun(l);
    assert Strip(s) == l[..m] by {
      assert LStrip(s) == l;
    }
    InfixOfSlice(text, start, end, k, m);
  }

  /** A piece cut from a slice of `text` occurs in `text`. */
  lemma InfixOfSlice(text: string, start: nat, end: nat, k: nat, m: nat)
    requires start <= end <= |text| && k + m <= end - start
    ensures Contains(text, text[start..end][k..][..m])
  {
    assert text[start..end][k..][..m] == text[start + k..start + k + m];
    ContainsWitness(text, text[start..end][k..][..m], start + k);
  }

  /** The result `search_content` builds for a page whose score is positive. */
  function Hit(path: string, p: Page, terms: seq<string>): (h: SearchResult)
    requires Scores(p, terms)
    ensures h.page == p.num && h.text == p.text && h.path == path
    ensures h.score == Score(Lower(p.text), terms)
    ensures |h.excerpt| <= 300 && Contains(p.text, h.excerpt)
    ensures h.excerpt == Window(p.text, Find(Lower(p.text), terms[FirstHit(Lower(p.text), terms)]))
  {
    var low := Lower(p.text);
    var i := Find(low, terms[FirstHit(low, terms)]);
    SearchResult(p.num, p.text, Window(p.text, i), Score(low, terms), path)
  }

  predicate Scores(p: Page, terms: seq<string>) {
    Score(Lower(p.text), terms) > 0
  }

  /** The excerpt of a hit shows the first query term found on the page,
      whole, when the term is at most 150 characters long. */
  lemma HitShowsTerm(path: string, p: Page, query: string)
    requires Scores(p, QueryTerms(query))
    ensures var terms := QueryTerms(query);
      var t := terms[FirstHit(Lower(p.text), terms)];
      |t| <= 150 ==> Contains(Lower(Hit(path, p, terms).excerpt), t)
  {
    var terms := QueryTerms(query);
    var low := Lower(p.text);
    var t := terms[FirstHit(low, terms)];
    if |t| <= 150 {
      WindowShowsTerm(p.text, Find(low, t), t);
    }
  }

  /** `h` is the hit `search_content` builds for some scoring page of the map. */
  predicate IsHitOf(path: string, pages: PageMap, terms: seq<string>, h: SearchResult) {
    exists k :: 0 <= k < |pages| && Scores(pages[k], terms) && h == Hit(path, pages[k], terms)
  }

  /** A scoring page, remembered by its score and its position in the map. */
  datatype Entry = Entry(score: nat, idx: nat)

  /** The scoring pages of `pages[k..]`, in map order. */
  function EntriesFrom(pages: PageMap, terms: seq<string>, k: nat): (es: seq<Entry>)
    requires k <= |pages|
    ensures |es| <= |pages| - k
    ensures forall i :: 0 <= i < |es| ==>
      k <= es[i].idx < |pages| && Scores(pages[es[i].idx], terms) &&
      es[i].score == Score(Lower(pages[es[i].idx].text), terms)
    ensures forall i, j :: 0 <= i < j < |es| ==> es[i].idx < es[j].idx
    ensures forall j :: k <= j < |pages| && Scores(pages[j], terms) ==>
      Entry(Score(Lower(pages[j].text), terms), j) in es
    decreases |pages| - k
  {
    if k == |pages| then []
    else
      var rest := EntriesFrom(pages, terms, k + 1);
      if Scores(pages[k], terms) then [Entry(Score(Lower(pages[k].text), terms), k)] + rest
      else rest
  }

  /** Ordered by score, ties by map position. */
  predicate Ranked(es: seq<Entry>) {
    forall i, j :: 0 <= i < j < |es| ==> Before(es[i], es[j])
  }

  /** Insert `x` before the first element whose score is not greater. */
  function Insert(x: Entry, l: seq<Entry>): (r: seq<Entry>)
    ensures multiset(r) == multiset(l) + multiset{x}
    ensures |r| == |l| + 1
    ensures forall y :: y in r <==> y == x || y in l
  {
    if l == [] || l[0].score <= x.score then [x] + l
    else
      assert l == [l[0]] + l[1..];
      [l[0]] + Insert(x, l[1..])
  }

  /** Inserting an entry from earlier in the map keeps the ranking. */
  /** `a` may precede `b` in a ranking. */
  predicate Before(a: Entry, b: Entry) {
    a.score > b.score || (a.score == b.score && a.idx < b.idx)
  }

  lemma RankedTail(l: seq<Entry>)
    requires l != [] && Ranked(l)
    ensures Ranked(l[1..])
    ensures forall y :: y in l[1..] ==> Before(l[0], y)
  {
    var tail := l[1..];
    forall i, j | 0 <= i < j < |tail| ensures Before(tail[i], tail[j]) {
      assert tail[i] == l[i + 1] && tail[j] == l[j + 1];
    }
    forall y | y in tail ensures Before(l[0], y) {
      var m :| 0 <= m < |tail| && tail[m] == y;
      assert l[m + 1] == y;
    }
  }

  lemma RankedCons(h: Entry, t: seq<Entry>)
    requires Ranked(t)
    requires forall y :: y in t ==> Before(h, y)
    ensures Ranked([h] + t)
  {
    var r := [h] + t;
    forall i, j | 0 <= i < j < |r| ensures Before(r[i], r[j]) {
      assert r[j] == t[j - 1];
      if i > 0 {
        assert r[i] == t[i - 1];
      }
    }
  }

  lemma {:induction false} InsertRanked(x: Entry, l: seq<Entry>)
    requires Ranked(l)
    requires forall y :: y in l ==> x.idx < y.idx
    ensures Ranked(Insert(x, l))
  {
    if l == [] {
      RankedCons(x, l);
    } else {
      RankedTail(l);
      if l[0].score <= x.score {
        forall y | y in l ensures Before(x, y) {
          if y != l[0] {
            assert y in l[1..];
          }
        }
        RankedCons(x, l);
      } else {
        InsertRanked(x, l[1..]);
        RankedCons(l[0], Insert(x, l[1..]));
      }
    }
  }

  /** `results.sort(key=score, reverse=True)`: Python's sort is stable, also in
      reverse, so equal scores keep their map order. */
  function SortByScore(l: seq<Entry>): (r: seq<Entry>)
    ensures multiset(r) == multiset(l)
    ensures |r| == |l|
    ensures forall y :: y in r <==> y in l
  {
    if l == [] then []
    else
      assert l == [l[0]] + l[1..];
      Insert(l[0], SortByScore(l[1..]))
  }

  /** Sorting entries given in map order ranks them. */
  lemma {:induction false} SortRanked(l: seq<Entry>)
    requires forall i, j :: 0 <= i < j < |l| ==> l[i].idx < l[j].idx
    ensures Ranked(SortByScore(l))
  {
    if l != [] {
      SortRanked(l[1..]);
      var rest := SortByScore(l[1..]);
      forall y | y in rest ensures l[0].idx < y.idx {
        var m :| 0 <= m < |l[1..]| && l[1..][m] == y;
        assert l[m + 1] == y;
      }
      InsertRanked(l[0], rest);
    }
  }

  /** `search_content` on an already parsed page map: one result per scoring
      page, as many as there are, up to `maxResults` (a negative cap drops
      that many from the end, as a Python slice does). */
  function Search(path: string, pages: PageMap, query: string, maxResults: int): (r: seq<SearchResult>)
    ensures maxResults >= 0 ==> |r| == Min(maxResults, |EntriesFrom(pages, QueryTerms(query), 0)|)
    ensures maxResults < 0 ==> |r| == Max(0, |EntriesFrom(pages, QueryTerms(query), 0)| + maxResults)
  {
    var terms := QueryTerms(query);
    var sorted := SortByScore(EntriesFrom(pages, terms, 0));
    var top := PyPrefix(sorted, maxResults);
    TopOfSorted(pages, terms, sorted, top);
    Results(path, pages, terms, top)
  }

  /** The page `num` with text `text` is in the map. */
  predicate InMap(pages: PageMap, num: int, text: string) {
    exists k :: 0 <= k < |pages| && pages[k].num == num && pages[k].text == text
  }

  /** What every result of `search_content` carries: the searched path, a
      score between 1 and the number of query terms, an excerpt of at most
      300 characters, a page of the map with its text; and, page numbers
      being distinct, no page comes back twice. */
  lemma SearchFacts(path: string, pages: PageMap, query: string, maxResults: int)
    ensures var r := Search(path, pages, query, maxResults);
      (forall i :: 0 <= i < |r| ==>
        r[i].path == path && 0 < r[i].score <= |QueryTerms(query)| && |r[i].excerpt| <= 300 &&
        InMap(pages, r[i].page, r[i].text)) &&
      (Ascending(pages) ==> forall i, j :: 0 <= i < j < |r| ==> r[i].page != r[j].page)
  {
    var terms := QueryTerms(query);
    var es := EntriesFrom(pages, terms, 0);
    var sorted := SortByScore(es);
    SortRanked(es);
    var top := PyPrefix(sorted, maxResults);
    TopOfSorted(pages, terms, sorted, top);
    RankedPrefix(sorted, top);
    var r := Results(path, pages, terms, top);
    assert r == Search(path, pages, query, maxResults);
    ResultsFacts(path, pages, terms, top, r);
  }

  /** The per-result facts of `SearchFacts`, for any ranked run of scoring
      entries. */
  lemma ResultsFacts(path: string, pages: PageMap, terms: seq<string>, top: seq<Entry>, r: seq<SearchResult>)
    requires Ranked(top)
    requires forall i :: 0 <= i < |top| ==>
      top[i].idx < |pages| && Scores(pages[top[i].idx], terms) &&
      top[i].score == Score(Lower(pages[top[i].idx].text), terms)
    requires r == Results(path, pages, terms, top)
    ensures forall i :: 0 <= i < |r| ==>
      r[i].path == path && 0 < r[i].score <= |terms| && |r[i].excerpt| <= 300 &&
      InMap(pages, r[i].page, r[i].text)
    ensures Ascending(pages) ==> forall i, j :: 0 <= i < j < |r| ==> r[i].page != r[j].page
  {
    ResultsFollowEntries(path, pages, terms, top, r);
    forall i | 0 <= i < |r| ensures InMap(pages, r[i].page, r[i].text) {
      var k := top[i].idx;
      assert pages[k].num == r[i].page && pages[k].text == r[i].text;
    }
    TopDistinct(pages, terms, top);
    if Ascending(pages) {
      forall i, j | 0 <= i < j < |r| ensures r[i].page != r[j].page {
        var x, y := top[i].idx, top[j].idx;
        assert x != y;
        if x < y {
          assert pages[x].num < pages[y].num;
        } else {
          assert pages[y].num < pages[x].num;
        }
      }
    }
  }

  /** What `search_content` promises about its ranking: every result is the hit
      of a scoring page (its excerpt is the window around the first query term
      found), results come by non-increasing score with ties in map order, and
      no page left out outscores a page kept. */
  lemma SearchRanking(path: string, pages: PageMap, query: string, maxResults: int)
    ensures var r := Search(path, pages, query, maxResults);
      (forall i :: 0 <= i < |r| ==> IsHitOf(path, pages, QueryTerms(query), r[i])) &&
      (forall i, j :: 0 <= i < j < |r| ==> r[i].score >= r[j].score) &&
      (Ascending(pages) ==>
        forall i, j :: (0 <= i < j < |r| && r[i].score == r[j].score) ==> r[i].page < r[j].page) &&
      (forall k, i ::
        (0 <= k < |pages| && Scores(pages[k], QueryTerms(query)) &&
         Hit(path, pages[k], QueryTerms(query)) !in r && 0 <= i < |r|) ==>
          Score(Lower(pages[k].text), QueryTerms(query)) <= r[i].score)
  {
    var terms := QueryTerms(query);
    var es := EntriesFrom(pages, terms, 0);
    var sorted := SortByScore(es);
    SortRanked(es);
    var top := PyPrefix(sorted, maxResults);
    TopOfSorted(pages, terms, sorted, top);
    RankedPrefix(sorted, top);
    var r := Results(path, pages, terms, top);
    assert r == Search(path, pages, query, maxResults);
    TopAreHits(path, pages, terms, top, r);
    ResultsFollowEntries(path, pages, terms, top, r);
    LeftOutEntries(path, pages, terms, top, r);
    TopRanked(pages, top, r);
    forall k | 0 <= k < |pages| && Scores(pages[k], terms) && Hit(path, pages[k], terms) !in r
      ensures forall i :: 0 <= i < |r| ==> Score(Lower(pages[k].text), terms) <= r[i].score
    {
      TopBeatsRest(sorted, top, Entry(Score(Lower(pages[k].text), terms), k));
    }
  }

  /** When the cap leaves room for every scoring page, every scoring page's
      hit is among the results. */
  lemma SearchComplete(path: string, pages: PageMap, query: string, maxResults: int)
    ensures var terms := QueryTerms(query);
      maxResults >= |EntriesFrom(pages, terms, 0)| ==>
        forall k :: 0 <= k < |pages| && Scores(pages[k], terms) ==>
          Hit(path, pages[k], terms) in Search(path, pages, query, maxResults)
  {
    var terms := QueryTerms(query);
    var es := EntriesFrom(pages, terms, 0);
    if maxResults >= |es| {
      var sorted := SortByScore(es);
      var top := PyPrefix(sorted, maxResults);
      TopOfSorted(pages, terms, sorted, top);
      assert Search(path, pages, query, maxResults) == Results(path, pages, terms, top);
      assert top == sorted;
      HitsInResults(path, pages, terms, top);
    }
  }

  /** Results over all the scoring entries hold every scoring page's hit. */
  lemma HitsInResults(path: string, pages: PageMap, terms: seq<string>, top: seq<Entry>)
    requires forall y :: y in top <==> y in EntriesFrom(pages, terms, 0)
    requires forall i :: 0 <= i < |top| ==> top[i].idx < |pages| && Scores(pages[top[i].idx], terms)
    ensures forall k :: 0 <= k < |pages| && Scores(pages[k], terms) ==>
      Hit(path, pages[k], terms) in Results(path, pages, terms, top)
  {
    forall k | 0 <= k < |pages| && Scores(pages[k], terms)
      ensures Hit(path, pages[k], terms) in Results(path, pages, terms, top)
    {
      var e := Entry(Score(Lower(pages[k].text), terms), k);
      assert e in EntriesFrom(pages, terms, 0);
      ResultsHas(path, pages, terms, top, e);
    }
  }

  /** Every entry's page has its hit among the results. */
  lemma ResultsHas(path: string, pages: PageMap, terms: seq<string>, es: seq<Entry>, e: Entry)
    requires forall i :: 0 <= i < |es| ==> es[i].idx < |pages| && Scores(pages[es[i].idx], terms)
    requires e in es
    ensures e.idx < |pages| && Hit(path, pages[e.idx], terms) in Results(path, pages, terms, es)
  {
    var r := Results(path, pages, terms, es);
    var m :| 0 <= m < |es| && es[m] == e;
    ResultsAt(path, pages, terms, es);
    assert r[m] == Hit(path, pages[e.idx], terms);
  }

  /** A prefix of a ranking is a ranking. */
  lemma RankedPrefix(sorted: seq<Entry>, top: seq<Entry>)
    requires Ranked(sorted) && |top| <= |sorted| && top == sorted[..|top|]
    ensures Ranked(top)
  {
    forall i, j | 0 <= i < j < |top| ensures Before(top[i], top[j]) {
      assert top[i] == sorted[i] && top[j] == sorted[j];
    }
  }

  /** In a ranking whose scores are those of the pages, no page appears twice. */
  lemma TopDistinct(pages: PageMap, terms: seq<string>, top: seq<Entry>)
    requires Ranked(top)
    requires forall i :: 0 <= i < |top| ==>
      top[i].idx < |pages| && top[i].score == Score(Lower(pages[top[i].idx].text), terms)
    ensures forall i, j :: 0 <= i < j < |top| ==> top[i].idx != top[j].idx
  {
    forall i, j | 0 <= i < j < |top| ensures top[i].idx != top[j].idx {
      assert Before(top[i], top[j]);
    }
  }

  /** A prefix of the sorted entries is ranked and made of scoring entries. */
  lemma TopOfSorted(pages: PageMap, terms: seq<string>, sorted: seq<Entry>, top: seq<Entry>)
    requires forall y :: y in sorted <==> y in EntriesFrom(pages, terms, 0)
    requires |top| <= |sorted| && top == sorted[..|top|]
    ensures forall i :: 0 <= i < |top| ==>
      top[i].idx < |pages| && Scores(pages[top[i].idx], terms) &&
      top[i].score == Score(Lower(pages[top[i].idx].text), terms)
  {
    forall i | 0 <= i < |top|
      ensures top[i].idx < |pages| && Scores(pages[top[i].idx], terms)
      ensures top[i].score == Score(Lower(pages[top[i].idx].text), terms)
    {
      assert top[i] == sorted[i];
      assert top[i] in EntriesFrom(pages, terms, 0);
    }
  }

  lemma TopAreHits(path: string, pages: PageMap, terms: seq<string>, top: seq<Entry>, r: seq<SearchResult>)
    requires forall i :: 0 <= i < |top| ==> top[i].idx < |pages| && Scores(pages[top[i].idx], terms)
    requires r == Results(path, pages, terms, top)
    ensures forall i :: 0 <= i < |r| ==> IsHitOf(path, pages, terms, r[i])
  {
    ResultsAt(path, pages, terms, top);
    forall i | 0 <= i < |r| ensures IsHitOf(path, pages, terms, r[i]) {
      var k := top[i].idx;
      assert 0 <= k < |pages| && Scores(pages[k], terms) && r[i] == Hit(path, pages[k], terms);
    }
  }

  /** Results inherit score, page and text from their entries. */
  lemma ResultsFollowEntries(path: string, pages: PageMap, terms: seq<string>, top: seq<Entry>, r: seq<SearchResult>)
    requires forall i :: 0 <= i < |top| ==>
      top[i].idx < |pages| && Scores(pages[top[i].idx], terms) &&
      top[i].score == Score(Lower(pages[top[i].idx].text), terms)
    requires r == Results(path, pages, terms, top)
    ensures |r| == |top|
    ensures forall i :: 0 <= i < |r| ==>
      r[i].score == top[i].score && r[i].page == pages[top[i].idx].num &&
      r[i].path == path && |r[i].excerpt| <= 300 && r[i].text == pages[top[i].idx].text
  {
    ResultsAt(path, pages, terms, top);
  }

  /** A page whose hit is not among the results has its entry outside `top`. */
  lemma LeftOutEntries(path: string, pages: PageMap, terms: seq<string>, top: seq<Entry>, r: seq<SearchResult>)
    requires forall i :: 0 <= i < |top| ==> top[i].idx < |pages| && Scores(pages[top[i].idx], terms)
    requires r == Results(path, pages, terms, top)
    ensures forall k :: 0 <= k < |pages| && Scores(pages[k], terms) && Hit(path, pages[k], terms) !in r ==>
      Entry(Score(Lower(pages[k].text), terms), k) !in top
  {
    ResultsAt(path, pages, terms, top);
    forall k | 0 <= k < |pages| && Scores(pages[k], terms) && Entry(Score(Lower(pages[k].text), terms), k) in top
      ensures Hit(path, pages[k], terms) in r
    {
      var m :| 0 <= m < |top| && top[m] == Entry(Score(Lower(pages[k].text), terms), k);
      assert r[m] == Hit(path, pages[k], terms);
    }
  }

  lemma TopRanked(pages: PageMap, top: seq<Entry>, r: seq<SearchResult>)
    requires Ranked(top) && |r| == |top|
    requires forall i :: 0 <= i < |top| ==>
      top[i].idx < |pages| && r[i].score == top[i].score && r[i].page == pages[top[i].idx].num
    ensures forall i, j :: 0 <= i < j < |r| ==> r[i].score >= r[j].score
    ensures Ascending(pages) ==>
      forall i, j :: (0 <= i < j < |r| && r[i].score == r[j].score) ==> r[i].page < r[j].page
  {
    if Ascending(pages) {
      forall i, j | 0 <= i < j < |r| && r[i].score == r[j].score ensures r[i].page < r[j].page {
        assert top[i].idx < top[j].idx;
      }
    }
  }

  /** An entry cut off by the prefix scores no higher than any entry kept. */
  lemma TopBeatsRest(sorted: seq<Entry>, top: seq<Entry>, e: Entry)
    requires Ranked(sorted)
    requires |top| <= |sorted| && top == sorted[..|top|]
    requires e in sorted && e !in top
    ensures forall i :: 0 <= i < |top| ==> e.score <= top[i].score
  {
    var m :| 0 <= m < |sorted| && sorted[m] == e;
    assert m >= |top|;
    assert forall i :: 0 <= i < |top| ==> top[i] == sorted[i];
  }

  /** The hits of the chosen entries, in entry order. */
  function Results(path: string, pages: PageMap, terms: seq<string>, es: seq<Entry>): (r: seq<SearchResult>)
    requires forall i :: 0 <= i < |es| ==> es[i].idx < |pages| && Scores(pages[es[i].idx], terms)
    ensures |r| == |es|
  {
    if es == [] then [] else [Hit(path, pages[es[0].idx], terms)] + Results(path, pages, terms, es[1..])
  }

  lemma {:induction false} ResultsAt(path: string, pages: PageMap, terms: seq<string>, es: seq<Entry>)
    requires forall i :: 0 <= i < |es| ==> es[i].idx < |pages| && Scores(pages[es[i].idx], terms)
    ensures var r := Results(path, pages, terms, es);
      forall i :: 0 <= i < |r| ==> r[i] == Hit(path, pages[es[i].idx], terms)
  {
    if es != [] {
      ResultsAt(path, pages, terms, es[1..]);
      var r := Results(path, pages, terms, es);
      var t := Results(path, pages, terms, es[1..]);
      assert r == [Hit(path, pages[es[0].idx], terms)] + t;
      forall i | 0 < i < |r| ensures r[i] == Hit(path, pages[es[i].idx], terms) {
        assert r[i] == t[i - 1] && es[1..][i - 1] == es[i];
      }
    }
  }

  /** A query with no words finds nothing. */
  lemma BlankQueryFindsNothing(path: string, pages: PageMap, query: string, maxResults: int)
    requires AllSpace(query)
    ensures Search(path, pages, query, maxResults) == []
  {
    assert QueryTerms(query) == [];
  }

  // ---------------------------------------------------------------------------
  // extract_quote
  // ---------------------------------------------------------------------------

  /** The class `[.!?]`. */
  predicate IsMark(c: char) {
    c == '.' || c == '!' || c == '?'
  }

  /** A match of `[.!?]\s` at `i`: sentence punctuation followed by whitespace. */
  predicate SentenceBreak(s: string, i: int) {
    0 <= i && i + 1 < |s| && IsMark(s[i]) && IsSpace(s[i + 1])
  }

  /** The first sentence break at or after `k`, or -1. */
  function FirstBreak(s: string, k: nat): (r: int)
    ensures r == -1 || (k <= r && SentenceBreak(s, r))
    ensures forall j :: k <= j && (r == -1 || j < r) ==> !SentenceBreak(s, j)
    decreases |s| - k
  {
    if k + 1 >= |s| then -1
    else if SentenceBreak(s, k) then k
    else FirstBreak(s, k + 1)
  }

  /** `re.split(r'[.!?]\s+', s[k:])`: each break consumes the punctuation
      mark and the whole whitespace run after it. Positions index the whole
      text, so no piece of the recursion is a slice of a slice. */
  function SplitFrom(s: string, k: nat): (parts: seq<string>)
    requires k <= |s|
    ensures |parts| >= 1
    decreases |s| - k
  {
    var b := FirstBreak(s, k);
    if b < 0 then [s[k..]]
    else [s[k..b]] + SplitFrom(s, SpaceEnd(s, b + 1))
  }

  /** The text each break of `SplitFrom` consumes, in order: the mark and
      the whole whitespace run after it. */
  function SeparatorsFrom(s: string, k: nat): (seps: seq<string>)
    requires k <= |s|
    decreases |s| - k
  {
    var b := FirstBreak(s, k);
    if b < 0 then []
    else [s[b..SpaceEnd(s, b + 1)]] + SeparatorsFrom(s, SpaceEnd(s, b + 1))
  }

  /** `re.split(r'[.!?]\s+', s)`. */
  function SplitSentences(s: string): (parts: seq<string>)
    ensures |parts| >= 1
  {
    SplitFrom(s, 0)
  }

  /** The separators `SplitSentences` consumes. */
  function Separators(s: string): seq<string> {
    SeparatorsFrom(s, 0)
  }

  /** Without a break from `k` on, the rest of the text is one sentence and
      nothing is consumed. */
  lemma NoneFrom(s: string, k: nat)
    requires k <= |s| && FirstBreak(s, k) < 0
    ensures SplitFrom(s, k) == [s[k..]] && SeparatorsFrom(s, k) == []
  {
  }

  /** One step of the split: the text up to the first break, then the split
      of what follows the break's whitespace run. */
  lemma StepFrom(s: string, k: nat)
    requires k <= |s| && FirstBreak(s, k) >= 0
    ensures var b := FirstBreak(s, k);
      b + 1 <= |s| &&
      SplitFrom(s, k) == [s[k..b]] + SplitFrom(s, SpaceEnd(s, b + 1)) &&
      SeparatorsFrom(s, k) == [s[b..SpaceEnd(s, b + 1)]] + SeparatorsFrom(s, SpaceEnd(s, b + 1))
  {
  }

  /** What one break consumes: a sentence mark followed by whitespace only. */
  predicate BreakText(d: string) {
    |d| >= 2 && IsMark(d[0]) && AllSpace(d[1..])
  }

  /** No sentence holds a break, and every separator is a break. */
  lemma {:induction false} SplitFromBreaks(s: string, k: nat)
    requires k <= |s|
    ensures forall m, i :: 0 <= m < |SplitFrom(s, k)| ==> !SentenceBreak(SplitFrom(s, k)[m], i)
    ensures forall m :: 0 <= m < |SeparatorsFrom(s, k)| ==> BreakText(SeparatorsFrom(s, k)[m])
    decreases |s| - k
  {
    var b := FirstBreak(s, k);
    if b < 0 {
      NoneFrom(s, k);
      NoBreakIn(s, k, |s|);
      assert s[k..|s|] == s[k..];
    } else {
      SplitFromBreaks(s, SpaceEnd(s, b + 1));
      BreaksStep(s, k);
    }
  }

  /** If the split after the first break is break-free with break
      separators, so is the split from `k`. */
  lemma BreaksStep(s: string, k: nat)
    requires k <= |s| && FirstBreak(s, k) >= 0
    requires var e := SpaceEnd(s, FirstBreak(s, k) + 1);
      (forall m, i :: 0 <= m < |SplitFrom(s, e)| ==> !SentenceBreak(SplitFrom(s, e)[m], i)) &&
      (forall m :: 0 <= m < |SeparatorsFrom(s, e)| ==> BreakText(SeparatorsFrom(s, e)[m]))
    ensures forall m, i :: 0 <= m < |SplitFrom(s, k)| ==> !SentenceBreak(SplitFrom(s, k)[m], i)
    ensures forall m :: 0 <= m < |SeparatorsFrom(s, k)| ==> BreakText(SeparatorsFrom(s, k)[m])
  {
    var b := FirstBreak(s, k);
    var e := SpaceEnd(s, b + 1);
    StepFrom(s, k);
    NoBreakIn(s, k, b);
    ConsNoBreak(SplitFrom(s, k), s[k..b], SplitFrom(s, e));
    BreakTextAt(s, b);
    ConsBreakText(SeparatorsFrom(s, k), s[b..e], SeparatorsFrom(s, e));
  }

  /** No sentence holds a break, and every separator is a break: a mark
      followed by whitespace only. */
  lemma SplitSentencesBreaks(s: string)
    ensures forall m, i :: 0 <= m < |SplitSentences(s)| ==> !SentenceBreak(SplitSentences(s)[m], i)
    ensures forall m :: 0 <= m < |Separators(s)| ==> BreakText(Separators(s)[m])
  {
    SplitFromBreaks(s, 0);
  }

  lemma ConsNoBreak(parts: seq<string>, p: string, ps: seq<string>)
    requires parts == [p] + ps
    requires forall i :: !SentenceBreak(p, i)
    requires forall m, i :: 0 <= m < |ps| ==> !SentenceBreak(ps[m], i)
    ensures forall m, i :: 0 <= m < |parts| ==> !SentenceBreak(parts[m], i)
  {
    forall m, i | 0 <= m < |parts| ensures !SentenceBreak(parts[m], i) {
      if m > 0 {
        assert parts[m] == ps[m - 1];
      }
    }
  }

  lemma ConsBreakText(seps: seq<string>, d: string, ds: seq<string>)
    requires seps == [d] + ds
    requires BreakText(d)
    requires forall m :: 0 <= m < |ds| ==> BreakText(ds[m])
    ensures forall m :: 0 <= m < |seps| ==> BreakText(seps[m])
  {
    forall m | 0 <= m < |seps| ensures BreakText(seps[m]) {
      if m > 0 {
        assert seps[m] == ds[m - 1];
      }
    }
  }

  /** A break at `b` consumes the mark and the whole whitespace run after it. */
  lemma BreakTextAt(s: string, b: nat)
    requires SentenceBreak(s, b)
    ensures BreakText(s[b..SpaceEnd(s, b + 1)])
  {
    var e := SpaceEnd(s, b + 1);
    var d := s[b..e];
    assert e >= b + 2;
    assert d[0] == s[b];
    forall j | 0 <= j < |d[1..]| ensures IsSpace(d[1..][j]) {
      assert d[1..][j] == s[b + 1 + j];
    }
  }

  /** A stretch of the text with no break starting inside it holds no break. */
  lemma NoBreakIn(s: string, k: nat, b: nat)
    requires k <= b <= |s|
    requires forall j :: k <= j < b ==> !SentenceBreak(s, j)
    ensures forall i :: !SentenceBreak(s[k..b], i)
  {
    forall i ensures !SentenceBreak(s[k..b], i) {
      if 0 <= i && i + 1 < b - k {
        assert s[k..b][i] == s[k + i] && s[k..b][i + 1] == s[k + i + 1];
        assert !SentenceBreak(s, k + i);
      }
    }
  }

  /** The pieces with the separators put back between them. */
  function Interleave(parts: seq<string>, seps: seq<string>): string
    requires |parts| == |seps| + 1
    decreases |seps|
  {
    if seps == [] then parts[0] else parts[0] + seps[0] + Interleave(parts[1..], seps[1..])
  }

  lemma InterleaveCons(p: string, d: string, ps: seq<string>, ds: seq<string>)
    requires |ps| == |ds| + 1
    ensures Interleave([p] + ps, [d] + ds) == p + d + Interleave(ps, ds)
  {
    assert ([p] + ps)[1..] == ps;
    assert ([d] + ds)[1..] == ds;
  }

  lemma ThreeSlices<T>(s: seq<T>, k: nat, b: nat, e: nat)
    requires k <= b <= e <= |s|
    ensures s[k..b] + s[b..e] + s[e..] == s[k..]
  {
  }

  /** Splitting from `k` loses nothing of `s[k:]`. */
  lemma {:induction false} SplitFromJoin(s: string, k: nat)
    requires k <= |s|
    ensures |SplitFrom(s, k)| == |SeparatorsFrom(s, k)| + 1
    ensures Interleave(SplitFrom(s, k), SeparatorsFrom(s, k)) == s[k..]
    decreases |s| - k
  {
    var b := FirstBreak(s, k);
    if b < 0 {
      NoneFrom(s, k);
    } else {
      var e := SpaceEnd(s, b + 1);
      SplitFromJoin(s, e);
      JoinStep(s, k);
    }
  }

  /** If the split after the first break joins back to the rest of the text,
      the split from `k` joins back to `s[k..]`. */
  lemma JoinStep(s: string, k: nat)
    requires k <= |s| && FirstBreak(s, k) >= 0
    requires var e := SpaceEnd(s, FirstBreak(s, k) + 1);
      |SplitFrom(s, e)| == |SeparatorsFrom(s, e)| + 1 &&
      Interleave(SplitFrom(s, e), SeparatorsFrom(s, e)) == s[e..]
    ensures |SplitFrom(s, k)| == |SeparatorsFrom(s, k)| + 1
    ensures Interleave(SplitFrom(s, k), SeparatorsFrom(s, k)) == s[k..]
  {
    var b := FirstBreak(s, k);
    var e := SpaceEnd(s, b + 1);
    StepFrom(s, k);
    JoinCons(s, k, b, e, SplitFrom(s, k), SeparatorsFrom(s, k), SplitFrom(s, e), SeparatorsFrom(s, e));
  }

  /** One more piece and separator in front extend the joined text by the
      stretch `s[k..e]` before it. */
  lemma JoinCons(s: string, k: nat, b: nat, e: nat,
                 parts: seq<string>, seps: seq<string>, ps: seq<string>, ds: seq<string>)
    requires k <= b <= e <= |s|
    requires parts == [s[k..b]] + ps && seps == [s[b..e]] + ds
    requires |ps| == |ds| + 1 && Interleave(ps, ds) == s[e..]
    ensures |parts| == |seps| + 1 && Interleave(parts, seps) == s[k..]
  {
    InterleaveCons(s[k..b], s[b..e], ps, ds);
    ThreeSlices(s, k, b, e);
  }

  /** Splitting loses nothing: the sentences with the consumed breaks put back
      between them give the text again. */
  lemma SplitSentencesJoin(s: string)
    ensures |SplitSentences(s)| == |Separators(s)| + 1
    ensures Interleave(SplitSentences(s), Separators(s)) == s
  {
    SplitFromJoin(s, 0);
    assert s[0..] == s;
  }

  /** The first sentence from `k` is empty or starts with the character at `k`. */
  lemma FirstFrom(s: string, k: nat)
    requires k <= |s|
    ensures SplitFrom(s, k)[0] == [] || (k < |s| && SplitFrom(s, k)[0][0] == s[k])
  {
    if FirstBreak(s, k) >= 0 {
      StepFrom(s, k);
    } else {
      NoneFrom(s, k);
    }
  }

  /** Every sentence after the first starts past a break's whole whitespace
      run, as the greedy `\s+` consumes it. */
  lemma {:induction false} SplitFromTrimmed(s: string, k: nat)
    requires k <= |s|
    ensures forall m :: 1 <= m < |SplitFrom(s, k)| ==>
      SplitFrom(s, k)[m] == [] || !IsSpace(SplitFrom(s, k)[m][0])
    decreases |s| - k
  {
    var b := FirstBreak(s, k);
    if b >= 0 {
      var e := SpaceEnd(s, b + 1);
      SplitFromTrimmed(s, e);
      StepFrom(s, k);
      FirstFrom(s, e);
      ConsTrimmed(SplitFrom(s, k), s[k..b], SplitFrom(s, e));
    } else {
      NoneFrom(s, k);
    }
  }

  /** The first sentence is the text up to the first break: it opens the text. */
  lemma SplitSentencesFirst(s: string)
    ensures StartsWith(s, SplitSentences(s)[0])
    ensures FirstBreak(s, 0) >= 0 ==> SplitSentences(s)[0] == s[..FirstBreak(s, 0)]
  {
    if FirstBreak(s, 0) >= 0 {
      StepFrom(s, 0);
    } else {
      NoneFrom(s, 0);
      assert s[0..] == s;
    }
  }

  /** Every sentence after a break starts past the break's whole whitespace
      run. */
  lemma SplitSentencesTrimmed(s: string)
    ensures forall m :: 1 <= m < |SplitSentences(s)| ==>
      SplitSentences(s)[m] == [] || !IsSpace(SplitSentences(s)[m][0])
  {
    SplitFromTrimmed(s, 0);
  }

  lemma ConsTrimmed(parts: seq<string>, p: string, ps: seq<string>)
    requires parts == [p] + ps
    requires |ps| >= 1
    requires ps[0] == [] || !IsSpace(ps[0][0])
    requires forall m :: 1 <= m < |ps| ==> ps[m] == [] || !IsSpace(ps[m][0])
    ensures forall m :: 1 <= m < |parts| ==> parts[m] == [] || !IsSpace(parts[m][0])
  {
    forall m | 1 <= m < |parts| ensures parts[m] == [] || !IsSpace(parts[m][0]) {
      assert parts[m] == ps[m - 1];
    }
  }

  /** A sentence fit to quote: between 5 and `maxWords` words. */
  predicate Quotable(sentence: string, maxWords: int) {
    5 <= |Words(sentence)| <= maxWords
  }

  /** The position of the first quotable sentence, or `|sentences|` if none. */
  function FirstQuotable(sentences: seq<string>, maxWords: int): (k: nat)
    ensures k <= |sentences|
    ensures k < |sentences| ==> Quotable(sentences[k], maxWords)
    ensures forall j :: 0 <= j < k ==> !Quotable(sentences[j], maxWords)
  {
    if sentences == [] then 0
    else if Quotable(sentences[0], maxWords) then 0
    else 1 + FirstQuotable(sentences[1..], maxWords)
  }

  /** `extract_quote`: the first sentence of the cleaned text with 5 to
      `maxWords` words, stripped; otherwise the first `maxWords` words of the
      cleaned text, space-joined, with "..." glued to the last one. Either way
      the quote has at most `maxWords` words. */
  function ExtractQuote(text: string, maxWords: int): (q: string)
    requires maxWords >= 1
    ensures |Words(q)| <= maxWords
    ensures var ss := SplitSentences(CleanText(text));
      var k := FirstQuotable(ss, maxWords);
      k < |ss| ==> q == Strip(ss[k]) && 5 <= |Words(q)|
    ensures var ss := SplitSentences(CleanText(text));
      FirstQuotable(ss, maxWords) == |ss| ==>
        EndsWith(q, "...") && Words(q) == MarkedPrefix(Words(CleanText(text)), maxWords, "...")
  {
    var clean := CleanText(text);
    var sentences := SplitSentences(clean);
    var k := FirstQuotable(sentences, maxWords);
    if k < |sentences| then
      WordsStrip(sentences[k]);
      Strip(sentences[k])
    else
      Truncated(Words(clean), maxWords, "...")
  }

  /** The first `maxWords` of the words `ws` with `mark` glued to the last
      one; just `mark` when there is no word to keep. */
  function MarkedPrefix(ws: seq<string>, maxWords: int, mark: string): seq<string> {
    var m := Min(maxWords, |ws|);
    if m <= 0 then [mark] else ws[..m - 1] + [ws[m - 1] + mark]
  }

  /** The first `maxWords` words, space-joined, with `mark` glued to the last. */
  function Truncated(ws: seq<string>, maxWords: int, mark: string): (q: string)
    requires maxWords >= 1
    requires forall i :: 0 <= i < |ws| ==> ws[i] != [] && NoSpace(ws[i])
    requires mark != [] && NoSpace(mark)
    ensures |Words(q)| <= maxWords && EndsWith(q, mark)
    ensures Words(q) == MarkedPrefix(ws, maxWords, mark)
  {
    var m := Min(maxWords, |ws|);
    var kept := ws[..m];
    TruncatedWords(kept, mark);
    if m > 0 then
      PrefixInit(ws, m);
      Join(kept, " ") + mark
    else
      Join(kept, " ") + mark
  }

  lemma PrefixInit<T>(ws: seq<T>, m: nat)
    requires 0 < m <= |ws|
    ensures ws[..m][..m - 1] == ws[..m - 1] && ws[..m][m - 1] == ws[m - 1]
  {
  }

  /** The truncated quote gives back the kept words, the mark glued to the
      last one, or the mark alone when no word was kept. */
  lemma TruncatedWords(kept: seq<string>, mark: string)
    requires forall i :: 0 <= i < |kept| ==> kept[i] != [] && NoSpace(kept[i])
    requires mark != [] && NoSpace(mark)
    ensures Words(Join(kept, " ") + mark) ==
      if kept == [] then [mark] else kept[..|kept| - 1] + [kept[|kept| - 1] + mark]
    ensures EndsWith(Join(kept, " ") + mark, mark)
  {
    var q := Join(kept, " ") + mark;
    assert q[|q| - |mark|..] == mark;
    if kept == [] {
      assert q == mark;
      WordsSingle(mark);
    } else {
      WordsJoinSuffix(kept, mark);
    }
  }

  // ---------------------------------------------------------------------------
  // find_grounding / extract_topic_sections / validate_note_file
  // ---------------------------------------------------------------------------

  /** The citation `find_grounding` makes of one hit. */
  function Cite(h: SearchResult): (c: Citation)
    ensures c.path == h.path && c.page == h.page
    ensures |Words(c.quote)| <= 25
  {
    Citation(h.path, h.page, ExtractQuote(h.excerpt, 25))
  }

  /** The citations of a list of hits, in order. */
  function CitationsOf(hits: seq<SearchResult>): (cs: seq<Citation>)
    ensures |cs| == |hits|
    ensures forall i :: 0 <= i < |cs| ==> cs[i] == Cite(hits[i])
  {
    seq(|hits|, i requires 0 <= i < |hits| => Cite(hits[i]))
  }

  /** `find_grounding`: up to three citations for `"{topic} {concept}"`, one per
      search hit, in hit order, each quoting at most 25 words of the hit's
      excerpt. */
  function FindGrounding(path: string, pages: PageMap, topic: string, concept: string): (cs: seq<Citation>)
    ensures |cs| <= 3
    ensures forall i :: 0 <= i < |cs| ==> cs[i].path == path && |Words(cs[i].quote)| <= 25
    ensures cs == CitationsOf(Search(path, pages, topic + " " + concept, 3))
  {
    var hits := Search(path, pages, topic + " " + concept, 3);
    SearchPaths(path, pages, topic + " " + concept, 3);
    CitationsOf(hits)
  }

  lemma SearchPaths(path: string, pages: PageMap, query: string, maxResults: int)
    ensures var r := Search(path, pages, query, maxResults);
      forall i :: 0 <= i < |r| ==> r[i].path == path
  {
    SearchFacts(path, pages, query, maxResults);
  }

  /** `extract_topic_sections`: one key per topic, each holding at most five hits. */
  function ExtractTopicSections(path: string, pages: PageMap, topics: seq<string>)
    : (sections: map<string, seq<SearchResult>>)
    ensures sections.Keys == set t | t in topics
    ensures forall t :: t in sections ==> |sections[t]| <= 5 && sections[t] == Search(path, pages, t, 5)
  {
    map t | t in topics :: Search(path, pages, t, 5)
  }

  /** The final component of a path: `Path(p).name`. Like `pathlib`, empty
      and "." components are dropped, so "notes/" and "notes/." both name
      "notes", and "." names nothing. */
  function BaseName(path: string): (name: string)
    ensures '/' !in name && name != "."
    decreases |path|
  {
    if path != [] && path[|path| - 1] == '/' then BaseName(path[..|path| - 1])
    else if '/' in path then
      var i := LastIndexOfChar(path, '/');
      if path[i + 1..] == "." then BaseName(path[..i]) else path[i + 1..]
    else if path == "." then ""
    else path
  }

  /** Appending a real file name to a directory gives that name back. */
  lemma BaseNameJoin(dir: string, name: string)
    requires name != [] && name != "." && '/' !in name
    ensures BaseName(dir + "/" + name) == name
  {
    var p := dir + "/" + name;
    assert p[|p| - 1] == name[|name| - 1];
    assert p[|dir|] == '/';
    var i := LastIndexOfChar(p, '/');
    assert p[i + 1..] == name;
  }

  /** `Path(p).suffix` of a final component: from its last dot, when that dot
      is neither the first nor the last character; otherwise empty. */
  function Suffix(name: string): string {
    if '.' !in name then ""
    else
      var i := LastIndexOfChar(name, '.');
      if 0 < i < |name| - 1 then name[i..] else ""
  }

  /** `validate_note_file`: the file exists and its suffix is exactly ".pdf". */
  function ValidateNoteFile(exists_: bool, path: string): bool {
    exists_ && Suffix(BaseName(path)) == ".pdf"
  }

  /** A note file is accepted exactly when it exists and its name is "X.pdf"
      with a non-empty stem X. */
  lemma ValidateNoteFileIff(exists_: bool, path: string)
    ensures ValidateNoteFile(exists_, path) <==>
      exists_ && |BaseName(path)| >= 5 && EndsWith(BaseName(path), ".pdf")
  {
    var name := BaseName(path);
    assert |name| >= 5 && EndsWith(name, ".pdf") ==> name[|name| - 4] == '.';
    if '.' in name {
      var i := LastIndexOfChar(name, '.');
      if 0 < i < |name| - 1 && name[i..] == ".pdf" {
        assert |name| == i + 4;
        assert name[|name| - 4..] == name[i..];
      }
      if |name| >= 5 && EndsWith(name, ".pdf") {
        assert name[|name| - 4] == '.';
        assert '.' !in name[|name| - 3..];
        assert i == |name| - 4;
      }
    }
  }
}
