/**
 * The Python `str` primitives the quiz core is built from, over `seq<char>`:
 * `isspace`, `lower`/`upper`, `strip`, `split()`, `split(sep)`, `find`/`in`,
 * `startswith`, `join`, `re.sub(r'\s+', ' ', s)`, slicing with `[:n]` and
 * `str(int)`.
 *
 * Character classes are those of Python restricted to ASCII: `IsSpace` is
 * `str.isspace` on code points 0..127, and case mapping touches only A-Z/a-z.
 */
module Text {

  /** Python `str.isspace` on the ASCII range: space, \t \n \v \f \r and the
      four separator controls 0x1C..0x1F. */
  predicate IsSpace(c: char) {
    var n := c as int;
    n == 32 || 9 <= n <= 13 || 28 <= n <= 31
  }

  predicate IsAlpha(c: char) {
    'A' <= c <= 'Z' || 'a' <= c <= 'z'
  }

  predicate IsDigit(c: char) {
    '0' <= c <= '9'
  }

  predicate NoSpace(s: string) {
    forall i :: 0 <= i < |s| ==> !IsSpace(s[i])
  }

  predicate AllSpace(s: string) {
    forall i :: 0 <= i < |s| ==> IsSpace(s[i])
  }

  function LowerChar(c: char): char {
    if 'A' <= c <= 'Z' then (c as int + 32) as char else c
  }

  function UpperChar(c: char): char {
    if 'a' <= c <= 'z' then (c as int - 32) as char else c
  }

  /** `s.lower()` */
  function Lower(s: string): (r: string)
    ensures |r| == |s|
    ensures forall i :: 0 <= i < |s| ==> r[i] == LowerChar(s[i])
  {
    seq(|s|, i requires 0 <= i < |s| => LowerChar(s[i]))
  }

  /** `s.upper()` */
  function Upper(s: string): (r: string)
    ensures |r| == |s|
    ensures forall i :: 0 <= i < |s| ==> r[i] == UpperChar(s[i])
  {
    seq(|s|, i requires 0 <= i < |s| => UpperChar(s[i]))
  }

  /** The end of the whitespace run of `s` that starts at `i`. */
  function SpaceEnd(s: string, i: nat): (e: nat)
    requires i <= |s|
    ensures i <= e <= |s|
    ensures forall j :: i <= j < e ==> IsSpace(s[j])
    ensures e == |s| || !IsSpace(s[e])
    decreases |s| - i
  {
    if i < |s| && IsSpace(s[i]) then SpaceEnd(s, i + 1) else i
  }

  /** The number of leading whitespace characters of `s`. */
  function SpaceRun(s: string): (k: nat)
    ensures k <= |s|
    ensures forall i :: 0 <= i < k ==> IsSpace(s[i])
    ensures k == |s| || !IsSpace(s[k])
  {
    SpaceEnd(s, 0)
  }

  /** The number of leading non-whitespace characters of `s`. */
  function WordRun(s: string): (k: nat)
    ensures k <= |s|
    ensures forall i :: 0 <= i < k ==> !IsSpace(s[i])
    ensures k == |s| || IsSpace(s[k])
  {
    if s != [] && !IsSpace(s[0]) then 1 + WordRun(s[1..]) else 0
  }

  /** The start of the whitespace run of `s` that ends at `j`. */
  function SpaceStart(s: string, j: nat): (b: nat)
    requires j <= |s|
    ensures b <= j
    ensures forall i :: b <= i < j ==> IsSpace(s[i])
    ensures b == 0 || !IsSpace(s[b - 1])
  {
    if j > 0 && IsSpace(s[j - 1]) then SpaceStart(s, j - 1) else j
  }

  /** The number of trailing whitespace characters of `s`. */
  function TrailRun(s: string): (k: nat)
    ensures k <= |s|
    ensures forall i :: |s| - k <= i < |s| ==> IsSpace(s[i])
    ensures k == |s| || !IsSpace(s[|s| - k - 1])
  {
    |s| - SpaceStart(s, |s|)
  }

  /** A run length is determined by the property that defines it. */
  lemma SpaceRunUnique(s: string, k: nat)
    requires k <= |s|
    requires forall i :: 0 <= i < k ==> IsSpace(s[i])
    requires k == |s| || !IsSpace(s[k])
    ensures SpaceRun(s) == k
  {
    SpaceEndUnique(s, 0, k);
  }

  lemma SpaceEndUnique(s: string, i: nat, k: nat)
    requires i <= k <= |s|
    requires forall j :: i <= j < k ==> IsSpace(s[j])
    requires k == |s| || !IsSpace(s[k])
    ensures SpaceEnd(s, i) == k
    decreases k - i
  {
    if i < k {
      SpaceEndUnique(s, i + 1, k);
    }
  }

  lemma WordRunUnique(s: string, k: nat)
    requires k <= |s|
    requires forall i :: 0 <= i < k ==> !IsSpace(s[i])
    requires k == |s| || IsSpace(s[k])
    ensures WordRun(s) == k
  {
  }

  lemma TrailRunStops(s: string)
    requires s != [] && !IsSpace(s[0])
    ensures TrailRun(s) < |s|
  {
  }

  /** `s.lstrip()` */
  function LStrip(s: string): (r: string)
    ensures |r| <= |s|
    ensures r == [] || !IsSpace(r[0])
  {
    s[SpaceRun(s)..]
  }

  /** `s.rstrip()` */
  function RStrip(s: string): (r: string)
    ensures |r| <= |s|
    ensures r == [] || !IsSpace(r[|r| - 1])
  {
    s[..|s| - TrailRun(s)]
  }

  /** `s.strip()` */
  function Strip(s: string): string {
    RStrip(LStrip(s))
  }

  /** `strip` leaves nothing exactly when the string is all whitespace, and
      otherwise keeps a non-whitespace character at each end. */
  lemma StripShape(s: string)
    ensures |Strip(s)| <= |s|
    ensures Strip(s) == [] || (!IsSpace(Strip(s)[0]) && !IsSpace(Strip(s)[|Strip(s)| - 1]))
    ensures Strip(s) == [] <==> AllSpace(s)
  {
    var l := LStrip(s);
    var r := RStrip(l);
    if l != [] {
      assert l[0] == s[SpaceRun(s)];
      TrailRunStops(l);
      assert r[0] == l[0];
    }
    if !AllSpace(s) {
      var k :| 0 <= k < |s| && !IsSpace(s[k]);
      assert SpaceRun(s) <= k;
    }
  }

  /** A string with no whitespace at either end is its own `strip()`. */
  lemma StripUnpadded(s: string)
    requires s != [] && !IsSpace(s[0]) && !IsSpace(s[|s| - 1])
    ensures Strip(s) == s
  {
    SpaceRunUnique(s, 0);
    assert s[0..] == s;
  }

  /** `s.split()` with no argument: the maximal runs of non-whitespace. */
  function Words(s: string): (ws: seq<string>)
    ensures forall i :: 0 <= i < |ws| ==> ws[i] != [] && NoSpace(ws[i])
    decreases |s|
  {
    var k := SpaceRun(s);
    if k == |s| then []
    else
      var n := WordRun(s[k..]);
      [s[k..k + n]] + Words(s[k + n..])
  }

  /** `sep.join(ws)` */
  function Join(ws: seq<string>, sep: string): string {
    if |ws| == 0 then ""
    else if |ws| == 1 then ws[0]
    else ws[0] + sep + Join(ws[1..], sep)
  }

  lemma AllSpaceRun(s: string)
    requires AllSpace(s)
    ensures SpaceRun(s) == |s|
  {
    SpaceRunUnique(s, |s|);
  }

  /** `split()` of whitespace, one word, then the rest (empty or starting
      with whitespace): that word, then the words of the rest. */
  lemma WordsAt(sp: string, w: string, rest: string)
    requires AllSpace(sp) && w != [] && NoSpace(w)
    requires rest == [] || IsSpace(rest[0])
    ensures Words(sp + w + rest) == [w] + Words(rest)
  {
    var s := sp + w + rest;
    assert SpaceRun(s) == |sp| by {
      assert forall i :: 0 <= i < |sp| ==> s[i] == sp[i];
      assert s[|sp|] == w[0];
      SpaceRunUnique(s, |sp|);
    }
    var u := s[|sp|..];
    assert WordRun(u) == |w| by {
      assert u == w + rest;
      assert forall i :: 0 <= i < |w| ==> u[i] == w[i];
      assert |w| < |u| ==> u[|w|] == rest[0];
      WordRunUnique(u, |w|);
    }
    assert s[|sp|..|sp| + |w|] == w;
    assert s[|sp| + |w|..] == rest;
  }

  /** The first word of a string that is not all whitespace, and what
      precedes and follows it. */
  lemma FirstWord(s: string) returns (sp: string, w: string, rest: string)
    requires !AllSpace(s)
    ensures s == sp + w + rest && AllSpace(sp) && w != [] && NoSpace(w)
    ensures rest == [] || IsSpace(rest[0])
    ensures |rest| < |s|
  {
    var k := SpaceRun(s);
    assert k < |s| by {
      var j :| 0 <= j < |s| && !IsSpace(s[j]);
      assert !(j < k);
    }
    var n := WordRun(s[k..]);
    assert 1 <= n by {
      assert s[k..][0] == s[k];
    }
    sp, w, rest := s[..k], s[k..k + n], s[k + n..];
    assert NoSpace(w) by {
      forall i | 0 <= i < |w| ensures !IsSpace(w[i]) {
        assert w[i] == s[k..][i];
      }
    }
    assert rest == [] || IsSpace(rest[0]) by {
      if rest != [] {
        assert rest[0] == s[k..][n];
      }
    }
    assert s == sp + w + rest;
  }

  /** `split()` only looks at what follows the leading whitespace. */
  lemma WordsLStrip(s: string)
    ensures Words(LStrip(s)) == Words(s)
  {
    if AllSpace(s) {
      AllSpaceRun(s);
    } else {
      var sp, w, rest := FirstWord(s);
      SpaceRunUnique(s, |sp|);
      assert LStrip(s) == [] + w + rest;
      WordsAt(sp, w, rest);
      WordsAt([], w, rest);
    }
  }

  lemma {:induction false} LStripSpacePrefix(sp: string, rest: string)
    requires AllSpace(sp)
    ensures LStrip(sp + rest) == LStrip(rest)
  {
    var k := SpaceRun(rest);
    SpaceRunUnique(sp + rest, |sp| + k);
    assert (sp + rest)[|sp| + k..] == rest[k..];
  }

  lemma WordsOfSpacePrefix(sp: string, rest: string)
    requires AllSpace(sp)
    ensures Words(sp + rest) == Words(rest)
  {
    LStripSpacePrefix(sp, rest);
    WordsLStrip(sp + rest);
    WordsLStrip(rest);
  }

  /** Trailing whitespace does not change `split()`. */
  lemma {:induction false} WordsAppendSpaces(t: string, sp: string)
    requires AllSpace(sp)
    ensures Words(t + sp) == Words(t)
    decreases |t|
  {
    if AllSpace(t) {
      assert AllSpace(t + sp);
      AllSpaceRun(t + sp);
      AllSpaceRun(t);
    } else {
      var lead, w, rest := FirstWord(t);
      assert t + sp == lead + w + (rest + sp);
      WordsAt(lead, w, rest + sp);
      WordsAt(lead, w, rest);
      WordsAppendSpaces(rest, sp);
    }
  }

  /** Trailing whitespace does not change `split()`. */
  lemma WordsRStrip(s: string)
    ensures Words(RStrip(s)) == Words(s)
  {
    var r := RStrip(s);
    var sp := s[|r|..];
    assert s == r + sp;
    WordsAppendSpaces(r, sp);
  }

  /** Stripping never changes the words of a string. */
  lemma WordsStrip(s: string)
    ensures Words(Strip(s)) == Words(s)
  {
    WordsRStrip(LStrip(s));
    WordsLStrip(s);
  }

  /** A word followed by a space contributes exactly itself to `split()`. */
  lemma WordsConsWord(w: string, rest: string)
    requires w != [] && NoSpace(w)
    ensures Words(w + " " + rest) == [w] + Words(rest)
  {
    var t := w + " " + rest;
    SpaceRunUnique(t, 0);
    assert t[0..] == t;
    WordRunUnique(t, |w|);
    assert t[0..|w|] == w;
    assert t[|w|..] == " " + rest;
    WordsOfSpacePrefix(" ", rest);
  }

  lemma WordsSingle(w: string)
    requires w != [] && NoSpace(w)
    ensures Words(w) == [w]
  {
    SpaceRunUnique(w, 0);
    assert w[0..] == w;
    WordRunUnique(w, |w|);
    assert w[0..|w|] == w;
    assert w[|w|..] == [];
  }

  /** Splitting a space-joined list of words with a glued suffix gives the
      words back, the suffix stuck to the last one. */
  lemma {:induction false} WordsJoinSuffix(ws: seq<string>, suffix: string)
    requires |ws| > 0
    requires forall i :: 0 <= i < |ws| ==> ws[i] != [] && NoSpace(ws[i])
    requires NoSpace(suffix)
    ensures Words(Join(ws, " ") + suffix) == ws[..|ws| - 1] + [ws[|ws| - 1] + suffix]
    decreases |ws|
  {
    if |ws| == 1 {
      assert Join(ws, " ") + suffix == ws[0] + suffix;
      assert NoSpace(ws[0] + suffix);
      WordsSingle(ws[0] + suffix);
    } else {
      var tail := ws[1..];
      var rest := Join(tail, " ") + suffix;
      assert Words(Join(ws, " ") + suffix) == [ws[0]] + Words(rest) by {
        assert Join(ws, " ") + suffix == ws[0] + " " + rest;
        WordsConsWord(ws[0], rest);
      }
      assert Words(rest) == tail[..|tail| - 1] + [ws[|ws| - 1] + suffix] by {
        WordsJoinSuffix(tail, suffix);
        assert tail[|tail| - 1] == ws[|ws| - 1];
      }
      ConsInit(ws);
    }
  }

  lemma ConsInit<T>(ws: seq<T>)
    requires |ws| >= 2
    ensures [ws[0]] + ws[1..][..|ws| - 2] == ws[..|ws| - 1]
  {
  }

  /** A run of non-whitespace characters survives `strip()` intact, at the
      same place after the leading whitespace. */
  lemma StripKeeps(s: string, p: nat, n: nat)
    requires 1 <= n && p + n <= |s|
    requires forall j :: p <= j < p + n ==> !IsSpace(s[j])
    ensures SpaceRun(s) <= p && p + n <= SpaceRun(s) + |Strip(s)|
    ensures Strip(s)[p - SpaceRun(s)..p - SpaceRun(s) + n] == s[p..p + n]
  {
    var k := SpaceRun(s);
    StripSlice(s);
    StripTail(s);
    assert !IsSpace(s[p]) && !IsSpace(s[p + n - 1]);
    KeptInside(s, Strip(s), k, k + |Strip(s)|, p, n);
  }

  /** Everything `strip` drops at the end is whitespace. */
  lemma StripTail(s: string)
    ensures SpaceRun(s) + |Strip(s)| <= |s|
    ensures forall j :: SpaceRun(s) + |Strip(s)| <= j < |s| ==> IsSpace(s[j])
  {
    var k := SpaceRun(s);
    var l := LStrip(s);
    assert l == s[k..];
    assert |Strip(s)| == |l| - TrailRun(l);
    forall j | k + |Strip(s)| <= j < |s| ensures IsSpace(s[j]) {
      assert s[j] == l[j - k];
    }
  }

  /** A run of non-whitespace inside `s` lies within any slice `t == s[k..e]`
      that drops only whitespace on both sides, at the shifted place. */
  lemma KeptInside(s: string, t: string, k: nat, e: nat, p: nat, n: nat)
    requires k <= e <= |s| && t == s[k..e]
    requires forall i :: 0 <= i < k ==> IsSpace(s[i])
    requires forall j :: e <= j < |s| ==> IsSpace(s[j])
    requires 1 <= n && p + n <= |s|
    requires !IsSpace(s[p]) && !IsSpace(s[p + n - 1])
    ensures k <= p && p + n <= e
    ensures t[p - k..p - k + n] == s[p..p + n]
  {
    var a := t[p - k..p - k + n];
    var b := s[p..p + n];
    assert forall i :: 0 <= i < n ==> a[i] == b[i];
  }

  /** `re.sub(r'\s+', ' ', s)`: every maximal whitespace run becomes one space. */
  function Collapse(s: string): (r: string)
    ensures |r| <= |s|
    ensures forall i :: 0 <= i < |r| && IsSpace(r[i]) ==> r[i] == ' '
    ensures forall i :: 0 <= i < |r| - 1 ==> !(IsSpace(r[i]) && IsSpace(r[i + 1]))
    ensures s != [] ==> r != [] && r[0] == (if IsSpace(s[0]) then ' ' else s[0])
    decreases |s|
  {
    if s == [] then []
    else if IsSpace(s[0]) then [' '] + Collapse(LStrip(s))
    else [s[0]] + Collapse(s[1..])
  }

  /** The shape `Collapse` leaves: whitespace only as single spaces. */
  predicate Collapsed(s: string) {
    (forall i :: 0 <= i < |s| && IsSpace(s[i]) ==> s[i] == ' ') &&
    (forall i :: 0 <= i < |s| - 1 ==> !(IsSpace(s[i]) && IsSpace(s[i + 1])))
  }

  lemma CollapsedSlice(s: string, a: nat, b: nat)
    requires Collapsed(s) && a <= b <= |s|
    ensures Collapsed(s[a..b])
  {
    var t := s[a..b];
    assert forall i :: 0 <= i < |t| ==> t[i] == s[a + i];
  }

  /** What `strip` keeps is the slice after the leading whitespace. */
  lemma StripSlice(s: string)
    ensures SpaceRun(s) + |Strip(s)| <= |s|
    ensures Strip(s) == s[SpaceRun(s)..SpaceRun(s) + |Strip(s)|]
  {
    var k := SpaceRun(s);
    var l := LStrip(s);
    assert l == s[k..];
    assert Strip(s) == l[..|l| - TrailRun(l)];
  }

  /** The stripped, collapsed text is collapsed, starts and ends without
      whitespace, and is empty only for a text of whitespace. */
  lemma CleanShape(t: string)
    ensures var s := Strip(Collapse(t));
      Collapsed(s) && (s == [] <==> AllSpace(t)) &&
      (s == [] || (!IsSpace(s[0]) && !IsSpace(s[|s| - 1])))
  {
    var c := Collapse(t);
    StripShape(c);
    CollapseAllSpace(t);
    StripCollapsed(c);
  }

  /** Stripping keeps a collapsed text collapsed. */
  lemma StripCollapsed(c: string)
    requires Collapsed(c)
    ensures Collapsed(Strip(c))
  {
    StripSlice(c);
    CollapsedSlice(c, SpaceRun(c), SpaceRun(c) + |Strip(c)|);
  }

  /** `lower()` leaves whitespace where it was. */
  lemma LowerSpaces(s: string)
    ensures forall i :: 0 <= i < |s| ==> (IsSpace(Lower(s)[i]) <==> IsSpace(s[i]))
  {
  }

  /** `split()` finds no word exactly in a blank string. */
  lemma WordsEmptyIff(s: string)
    ensures Words(s) == [] <==> AllSpace(s)
  {
    if AllSpace(s) {
      AllSpaceRun(s);
    } else {
      var sp, w, rest := FirstWord(s);
      WordsAt(sp, w, rest);
    }
  }

  /** `re.sub(r'\s+', ' ', text).strip()`: single spaces only, no whitespace
      at either end, and empty exactly for a blank text. */
  function CleanText(text: string): (c: string)
    ensures Collapsed(c)
    ensures c == [] <==> AllSpace(text)
    ensures c == [] || (!IsSpace(c[0]) && !IsSpace(c[|c| - 1]))
  {
    CleanShape(text);
    Strip(Collapse(text))
  }

  lemma AllSpaceConcat(a: string, b: string)
    ensures AllSpace(a + b) <==> AllSpace(a) && AllSpace(b)
  {
    if AllSpace(a) && AllSpace(b) {
      forall i | 0 <= i < |a + b|
        ensures IsSpace((a + b)[i])
      {
        if i >= |a| { assert (a + b)[i] == b[i - |a|]; }
      }
    }
    if AllSpace(a + b) {
      forall i | 0 <= i < |a|
        ensures IsSpace(a[i])
      {
        assert (a + b)[i] == a[i];
      }
      forall i | 0 <= i < |b|
        ensures IsSpace(b[i])
      {
        assert (a + b)[|a| + i] == b[i];
      }
    }
  }

  /** Collapsing whitespace leaves only whitespace exactly when there was
      only whitespace. */
  lemma {:induction false} CollapseAllSpace(s: string)
    ensures AllSpace(Collapse(s)) <==> AllSpace(s)
    decreases |s|
  {
    if s != [] {
      if IsSpace(s[0]) {
        var k := SpaceRun(s);
        CollapseAllSpace(LStrip(s));
        assert s == s[..k] + LStrip(s);
        AllSpaceConcat(s[..k], LStrip(s));
        AllSpaceConcat([' '], Collapse(LStrip(s)));
      } else {
        assert Collapse(s)[0] == s[0];
      }
    }
  }

  /** A string whose only whitespace is single spaces is left as it is. */
  lemma {:induction false} CollapseFixed(s: string)
    requires Collapsed(s)
    ensures Collapse(s) == s
    decreases |s|
  {
    if s != [] {
      CollapseFixed(s[1..]);
      if IsSpace(s[0]) {
        SpaceRunUnique(s, 1);
      }
    }
  }

  /** `s[i:i+len(needle)] == needle` */
  predicate IsAt(hay: string, needle: string, i: int) {
    0 <= i && i + |needle| <= |hay| && hay[i..i + |needle|] == needle
  }

  function FindFrom(hay: string, needle: string, k: nat): (r: int)
    ensures r == -1 || (k <= r && IsAt(hay, needle, r))
    ensures forall j :: k <= j && (r == -1 || j < r) ==> !IsAt(hay, needle, j)
    decreases |hay| + 1 - k
  {
    if k + |needle| > |hay| then -1
    else if hay[k..k + |needle|] == needle then k
    else FindFrom(hay, needle, k + 1)
  }

  /** `hay.find(needle)`: the lowest index of an occurrence, or -1. */
  function Find(hay: string, needle: string): (r: int)
    ensures r == -1 || IsAt(hay, needle, r)
    ensures forall j :: 0 <= j && (r == -1 || j < r) ==> !IsAt(hay, needle, j)
  {
    FindFrom(hay, needle, 0)
  }

  /** `needle in hay` */
  predicate Contains(hay: string, needle: string) {
    Find(hay, needle) >= 0
  }

  lemma ContainsWitness(hay: string, needle: string, i: int)
    requires IsAt(hay, needle, i)
    ensures Contains(hay, needle)
  {
  }

  lemma ContainsIsOccurrence(hay: string, needle: string)
    ensures Contains(hay, needle) <==> exists i :: IsAt(hay, needle, i)
  {
    if exists i :: IsAt(hay, needle, i) {
      var i :| IsAt(hay, needle, i);
      ContainsWitness(hay, needle, i);
    }
  }

  /** A string holds every piece it is glued from. */
  lemma ContainsMiddle(a: string, b: string, c: string)
    ensures Contains(a + b + c, b)
  {
    assert (a + b + c)[|a|..|a| + |b|] == b;
    ContainsWitness(a + b + c, b, |a|);
  }

  /** `s.startswith(p)` */
  predicate StartsWith(s: string, p: string) {
    |p| <= |s| && s[..|p|] == p
  }

  lemma StartsWithContains(s: string, p: string)
    requires StartsWith(s, p)
    ensures Contains(s, p)
  {
    ContainsWitness(s, p, 0);
  }

  /** `s.endswith(p)` */
  predicate EndsWith(s: string, p: string) {
    |p| <= |s| && s[|s| - |p|..] == p
  }

  function IndexOfChar(s: string, c: char): (i: nat)
    requires c in s
    ensures i < |s| && s[i] == c && c !in s[..i]
  {
    if s[0] == c then 0 else 1 + IndexOfChar(s[1..], c)
  }

  function LastIndexOfChar(s: string, c: char): (i: nat)
    requires c in s
    ensures i < |s| && s[i] == c && c !in s[i + 1..]
  {
    if s[|s| - 1] == c then |s| - 1 else LastIndexOfChar(s[..|s| - 1], c)
  }

  /** `s.split(sep)` for a one-character separator. */
  function SplitOn(s: string, sep: char): (parts: seq<string>)
    ensures |parts| >= 1
    ensures forall i :: 0 <= i < |parts| ==> sep !in parts[i]
    decreases |s|
  {
    if sep !in s then [s]
    else
      var i := IndexOfChar(s, sep);
      [s[..i]] + SplitOn(s[i + 1..], sep)
  }

  /** `split` and `join` on the same one-character separator are inverse. */
  lemma {:induction false} SplitOnJoin(s: string, sep: char)
    ensures Join(SplitOn(s, sep), [sep]) == s
    decreases |s|
  {
    if sep in s {
      var i := IndexOfChar(s, sep);
      var rest := SplitOn(s[i + 1..], sep);
      SplitOnJoin(s[i + 1..], sep);
      assert SplitOn(s, sep) == [s[..i]] + rest;
      assert s == s[..i] + [sep] + s[i + 1..];
      if |rest| == 1 {
        assert Join(SplitOn(s, sep), [sep]) == s[..i] + [sep] + rest[0];
      } else {
        assert ([s[..i]] + rest)[1..] == rest;
      }
    }
  }

  /** `s` with every character of `cs` removed (chained `str.replace(c, "")`). */
  function RemoveChars(s: string, cs: set<char>): (r: string)
    ensures |r| <= |s|
    ensures forall i :: 0 <= i < |r| ==> r[i] !in cs
    ensures forall i :: 0 <= i < |r| ==> r[i] in s
  {
    if s == [] then []
    else if s[0] in cs then RemoveChars(s[1..], cs)
    else [s[0]] + RemoveChars(s[1..], cs)
  }

  function Min(a: int, b: int): int {
    if a <= b then a else b
  }

  function Max(a: int, b: int): int {
    if a >= b then a else b
  }

  /** Python slice `s[:n]`, including the negative-`n` case that counts from the end. */
  function PyPrefix<T>(s: seq<T>, n: int): (r: seq<T>)
    ensures |r| <= |s| && r == s[..|r|]
    ensures n >= 0 ==> |r| == Min(n, |s|)
    ensures n < 0 ==> |r| == Max(0, |s| + n)
  {
    if n >= 0 then (if n <= |s| then s[..n] else s)
    else if |s| + n >= 0 then s[..|s| + n]
    else []
  }

  function DigitChar(d: int): char
    requires 0 <= d < 10
  {
    ('0' as int + d) as char
  }

  /** `str(n)` for a natural number. */
  function NatToString(n: nat): (r: string)
    ensures |r| >= 1
    ensures forall i :: 0 <= i < |r| ==> IsDigit(r[i])
    ensures n < 10 <==> |r| == 1
  {
    if n < 10 then [DigitChar(n)] else NatToString(n / 10) + [DigitChar(n % 10)]
  }

  /** `str(n)` for any integer. */
  function IntToString(n: int): string {
    if n < 0 then "-" + NatToString(-n) else NatToString(n)
  }

  /** Distinct numbers print differently: `str` is injective on naturals. */
  lemma {:induction false} NatToStringInjective(a: nat, b: nat)
    requires NatToString(a) == NatToString(b)
    ensures a == b
  {
    if a >= 10 && b >= 10 {
      var sa := NatToString(a);
      assert sa[|sa| - 1] == DigitChar(a % 10);
      assert sa[..|sa| - 1] == NatToString(a / 10);
      var sb := NatToString(b);
      assert sb[..|sb| - 1] == NatToString(b / 10);
      NatToStringInjective(a / 10, b / 10);
    }
  }
}
