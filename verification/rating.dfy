/**
 * The player rating of quizzer/src/engines/rating_generator.py (the file in
 * quizzer-v2/src/engines/ is the same code): a weighted score of accuracy,
 * stars and quizzes with caps, five tiers by score, and a two-sentence
 * description that comes from the oracle when it answers and from a fixed
 * template otherwise. The oracle's reply is a parameter.
 */
module Rating {
  import opened Text
  import opened Opt

  /** The statistics the rating reads; a missing key is `None` and counts
      as 0. */
  datatype Stats = Stats(accuracy: Option<real>, totalStars: Option<int>, totalQuizzes: Option<int>)

  /** One tier record: name, title, emoji and level. */
  datatype Tier = Tier(name: string, title: string, emoji: string, level: int)

  /** A tier whose title is its emoji, a space and its name, as every tier
      of the table is written. */
  function MkTier(name: string, emoji: string, level: int): (t: Tier)
    ensures t.name == name && t.emoji == emoji && t.level == level
    ensures t.title == emoji + " " + name
  {
    Tier(name, emoji + " " + name, emoji, level)
  }

  /** The five tiers, by level from 1 to 5. */
  const Tiers: seq<Tier> := [
    MkTier("Beginner", "🎓", 1),
    MkTier("Emerging Scholar", "🌱", 2),
    MkTier("Proficient Student", "📚", 3),
    MkTier("Expert Learner", "⭐", 4),
    MkTier("Master Scholar", "🏆", 5)
  ]

  /** The tier table: levels 1 to 5 in order, five different names, and
      every title the tier's emoji, a space and its name. */
  lemma TiersTable()
    ensures |Tiers| == 5
    ensures forall i :: 0 <= i < |Tiers| ==>
      Tiers[i].level == i + 1 && Tiers[i].title == Tiers[i].emoji + " " + Tiers[i].name
    ensures forall i, j :: 0 <= i < j < |Tiers| ==> Tiers[i].name != Tiers[j].name
  {
    forall i, j | 0 <= i < j < |Tiers| ensures Tiers[i].name != Tiers[j].name {
      assert Tiers[i].name[0] != Tiers[j].name[0] || Tiers[i].name[1] != Tiers[j].name[1];
    }
  }

  /** The overall score: half the accuracy, plus 0.3 per star up to 100
      stars, plus 0.2 per quiz up to 50 quizzes. With an accuracy in
      [0, 100] and no negative counts it lies in [0, 90]. */
  function Score(accuracy: real, stars: int, quizzes: int): (s: real)
    ensures 0.0 <= accuracy <= 100.0 && stars >= 0 && quizzes >= 0 ==> 0.0 <= s <= 90.0
  {
    accuracy * 0.5 + Min(stars, 100) as real * 0.3 + Min(quizzes, 50) as real * 0.2
  }

  /** The score of the statistics, missing ones counted as 0. */
  function StatsScore(stats: Stats): real {
    Score(stats.accuracy.GetOr(0.0), stats.totalStars.GetOr(0), stats.totalQuizzes.GetOr(0))
  }

  /** The tier of a score: the highest level whose threshold (80, 60, 40,
      20) the score reaches, and level 1 below 20. */
  function TierFor(score: real): (t: Tier)
    ensures 1 <= t.level <= 5 && t == Tiers[t.level - 1]
    ensures t.level >= 5 <==> score >= 80.0
    ensures t.level >= 4 <==> score >= 60.0
    ensures t.level >= 3 <==> score >= 40.0
    ensures t.level >= 2 <==> score >= 20.0
  {
    if score >= 80.0 then Tiers[4]
    else if score >= 60.0 then Tiers[3]
    else if score >= 40.0 then Tiers[2]
    else if score >= 20.0 then Tiers[1]
    else Tiers[0]
  }

  /** `_calculate_tier` */
  function CalculateTier(stats: Stats): (t: Tier)
    ensures t in Tiers
    ensures t == TierFor(StatsScore(stats))
  {
    TierFor(StatsScore(stats))
  }

  /** A higher score never gives a lower tier. */
  lemma TierMonotone(s1: real, s2: real)
    requires s1 <= s2
    ensures TierFor(s1).level <= TierFor(s2).level
  {
  }

  /** The score grows with each statistic. */
  lemma {:induction false} ScoreMonotone(a1: real, a2: real, st1: int, st2: int, q1: int, q2: int)
    requires a1 <= a2 && st1 <= st2 && q1 <= q2
    ensures Score(a1, st1, q1) <= Score(a2, st2, q2)
  {
    assert Min(st1, 100) <= Min(st2, 100);
    assert Min(q1, 50) <= Min(q2, 50);
  }

  /** Better statistics never give a lower tier. */
  lemma StatsMonotone(a1: real, a2: real, st1: int, st2: int, q1: int, q2: int)
    requires a1 <= a2 && st1 <= st2 && q1 <= q2
    ensures CalculateTier(Stats(Some(a1), Some(st1), Some(q1))).level <=
            CalculateTier(Stats(Some(a2), Some(st2), Some(q2))).level
  {
    ScoreMonotone(a1, a2, st1, st2, q1, q2);
    TierMonotone(Score(a1, st1, q1), Score(a2, st2, q2));
  }

  /** Stars beyond 100 and quizzes beyond 50 change nothing. */
  lemma CapsIgnored(a: real, st: int, q: int)
    ensures CalculateTier(Stats(Some(a), Some(st), Some(q))) ==
            CalculateTier(Stats(Some(a), Some(Min(st, 100)), Some(Min(q, 50))))
  {
  }

  /** Missing statistics count as 0. */
  lemma MissingCountsAsZero(stats: Stats)
    ensures CalculateTier(stats) ==
            CalculateTier(Stats(Some(stats.accuracy.GetOr(0.0)), Some(stats.totalStars.GetOr(0)),
                                Some(stats.totalQuizzes.GetOr(0))))
  {
  }

  /** Stars and quizzes contribute at most 40 points, so the top tier needs
      an accuracy of at least 80. */
  lemma MasterNeedsAccuracy(stats: Stats)
    requires CalculateTier(stats).level == 5
    ensures stats.accuracy.GetOr(0.0) >= 80.0
  {
  }

  // ---------------------------------------------------------------------------
  // Description
  // ---------------------------------------------------------------------------

  /** The number of occurrences of `c` in `s`. */
  function CountChar(s: string, c: char): (n: nat)
    ensures n <= |s|
    ensures c !in s ==> n == 0
  {
    if s == [] then 0 else (if s[0] == c then 1 else 0) + CountChar(s[1..], c)
  }

  lemma {:induction false} CountAppend(a: string, b: string, c: char)
    ensures CountChar(a + b, c) == CountChar(a, c) + CountChar(b, c)
    decreases |a|
  {
    if a != [] {
      assert (a + b)[0] == a[0];
      assert (a + b)[1..] == a[1..] + b;
      CountAppend(a[1..], b, c);
    } else {
      assert a + b == b;
    }
  }

  /** Joining dot-free pieces with ". " puts one dot between each two. */
  lemma {:induction false} CountJoin(ws: seq<string>)
    ensures |ws| >= 1 && (forall i :: 0 <= i < |ws| ==> '.' !in ws[i]) ==>
      CountChar(Join(ws, ". "), '.') == |ws| - 1
    decreases |ws|
  {
    if |ws| > 1 && (forall i :: 0 <= i < |ws| ==> '.' !in ws[i]) {
      assert forall i :: 0 <= i < |ws[1..]| ==> '.' !in ws[1..][i] by {
        forall i | 0 <= i < |ws[1..]| ensures '.' !in ws[1..][i] {
          assert ws[1..][i] == ws[i + 1];
        }
      }
      CountJoin(ws[1..]);
      CountAppend(ws[0], ". ", '.');
      CountAppend(ws[0] + ". ", Join(ws[1..], ". "), '.');
      assert CountChar(". ", '.') == 1;
    }
  }

  /** `strip` only removes characters. */
  lemma StripKeepsOut(s: string, c: char)
    ensures c !in s ==> c !in Strip(s)
  {
    var l := LStrip(s);
    assert forall x :: x in l ==> x in s;
    var r := RStrip(l);
    assert forall x :: x in r ==> x in l;
  }

  /** `[s.strip() for s in pieces if s.strip()]` */
  function Kept(pieces: seq<string>): (ks: seq<string>)
    ensures |ks| <= |pieces|
    ensures forall i :: 0 <= i < |ks| ==> ks[i] != []
    ensures (forall i :: 0 <= i < |pieces| ==> '.' !in pieces[i]) ==>
      forall i :: 0 <= i < |ks| ==> '.' !in ks[i]
  {
    if pieces == [] then []
    else
      var rest := Kept(pieces[1..]);
      StripKeepsOut(pieces[0], '.');
      if Strip(pieces[0]) != [] then [Strip(pieces[0])] + rest else rest
  }

  /** The clean-up after stripping: keep the text up to the second dot,
      join its non-blank pieces, stripped, with ". " and end with a dot. The
      result ends with '.' and holds one or two dots. */
  function Summarise(text: string): (d: string)
    ensures EndsWith(d, ".")
    ensures 1 <= CountChar(d, '.') <= 2
  {
    var kept := Kept(PyPrefix(SplitOn(text, '.'), 2));
    CountAppend(Join(kept, ". "), ".", '.');
    assert CountChar(".", '.') == 1;
    CountJoin(kept);
    Join(kept, ". ") + "."
  }

  /** The clean-up of a non-empty oracle reply. */
  function CleanDescription(reply: string): (d: string)
    ensures EndsWith(d, ".")
    ensures 1 <= CountChar(d, '.') <= 2
  {
    Summarise(Strip(reply))
  }

  /** Only the first two pieces count: whatever follows the second dot is
      dropped, and two non-blank pieces become two sentences. */
  lemma TailDropped(a: string, b: string, tail: string)
    requires '.' !in a && '.' !in b
    ensures Summarise(a + "." + b + "." + tail) == Join(Kept([a, b]), ". ") + "."
    ensures Strip(a) != [] && Strip(b) != [] ==>
      Summarise(a + "." + b + "." + tail) == Strip(a) + ". " + Strip(b) + "."
  {
    TwoPieces(a + "." + b + "." + tail, a, b, tail);
    assert [a, b][1..] == [b] && [b][1..] == [];
  }

  lemma TwoPieces(s: string, a: string, b: string, tail: string)
    requires '.' !in a && '.' !in b && s == a + "." + b + "." + tail
    ensures PyPrefix(SplitOn(s, '.'), 2) == [a, b]
  {
    assert s[|a|] == '.';
    assert forall k :: 0 <= k < |a| ==> s[k] == a[k];
    var i := IndexOfChar(s, '.');
    assert i == |a|;
    assert s[..i] == a;
    var t := s[i + 1..];
    assert t == b + "." + tail;
    assert t[|b|] == '.';
    var j := IndexOfChar(t, '.');
    assert j == |b|;
    assert t[..j] == b;
  }

  /** A reply of only blanks and dots still yields a lone dot. */
  lemma BlankReplyGivesDot(reply: string)
    requires AllSpace(reply)
    ensures CleanDescription(reply) == "."
  {
    StripShape(reply);
    assert SplitOn(Strip(reply), '.') == [""];
    assert Strip("") == "";
  }

  /** The phrase of `_fallback_description`, by accuracy thresholds 80, 60
      and 40. */
  function Performance(accuracy: real): (p: string)
    ensures accuracy >= 80.0 ==> p == "exceptional accuracy"
    ensures 60.0 <= accuracy < 80.0 ==> p == "strong performance"
    ensures 40.0 <= accuracy < 60.0 ==> p == "solid progress"
    ensures accuracy < 40.0 ==> p == "steady improvement"
  {
    if accuracy >= 80.0 then "exceptional accuracy"
    else if accuracy >= 60.0 then "strong performance"
    else if accuracy >= 40.0 then "solid progress"
    else "steady improvement"
  }

  /** `_fallback_description`: the quiz count and the accuracy phrase in a
      fixed sentence. */
  function FallbackDescription(stats: Stats): (d: string)
    ensures d == "You've completed " + IntToString(stats.totalQuizzes.GetOr(0)) + " quizzes with " +
                 Performance(stats.accuracy.GetOr(0.0)) + ". Keep up the great work and continue earning stars!"
  {
    "You've completed " + IntToString(stats.totalQuizzes.GetOr(0)) + " quizzes with " +
    Performance(stats.accuracy.GetOr(0.0)) + ". Keep up the great work and continue earning stars!"
  }

  /** The fallback opens with "You've completed ", states the quiz count
      (0 when missing) and the phrase for the accuracy (0 when missing), and
      closes with the encouragement to keep earning stars. */
  lemma FallbackMentions(stats: Stats)
    ensures var d := FallbackDescription(stats);
      StartsWith(d, "You've completed ") &&
      Contains(d, IntToString(stats.totalQuizzes.GetOr(0))) &&
      Contains(d, Performance(stats.accuracy.GetOr(0.0))) &&
      EndsWith(d, ". Keep up the great work and continue earning stars!")
  {
    FiveParts("You've completed ", IntToString(stats.totalQuizzes.GetOr(0)), " quizzes with ",
              Performance(stats.accuracy.GetOr(0.0)), ". Keep up the great work and continue earning stars!");
  }

  lemma FiveParts(a: string, b: string, c: string, d: string, e: string)
    ensures StartsWith(a + b + c + d + e, a) && EndsWith(a + b + c + d + e, e)
    ensures Contains(a + b + c + d + e, b) && Contains(a + b + c + d + e, d)
  {
    var s := a + b + c + d + e;
    assert s[..|a|] == a;
    assert s[|s| - |e|..] == e;
    assert s == a + b + (c + d + e);
    ContainsMiddle(a, b, c + d + e);
    assert s == (a + b + c) + d + e;
    ContainsMiddle(a + b + c, d, e);
  }

  /** What `generate_rating` returns, without the formatted summary. */
  datatype Rated = Rated(tier: string, title: string, emoji: string, description: string)

  /** `generate_rating` once the oracle has answered `reply` (`None` for no
      answer or an exception): the tier fields come from one tier record;
      a non-empty reply is cleaned up, anything else takes the fallback. */
  function GenerateRating(stats: Stats, reply: Option<string>): (r: Rated)
    ensures var t := CalculateTier(stats);
      t in Tiers && r.tier == t.name && r.title == t.title && r.emoji == t.emoji
    ensures reply.Some? && reply.value != "" ==>
      r.description == CleanDescription(reply.value) && EndsWith(r.description, ".")
    ensures reply.None? || reply.value == "" ==> r.description == FallbackDescription(stats)
  {
    var t := CalculateTier(stats);
    var description := if reply.Some? && reply.value != "" then CleanDescription(reply.value)
                       else FallbackDescription(stats);
    Rated(t.name, t.title, t.emoji, description)
  }
}
