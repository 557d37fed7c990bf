/** The test runner's wildcard matching, which backtracks only to the last star. */
module Wildcard {

  /** The characters of a C string; the terminating NUL is the end of the sequence. */
  type cstring = s: string | '\0' !in s witness ""

  const NUL := '\0'

  function ToLower(c: char): char {
    if 'A' <= c <= 'Z' then (c as int + 32) as char else c
  }

  predicate SameChar(caseSensitive: bool, a: char, b: char) {
    if caseSensitive then a == b else ToLower(a) == ToLower(b)
  }

  /** A pattern character other than a star accepts a character of the text. */
  predicate Accepts(caseSensitive: bool, w: char, c: char) {
    w == '?' || SameChar(caseSensitive, w, c)
  }

  /** What matching means: a star stands for any characters, a question mark for one. */
  predicate Matches(caseSensitive: bool, s: string, p: string)
    decreases |p|, |s|
  {
    if p == "" then s == ""
    else if p[0] == '*' then
      Matches(caseSensitive, s, p[1..]) || (s != "" && Matches(caseSensitive, s[1..], p))
    else
      s != "" && Accepts(caseSensitive, p[0], s[0]) && Matches(caseSensitive, s[1..], p[1..])
  }

  /** `*p`: the character at `i`, or the NUL at the end. */
  function At(s: string, i: nat): char
    requires i <= |s|
  {
    if i < |s| then s[i] else NUL
  }

  // ----- What matching means, piece by piece -----

  /** Equal, or an ASCII letter and its other case: the two are 32 apart. */
  predicate EqualButForCase(a: char, b: char) {
    || a == b
    || ('A' <= a <= 'Z' && b as int == a as int + 32)
    || ('A' <= b <= 'Z' && a as int == b as int + 32)
  }

  predicate EqualTexts(s: string, p: string) {
    |s| == |p| && forall i :: 0 <= i < |p| ==> EqualButForCase(s[i], p[i])
  }

  predicate HasNoWildcard(p: string) { '*' !in p && '?' !in p }

  lemma {:induction false} PlainPatternIsEquality(s: string, p: string)
    requires HasNoWildcard(p)
    ensures Matches(true, s, p) <==> s == p
  {
    if p != "" && s != "" {
      PlainPatternIsEquality(s[1..], p[1..]);
      assert s == [s[0]] + s[1..] && p == [p[0]] + p[1..];
    }
  }

  lemma {:induction false} PlainPatternIgnoresCase(s: string, p: string)
    requires HasNoWildcard(p)
    ensures Matches(false, s, p) <==> EqualTexts(s, p)
  {
    if p != "" && s != "" {
      PlainPatternIgnoresCase(s[1..], p[1..]);
      if |s| == |p| {
        assert (forall i :: 0 <= i < |p| ==> EqualButForCase(s[i], p[i])) <==>
          EqualButForCase(s[0], p[0])
          && forall i :: 0 <= i < |p[1..]| ==> EqualButForCase(s[1..][i], p[1..][i]) by {
          assert forall i :: 0 < i < |p| ==> s[i] == s[1..][i - 1] && p[i] == p[1..][i - 1];
          assert forall i :: 0 <= i < |p[1..]| ==> s[1..][i] == s[i + 1] && p[1..][i] == p[i + 1];
        }
      }
    }
  }

  /** Ignoring case only ever adds matches. */
  lemma {:induction false} SensitiveMatchesIgnoreCase(s: string, p: string)
    requires Matches(true, s, p)
    ensures Matches(false, s, p)
    decreases |p|, |s|
  {
    if p != "" {
      if p[0] != '*' {
        SensitiveMatchesIgnoreCase(s[1..], p[1..]);
      } else if Matches(true, s, p[1..]) {
        SensitiveMatchesIgnoreCase(s, p[1..]);
      } else {
        SensitiveMatchesIgnoreCase(s[1..], p);
      }
    }
  }

  lemma {:induction false} StarMatchesAll(cs: bool, s: string)
    ensures Matches(cs, s, "*")
  {
    assert "*"[1..] == "";
    if s != "" {
      StarMatchesAll(cs, s[1..]);
    }
  }

  lemma QuestionMarkMatchesOne(cs: bool, s: string)
    ensures Matches(cs, s, "?") <==> |s| == 1
  {
    assert "?"[1..] == "";
  }

  predicate SplitsAt(cs: bool, s: string, i: nat, p: string, q: string) {
    i <= |s| && Matches(cs, s[..i], p) && Matches(cs, s[i..], q)
  }

  lemma {:induction false} SplitMatches(cs: bool, s: string, i: nat, p: string, q: string)
    requires SplitsAt(cs, s, i, p, q)
    ensures Matches(cs, s, p + q)
    decreases |p|, |s|
  {
    if p == "" {
      assert s[i..] == s && p + q == q;
    } else {
      assert (p + q)[1..] == p[1..] + q;
      if p[0] == '*' && Matches(cs, s[..i], p[1..]) {
        SplitMatches(cs, s, i, p[1..], q);
      } else {
        assert s[..i][1..] == s[1..][..i - 1] && s[i..] == s[1..][i - 1..];
        SplitMatches(cs, s[1..], i - 1, if p[0] == '*' then p else p[1..], q);
      }
    }
  }

  lemma {:induction false} MatchSplits(cs: bool, s: string, p: string, q: string) returns (i: nat)
    requires Matches(cs, s, p + q)
    ensures SplitsAt(cs, s, i, p, q)
    decreases |p|, |s|
  {
    if p == "" {
      i := 0;
      assert s[0..] == s && p + q == q;
    } else {
      assert (p + q)[1..] == p[1..] + q;
      if p[0] == '*' && Matches(cs, s, p[1..] + q) {
        i := MatchSplits(cs, s, p[1..], q);
      } else {
        var k := MatchSplits(cs, s[1..], if p[0] == '*' then p else p[1..], q);
        i := k + 1;
        assert s[..i][1..] == s[1..][..k] && s[i..] == s[1..][k..];
      }
    }
  }

  /** A pattern in two parts matches exactly the texts in two parts that match them. */
  lemma MatchesInParts(cs: bool, s: string, p: string, q: string)
    ensures Matches(cs, s, p + q) <==> exists i :: SplitsAt(cs, s, i, p, q)
  {
    if Matches(cs, s, p + q) {
      var i := MatchSplits(cs, s, p, q);
    }
    forall i | SplitsAt(cs, s, i, p, q)
      ensures Matches(cs, s, p + q)
    {
      SplitMatches(cs, s, i, p, q);
    }
  }

  /** The rest of the text matches the rest of the pattern. */
  predicate MatchesFrom(caseSensitive: bool, s: string, i: nat, p: string, j: nat)
    requires i <= |s| && j <= |p|
  {
    Matches(caseSensitive, s[i..], p[j..])
  }

  lemma MatchStep(cs: bool, s: string, i: nat, p: string, j: nat)
    requires i <= |s| && j < |p|
    ensures MatchesFrom(cs, s, i, p, j) <==>
            if p[j] == '*'
            then MatchesFrom(cs, s, i, p, j + 1) || (i < |s| && MatchesFrom(cs, s, i + 1, p, j))
            else i < |s| && Accepts(cs, p[j], s[i]) && MatchesFrom(cs, s, i + 1, p, j + 1)
  {
    assert p[j..][1..] == p[j + 1..];
    if i < |s| {
      assert s[i..][1..] == s[i + 1..];
    }
  }

  /** `p[j..w]` has no star and accepts the text from `i` character by character. */
  predicate Segment(cs: bool, s: string, i: nat, p: string, j: nat, w: nat)
    requires j <= w <= |p| && i + (w - j) <= |s|
  {
    forall k :: j <= k < w ==> p[k] != '*' && Accepts(cs, p[k], s[i + (k - j)])
  }

  /** With a segment accepted, matching comes down to what follows it. */
  lemma {:induction false} SkipSegment(cs: bool, s: string, i: nat, p: string, j: nat, w: nat)
    requires j <= w <= |p| && i + (w - j) <= |s| && Segment(cs, s, i, p, j, w)
    ensures MatchesFrom(cs, s, i, p, j) <==> MatchesFrom(cs, s, i + (w - j), p, w)
    decreases w - j
  {
    if j < w {
      MatchStep(cs, s, i, p, j);
      assert p[j] != '*' && Accepts(cs, p[j], s[i + (j - j)]);
      SkipSegment(cs, s, i + 1, p, j + 1, w);
    }
  }

  predicate StarFree(p: string, j: nat, w: nat)
    requires j <= w <= |p|
  {
    forall k :: j <= k < w ==> p[k] != '*'
  }

  /** A pattern that starts with `w - j` characters and no star needs that much text, and then matches after it. */
  lemma {:induction false} StarFreeConsumes(cs: bool, s: string, i: nat, p: string, j: nat, w: nat)
    requires i <= |s| && j <= w <= |p| && StarFree(p, j, w) && MatchesFrom(cs, s, i, p, j)
    ensures i + (w - j) <= |s|
    ensures MatchesFrom(cs, s, i + (w - j), p, w)
    decreases w - j
  {
    if j < w {
      MatchStep(cs, s, i, p, j);
      StarFreeConsumes(cs, s, i + 1, p, j + 1, w);
    }
  }

  /** A star that matches later text matches earlier text too. */
  lemma {:induction false} StarReachesBack(cs: bool, s: string, i: nat, later: nat, p: string, j: nat)
    requires i <= later <= |s| && j < |p| && p[j] == '*' && MatchesFrom(cs, s, later, p, j)
    ensures MatchesFrom(cs, s, i, p, j)
    decreases later - i
  {
    if i < later {
      StarReachesBack(cs, s, i + 1, later, p, j);
      MatchStep(cs, s, i, p, j);
    }
  }

  /** A star matches if some later start does without it. */
  lemma {:induction false} StarStart(cs: bool, s: string, i: nat, p: string, j: nat) returns (start: nat)
    requires i <= |s| && j < |p| && p[j] == '*' && MatchesFrom(cs, s, i, p, j)
    ensures i <= start <= |s| && MatchesFrom(cs, s, start, p, j + 1)
    decreases |s| - i
  {
    MatchStep(cs, s, i, p, j);
    if MatchesFrom(cs, s, i, p, j + 1) {
      start := i;
    } else {
      start := StarStart(cs, s, i + 1, p, j);
    }
  }

  /**
    The exchange argument. Once the segment after a star has been accepted at
    `i` and another star follows, nothing is lost by never moving the first
    star again.
   */
  lemma CommitToSegment(cs: bool, s: string, i: nat, p: string, star: nat, w: nat)
    requires star < |p| && p[star] == '*' && star + 1 <= w < |p| && p[w] == '*'
    requires i + (w - (star + 1)) <= |s| && Segment(cs, s, i, p, star + 1, w)
    ensures MatchesFrom(cs, s, i, p, star) <==> MatchesFrom(cs, s, i + (w - (star + 1)), p, w)
  {
    SkipSegment(cs, s, i, p, star + 1, w);
    MatchStep(cs, s, i, p, star);
    if MatchesFrom(cs, s, i, p, star) {
      var start := StarStart(cs, s, i, p, star);
      StarFreeConsumes(cs, s, start, p, star + 1, w);
      StarReachesBack(cs, s, i + (w - (star + 1)), start + (w - (star + 1)), p, w);
    }
  }

  /** The attempt at `i` failed, so the star has to stand for one character more. */
  lemma GiveUpAttempt(cs: bool, s: string, i: nat, p: string, star: nat, w: nat)
    requires star < |p| && p[star] == '*' && star + 1 <= w <= |p|
    requires i + (w - (star + 1)) < |s| && Segment(cs, s, i, p, star + 1, w)
    requires w == |p| || (p[w] != '*' && !Accepts(cs, p[w], s[i + (w - (star + 1))]))
    ensures MatchesFrom(cs, s, i, p, star) <==> MatchesFrom(cs, s, i + 1, p, star)
  {
    var j := i + (w - (star + 1));
    SkipSegment(cs, s, i, p, star + 1, w);
    if w < |p| {
      MatchStep(cs, s, j, p, w);
    } else {
      assert p[w..] == "" && s[j..] != "";
    }
    MatchStep(cs, s, i, p, star);
  }

  /** The text is used up in the middle of an attempt: only that attempt is left. */
  lemma OnlyThisAttempt(cs: bool, s: string, i: nat, p: string, star: nat, w: nat)
    requires star < |p| && p[star] == '*' && star + 1 <= w <= |p|
    requires i + (w - (star + 1)) == |s| && Segment(cs, s, i, p, star + 1, w)
    ensures MatchesFrom(cs, s, i, p, star) <==> MatchesFrom(cs, s, |s|, p, w)
  {
    SkipSegment(cs, s, i, p, star + 1, w);
    MatchStep(cs, s, i, p, star);
    if MatchesFrom(cs, s, i, p, star) {
      var start := StarStart(cs, s, i, p, star);
      StarFreeConsumes(cs, s, start, p, star + 1, w);
    }
  }

  lemma TrailingStar(cs: bool, s: string, i: nat, p: string)
    requires i <= |s| && p != "" && p[|p| - 1] == '*'
    ensures MatchesFrom(cs, s, i, p, |p| - 1)
    decreases |s| - i
  {
    MatchStep(cs, s, i, p, |p| - 1);
    if i < |s| {
      TrailingStar(cs, s, i + 1, p);
    } else {
      assert s[i..] == "" && p[|p| - 1 + 1..] == "";
    }
  }

  /** The first loop: up to the first star, text and pattern go together. */
  method MatchUpToStar(text: cstring, pattern: cstring, cs: bool) returns (pos: nat, mismatch: bool)
    ensures mismatch ==> !Matches(cs, text, pattern)
    ensures !mismatch ==>
      && pos <= |text| && pos <= |pattern|
      && (pos < |text| ==> At(pattern, pos) == '*')
      && MatchesFrom(cs, text, pos, pattern, pos) == Matches(cs, text, pattern)
  {
    var str: nat, wild: nat := 0, 0;
    assert text[0..] == text && pattern[0..] == pattern;
    while At(text, str) != NUL && At(pattern, wild) != '*'
      invariant str == wild && str <= |text| && wild <= |pattern|
      invariant MatchesFrom(cs, text, str, pattern, wild) == Matches(cs, text, pattern)
      decreases |text| - str
    {
      if wild < |pattern| {
        MatchStep(cs, text, str, pattern, wild);
      }
      if !SameChar(cs, At(pattern, wild), At(text, str)) && At(pattern, wild) != '?' {
        return 0, true;
      }
      wild, str := wild + 1, str + 1;
    }
    return str, false;
  }

  /** The last loop: with the text used up, only stars may be left. */
  method OnlyStarsLeft(text: cstring, pattern: cstring, cs: bool, from: nat) returns (r: bool)
    requires from <= |pattern|
    ensures r == MatchesFrom(cs, text, |text|, pattern, from)
  {
    var wild := from;
    while At(pattern, wild) == '*'
      invariant wild <= |pattern|
      invariant MatchesFrom(cs, text, |text|, pattern, wild) == MatchesFrom(cs, text, |text|, pattern, from)
      decreases |pattern| - wild
    {
      MatchStep(cs, text, |text|, pattern, wild);
      wild := wild + 1;
    }
    if wild < |pattern| {
      MatchStep(cs, text, |text|, pattern, wild);
    }
    return At(pattern, wild) == NUL;
  }

  /**
    Where the main loop is: the attempt for the star before `mp` starts at
    `cp - 1` and has been accepted up to `str` and `wild`, and only the positions
    of that one star from `cp - 1` on are still open.
   */
  predicate Attempting(cs: bool, s: string, p: string, cp: nat, mp: nat, str: nat, wild: nat) {
    && 1 <= mp <= wild <= |p| && mp < |p| && p[mp - 1] == '*'
    && 1 <= cp && str <= |s| && cp - 1 + (wild - mp) == str
    && Segment(cs, s, cp - 1, p, mp, wild)
    && MatchesFrom(cs, s, cp - 1, p, mp - 1) == Matches(cs, s, p)
  }

  /** Before the first star is taken, everything up to it has been accepted. */
  predicate AtFirstStar(cs: bool, s: string, p: string, str: nat, wild: nat) {
    && str <= |s| && wild <= |p|
    && (str < |s| ==> At(p, wild) == '*')
    && MatchesFrom(cs, s, str, p, wild) == Matches(cs, s, p)
  }

  predicate Underway(cs: bool, s: string, p: string, cp: nat, mp: nat, str: nat, wild: nat) {
    if mp == 0 then AtFirstStar(cs, s, p, str, wild) else Attempting(cs, s, p, cp, mp, str, wild)
  }

  /** At a star nothing is open but what the star itself can still do. */
  lemma StarDecides(cs: bool, s: string, p: string, cp: nat, mp: nat, str: nat, wild: nat)
    requires Underway(cs, s, p, cp, mp, str, wild) && wild < |p| && p[wild] == '*'
    ensures MatchesFrom(cs, s, str, p, wild) == Matches(cs, s, p)
  {
    if mp > 0 {
      CommitToSegment(cs, s, cp - 1, p, mp - 1, wild);
    }
  }

  lemma TakeStar(cs: bool, s: string, p: string, cp: nat, mp: nat, str: nat, wild: nat)
    requires Underway(cs, s, p, cp, mp, str, wild)
    requires wild + 1 < |p| && p[wild] == '*'
    ensures Underway(cs, s, p, str + 1, wild + 1, str, wild + 1)
  {
    StarDecides(cs, s, p, cp, mp, str, wild);
  }

  lemma GoOn(cs: bool, s: string, p: string, cp: nat, mp: nat, str: nat, wild: nat)
    requires Underway(cs, s, p, cp, mp, str, wild) && str < |s| && wild < |p|
    requires p[wild] != '*' && Accepts(cs, p[wild], s[str])
    ensures Underway(cs, s, p, cp, mp, str + 1, wild + 1)
  {
  }

  lemma GoBack(cs: bool, s: string, p: string, cp: nat, mp: nat, str: nat, wild: nat)
    requires Underway(cs, s, p, cp, mp, str, wild) && str < |s|
    requires wild == |p| || (wild < |p| && p[wild] != '*' && !Accepts(cs, p[wild], s[str]))
    ensures 0 < mp <= |p| && cp <= |s| && Underway(cs, s, p, cp + 1, mp, cp, mp)
  {
    GiveUpAttempt(cs, s, cp - 1, p, mp - 1, wild);
  }

  lemma TextUsedUp(cs: bool, s: string, p: string, cp: nat, mp: nat, wild: nat)
    requires Underway(cs, s, p, cp, mp, |s|, wild)
    ensures wild <= |p| && MatchesFrom(cs, s, |s|, p, wild) == Matches(cs, s, p)
  {
    if mp > 0 {
      OnlyThisAttempt(cs, s, cp - 1, p, mp - 1, wild);
    }
  }

  // The branches of the main loop, with the tests it makes.

  lemma NulIsTheEnd(s: cstring, i: nat)
    requires i <= |s|
    ensures At(s, i) == NUL <==> i == |s|
  {
  }

  lemma EndsInStar(cs: bool, s: string, p: string, cp: nat, mp: nat, str: nat, wild: nat)
    requires Underway(cs, s, p, cp, mp, str, wild) && str <= |s| && wild + 1 == |p| && p[wild] == '*'
    ensures Matches(cs, s, p)
  {
    StarDecides(cs, s, p, cp, mp, str, wild);
    TrailingStar(cs, s, str, p);
  }

  lemma AtStar(cs: bool, text: cstring, pattern: cstring, cp: nat, mp: nat, str: nat, wild: nat)
    requires str <= |text| && wild <= |pattern| && Underway(cs, text, pattern, cp, mp, str, wild)
    requires At(pattern, wild) == '*'
    ensures mp <= wild < |pattern|
    ensures if At(pattern, wild + 1) == NUL then Matches(cs, text, pattern)
            else Underway(cs, text, pattern, str + 1, wild + 1, str, wild + 1)
  {
    NulIsTheEnd(pattern, wild + 1);
    if wild + 1 == |pattern| {
      EndsInStar(cs, text, pattern, cp, mp, str, wild);
    } else {
      TakeStar(cs, text, pattern, cp, mp, str, wild);
    }
  }

  lemma AtEqual(cs: bool, text: cstring, pattern: cstring, cp: nat, mp: nat, str: nat, wild: nat)
    requires str <= |text| && wild <= |pattern| && Underway(cs, text, pattern, cp, mp, str, wild)
    requires At(text, str) != NUL && At(pattern, wild) != '*'
    requires SameChar(cs, At(pattern, wild), At(text, str)) || At(pattern, wild) == '?'
    ensures wild < |pattern| && str < |text| && Underway(cs, text, pattern, cp, mp, str + 1, wild + 1)
  {
    GoOn(cs, text, pattern, cp, mp, str, wild);
  }

  lemma AtMismatch(cs: bool, text: cstring, pattern: cstring, cp: nat, mp: nat, str: nat, wild: nat)
    requires str <= |text| && wild <= |pattern| && Underway(cs, text, pattern, cp, mp, str, wild)
    requires At(text, str) != NUL && At(pattern, wild) != '*'
    requires !SameChar(cs, At(pattern, wild), At(text, str)) && At(pattern, wild) != '?'
    ensures mp <= |pattern| && cp <= |text| && Underway(cs, text, pattern, cp + 1, mp, cp, mp)
  {
    GoBack(cs, text, pattern, cp, mp, str, wild);
  }

  /**
    `wildcmp`: `str`, `wild` run over the text and the pattern, `mp` and `cp` say
    where to go back to. It returns whether the text matches.
   */
  method Wildcmp(text: cstring, pattern: cstring, caseSensitive: bool) returns (r: bool)
    ensures r == Matches(caseSensitive, text, pattern)
    ensures HasNoWildcard(pattern) && caseSensitive ==> (r <==> text == pattern)
    ensures HasNoWildcard(pattern) && !caseSensitive ==> (r <==> EqualTexts(text, pattern))
  {
    if HasNoWildcard(pattern) {
      PlainPatternIsEquality(text, pattern);
      PlainPatternIgnoresCase(text, pattern);
    }
    var str: nat, mismatch: bool := MatchUpToStar(text, pattern, caseSensitive);
    if mismatch {
      return false;
    }
    var wild: nat, cp: nat, mp: nat := str, 0, 0;
    while At(text, str) != NUL
      invariant str <= |text| && wild <= |pattern|
      invariant Underway(caseSensitive, text, pattern, cp, mp, str, wild)
      decreases |pattern| - mp, |text| - cp, |text| - str
    {
      if At(pattern, wild) == '*' {
        AtStar(caseSensitive, text, pattern, cp, mp, str, wild);
        wild := wild + 1;
        if At(pattern, wild) == NUL {
          return true;
        }
        mp, cp := wild, str + 1;
      } else if SameChar(caseSensitive, At(pattern, wild), At(text, str)) || At(pattern, wild) == '?' {
        AtEqual(caseSensitive, text, pattern, cp, mp, str, wild);
        wild, str := wild + 1, str + 1;
      } else {
        AtMismatch(caseSensitive, text, pattern, cp, mp, str, wild);
        wild := mp;
        str, cp := cp, cp + 1;
      }
    }
    TextUsedUp(caseSensitive, text, pattern, cp, mp, wild);
    r := OnlyStarsLeft(text, pattern, caseSensitive, wild);
  }

  /** Whether any filter matches; an empty list of filters counts as `matchEmpty` says. */
  method MatchesAny(name: cstring, filters: seq<cstring>, matchEmpty: bool, caseSensitive: bool) returns (r: bool)
    ensures r <==>
      || (filters == [] && matchEmpty)
      || exists i :: 0 <= i < |filters| && Matches(caseSensitive, name, filters[i])
  {
    if filters == [] && matchEmpty {
      return true;
    }
    for i := 0 to |filters|
      invariant forall k :: 0 <= k < i ==> !Matches(caseSensitive, name, filters[k])
    {
      var matched := Wildcmp(name, filters[i], caseSensitive);
      if matched {
        return true;
      }
    }
    return false;
  }
}
