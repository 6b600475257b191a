/** The string helpers of `Str`: splitting into fixed-size chunks,
    repetition, reversal, counting non-overlapping occurrences, quoting
    regular-expression metacharacters and the `*` wildcard match. */
module Str {
  import opened Wrappers
  import Seqs

  // ---------------------------------------------------------------------
  // Split

  /** Consecutive chunks of `n` characters; the last one holds the rest. */
  function Split(s: string, n: nat): (r: seq<string>)
    requires n > 0
    ensures s == [] <==> r == []
    ensures forall i :: 0 <= i < |r| - 1 ==> |r[i]| == n
    ensures r != [] ==> 0 < |r[|r| - 1]| <= n
    decreases |s|
  {
    if s == [] then []
    else if |s| <= n then [s]
    else [s[..n]] + Split(s[n..], n)
  }

  /** There are as many chunks as it takes to hold `s` in pieces of `n`. */
  lemma {:induction false} SplitCount(s: string, n: nat)
    requires n > 0
    ensures var r := Split(s, n);
      r != [] ==> (|r| - 1) * n < |s| <= |r| * n
    decreases |s|
  {
    if |s| > n {
      SplitCount(s[n..], n);
      var r, t := Split(s, n), Split(s[n..], n);
      assert |r| == |t| + 1;
      MulSucc(|t| - 1, n);
      MulSucc(|t|, n);
    }
  }

  lemma MulSucc(a: int, n: int)
    ensures (a + 1) * n == a * n + n
  {
  }

  /** The chunks joined back together. */
  function Concat(ss: seq<string>): string {
    if ss == [] then [] else ss[0] + Concat(ss[1..])
  }

  /** Joining the chunks gives back the input. */
  lemma {:induction false} SplitConcat(s: string, n: nat)
    requires n > 0
    ensures Concat(Split(s, n)) == s
    decreases |s|
  {
    if |s| > n {
      var ss := Split(s, n);
      assert ss == [s[..n]] + Split(s[n..], n);
      assert ss[1..] == Split(s[n..], n);
      SplitConcat(s[n..], n);
      assert Concat(ss) == s[..n] + s[n..];
      assert s == s[..n] + s[n..];
    } else if s != [] {
      assert Split(s, n) == [s];
      assert [s][1..] == [];
    }
  }

  // ---------------------------------------------------------------------
  // Repeat

  /** `s` written `k` times in a row. */
  function Repeat(s: string, k: nat): (r: string)
    ensures |r| == k * |s|
  {
    if k == 0 then [] else s + Repeat(s, k - 1)
  }

  lemma {:induction false} RepeatAdd(s: string, a: nat, b: nat)
    ensures Repeat(s, a + b) == Repeat(s, a) + Repeat(s, b)
  {
    if a > 0 {
      RepeatAdd(s, a - 1, b);
      assert Repeat(s, a + b) == s + Repeat(s, a - 1 + b);
      assert Repeat(s, a) == s + Repeat(s, a - 1);
      assert s + (Repeat(s, a - 1) + Repeat(s, b)) == (s + Repeat(s, a - 1)) + Repeat(s, b);
    }
  }

  /** Splitting `k` copies of a non-empty `s` at |s| gives the `k` copies back. */
  lemma {:induction false} SplitRepeat(s: string, k: nat)
    requires |s| > 0
    ensures Split(Repeat(s, k), |s|) == seq(k, _ => s)
  {
    if k > 1 {
      SplitRepeat(s, k - 1);
      var r := Repeat(s, k);
      assert r[..|s|] == s && r[|s|..] == Repeat(s, k - 1);
    } else if k == 1 {
      assert Repeat(s, 1) == s;
    }
  }

  // ---------------------------------------------------------------------
  // Reverse

  /** The characters of `s` in reverse order. */
  function Reverse(s: string): (r: string)
    ensures |r| == |s|
    ensures forall i :: 0 <= i < |s| ==> r[i] == s[|s| - 1 - i]
  {
    if s == [] then [] else Reverse(s[1..]) + [s[0]]
  }

  lemma ReverseReverse(s: string)
    ensures Reverse(Reverse(s)) == s
  {
  }

  lemma ReverseAppend(a: string, b: string)
    ensures Reverse(a + b) == Reverse(b) + Reverse(a)
  {
  }

  // ---------------------------------------------------------------------
  // SubstringCount

  /** Leftmost, non-overlapping occurrences of `needle` in `w`: after a
      match the search resumes behind it. */
  function Occurrences(w: string, needle: string): (r: nat)
    requires |needle| > 0
    ensures r * |needle| <= |w|
    decreases |w|
  {
    if |w| < |needle| then 0
    else if w[..|needle|] == needle then 1 + Occurrences(w[|needle|..], needle)
    else Occurrences(w[1..], needle)
  }

  /** The window [start, start + length) that an optional start and length
      select in a string of `n` characters: a negative start counts from
      the end, a missing length runs to the end, a negative length stops
      that many characters before the end, and everything is clamped. */
  function Window(n: nat, start: int, length: Option<int>): (w: (nat, nat))
    ensures w.0 + w.1 <= n
    ensures 0 <= start ==> w.0 == if start < n then start else n
    ensures 0 <= start && length.None? ==> w.1 == n - w.0
    ensures 0 <= start && length.Some? && 0 <= length.value ==>
              w.1 == if length.value < n - w.0 then length.value else n - w.0
  {
    var st := if start >= 0 then (if start < n then start else n)
              else (if n + start > 0 then n + start else 0);
    var ln := match length
      case None => n - st
      case Some(l) =>
        if l >= 0 then (if l < n - st then l else n - st)
        else (if n + l - st > 0 then n + l - st else 0);
    (st, ln)
  }

  /** Occurrences of `needle` inside the selected window of `s`. */
  function SubstringCount(s: string, needle: string, start: int, length: Option<int>): (r: nat)
    requires |needle| > 0
    ensures r * |needle| <= |s|
    ensures start >= |s| ==> r == 0
  {
    var w := Window(|s|, start, length);
    Occurrences(s[w.0..w.0 + w.1], needle)
  }

  /** A leading occurrence is counted and the search resumes behind it. */
  lemma OccurrencesPrefix(needle: string, w: string)
    requires |needle| > 0
    ensures Occurrences(needle + w, needle) == 1 + Occurrences(w, needle)
  {
    assert (needle + w)[..|needle|] == needle;
    assert (needle + w)[|needle|..] == w;
  }

  /** `k` back-to-back copies of the needle are `k` occurrences. */
  lemma {:induction false} OccurrencesRepeat(needle: string, k: nat)
    requires |needle| > 0
    ensures Occurrences(Repeat(needle, k), needle) == k
  {
    if k > 0 {
      OccurrencesRepeat(needle, k - 1);
      OccurrencesPrefix(needle, Repeat(needle, k - 1));
    }
  }

  /** Matches do not overlap: "abcab" occurs once in "abcabcab", although
      a second, overlapping copy starts at index 3. */
  lemma NonOverlapping()
    ensures "abcabcab"[3..8] == "abcab"
    ensures SubstringCount("abcabcab", "abcab", 0, None) == 1
  {
    var w := "abcabcab";
    assert Window(8, 0, None) == (0, 8);
    assert w[0..8] == w;
    assert w[..5] == "abcab";
    assert w[5..] == "cab";
    assert Occurrences("cab", "abcab") == 0;
  }

  // ---------------------------------------------------------------------
  // RegexQuote, AsteriskWildcard, Is

  /** The regular-expression metacharacters that RegexQuote escapes. */
  const Meta: set<char> := {'.', '\\', '+', '*', '?', '[', '^', ']', '$', '(', ')',
                             '{', '}', '=', '!', '<', '>', '|', ':', '-', '#'}

  function QuoteChar(c: char): string {
    if c in Meta then ['\\', c] else [c]
  }

  /** Every metacharacter preceded by a backslash; other characters kept. */
  function RegexQuote(s: string): (r: string)
    ensures (forall i :: 0 <= i < |s| ==> s[i] !in Meta) ==> r == s
    ensures |s| <= |r| <= 2 * |s|
  {
    if s == [] then [] else QuoteChar(s[0]) + RegexQuote(s[1..])
  }

  /** Quoting works character by character: quoting a concatenation
      concatenates the quoted parts. */
  lemma {:induction false} QuoteAppend(a: string, b: string)
    ensures RegexQuote(a + b) == RegexQuote(a) + RegexQuote(b)
  {
    if a != [] {
      assert (a + b)[0] == a[0] && (a + b)[1..] == a[1..] + b;
      QuoteAppend(a[1..], b);
    } else {
      assert a + b == b;
    }
  }

  /** Each character is quoted on its own, in place: a metacharacter gets
      a backslash in front, any other character is kept. */
  lemma QuoteInPlace(a: string, c: char, b: string)
    ensures RegexQuote(a + [c] + b)
         == RegexQuote(a) + (if c in Meta then ['\\', c] else [c]) + RegexQuote(b)
  {
    QuoteAppend(a + [c], b);
    QuoteAppend(a, [c]);
    assert [c][1..] == [];
  }

  /** Removes one level of backslash escaping. */
  function Unquote(r: string): string {
    if r == [] then []
    else if r[0] == '\\' && |r| >= 2 then [r[1]] + Unquote(r[2..])
    else [r[0]] + Unquote(r[1..])
  }

  /** Quoting loses nothing: unquoting gives back the input. */
  lemma {:induction false} QuoteRoundTrip(s: string)
    ensures Unquote(RegexQuote(s)) == s
  {
    if s != [] {
      QuoteRoundTrip(s[1..]);
      var q := RegexQuote(s[1..]);
      if s[0] in Meta {
        assert (['\\', s[0]] + q)[2..] == q;
      } else {
        assert ([s[0]] + q)[1..] == q;
      }
      assert s == [s[0]] + s[1..];
    }
  }

  /** The literal text replacement of every `\*` by `.*?`, scanning left
      to right without overlaps. */
  function ReplaceEscapedStar(s: string): string {
    if |s| >= 2 && s[0] == '\\' && s[1] == '*' then ".*?" + ReplaceEscapedStar(s[2..])
    else if s == [] then []
    else [s[0]] + ReplaceEscapedStar(s[1..])
  }

  /** Quote the pattern, then turn every quoted `*` into the lazy `.*?`. */
  function AsteriskWildcard(p: string): (r: string)
    ensures r == WildcardPerChar(p)
  {
    AsteriskWildcardPerChar(p);
    ReplaceEscapedStar(RegexQuote(p))
  }

  /** What AsteriskWildcard produces for one pattern character. */
  function WildcardChar(c: char): string {
    if c == '*' then ".*?" else QuoteChar(c)
  }

  function WildcardPerChar(p: string): string {
    if p == [] then [] else WildcardChar(p[0]) + WildcardPerChar(p[1..])
  }

  lemma ReplaceStep(c: char, q: string)
    requires q == [] || q[0] != '*'
    ensures ReplaceEscapedStar(QuoteChar(c) + q) == WildcardChar(c) + ReplaceEscapedStar(q)
  {
    if c in Meta {
      var t := ['\\', c] + q;
      assert t[1..] == [c] + q;
      assert t[2..] == q;
      if c != '*' {
        assert ([c] + q)[1..] == q;
        if c == '\\' {
          assert ReplaceEscapedStar([c] + q) == [c] + ReplaceEscapedStar(q);
        }
      }
    } else {
      assert ([c] + q)[1..] == q;
    }
  }

  /** Quoting and then turning each quoted `*` into `.*?` works character
      by character. */
  lemma {:induction false} AsteriskWildcardPerChar(p: string)
    ensures ReplaceEscapedStar(RegexQuote(p)) == WildcardPerChar(p)
  {
    if p != [] {
      AsteriskWildcardPerChar(p[1..]);
      ReplaceStep(p[0], RegexQuote(p[1..]));
    }
  }

  /** Anchored match of the regular expressions AsteriskWildcard produces:
      `.*?` matches any run, `\c` the character c, and a character that is
      not a metacharacter matches itself. */
  function RegexMatch(r: string, s: string): bool
    decreases |r|
  {
    if r == [] then s == []
    else if |r| >= 3 && r[..3] == ".*?" then
      exists k :: 0 <= k <= |s| && RegexMatch(r[3..], s[k..])
    else if r[0] == '\\' && |r| >= 2 then
      |s| > 0 && s[0] == r[1] && RegexMatch(r[2..], s[1..])
    else if r[0] in Meta then false
    else |s| > 0 && s[0] == r[0] && RegexMatch(r[1..], s[1..])
  }

  /** `s` matches the wildcard pattern `p` as a whole: the pattern is
      anchored at both ends. */
  function Is(p: string, s: string): (r: bool)
    ensures r <==> Glob(p, s)
  {
    PerCharMeansGlob(p, s);
    RegexMatch(AsteriskWildcard(p), s)
  }

  /** Wildcard matching: `*` matches any run, every other character itself. */
  function Glob(p: string, s: string): bool
    decreases |p|
  {
    if p == [] then s == []
    else if p[0] == '*' then exists k :: 0 <= k <= |s| && Glob(p[1..], s[k..])
    else |s| > 0 && s[0] == p[0] && Glob(p[1..], s[1..])
  }

  lemma {:induction false} PerCharMeansGlob(p: string, s: string)
    ensures RegexMatch(WildcardPerChar(p), s) <==> Glob(p, s)
  {
    if p != [] {
      var rest := WildcardPerChar(p[1..]);
      var r := WildcardChar(p[0]) + rest;
      if p[0] == '*' {
        assert r[..3] == ".*?" && r[3..] == rest;
        forall k | 0 <= k <= |s|
          ensures RegexMatch(rest, s[k..]) <==> Glob(p[1..], s[k..])
        {
          PerCharMeansGlob(p[1..], s[k..]);
        }
      } else if p[0] in Meta {
        assert r[0] == '\\' && r[1] == p[0] && r[2..] == rest;
        if |s| > 0 {
          PerCharMeansGlob(p[1..], s[1..]);
        }
      } else {
        assert r[0] == p[0] && r[1..] == rest;
        if |s| > 0 {
          PerCharMeansGlob(p[1..], s[1..]);
        }
      }
    }
  }

  /** A pattern without `*` matches exactly itself. */
  lemma {:induction false} GlobLiteral(p: string, s: string)
    requires forall i :: 0 <= i < |p| ==> p[i] != '*'
    ensures Glob(p, s) <==> s == p
  {
    if p != [] && |s| > 0 {
      GlobLiteral(p[1..], s[1..]);
      if |s| > 0 {
        assert s == [s[0]] + s[1..];
        assert p == [p[0]] + p[1..];
      }
    }
  }

  /** A literal prefix of the pattern must be a prefix of the string. */
  lemma {:induction false} GlobPrefix(a: string, p: string, s: string)
    requires forall i :: 0 <= i < |a| ==> a[i] != '*'
    ensures Glob(a + p, s) <==> |a| <= |s| && s[..|a|] == a && Glob(p, s[|a|..])
  {
    if a != [] {
      assert (a + p)[0] == a[0] && (a + p)[1..] == a[1..] + p;
      if |s| > 0 {
        GlobPrefix(a[1..], p, s[1..]);
        if |a| <= |s| {
          assert s[1..][|a| - 1..] == s[|a|..];
          assert s[..|a|] == [s[0]] + s[1..][..|a| - 1];
          assert a == [a[0]] + a[1..];
        }
      }
    } else {
      assert a + p == p;
    }
  }

  /** A leading `*` followed by a literal part matches exactly the
      strings that end with that part. */
  lemma StarSuffix(b: string, t: string)
    requires forall i :: 0 <= i < |b| ==> b[i] != '*'
    ensures Glob("*" + b, t) <==> |b| <= |t| && t[|t| - |b|..] == b
  {
    assert ("*" + b)[0] == '*' && ("*" + b)[1..] == b;
    forall k | 0 <= k <= |t| ensures Glob(b, t[k..]) <==> t[k..] == b {
      GlobLiteral(b, t[k..]);
    }
    if |b| <= |t| && t[|t| - |b|..] == b {
      assert Glob(b, t[|t| - |b|..]);
    }
  }

  /** With one `*` between literal parts, a string matches iff it starts
      with the part before the star and ends with the part after it. */
  lemma OneStar(a: string, b: string, s: string)
    requires forall i :: 0 <= i < |a| ==> a[i] != '*'
    requires forall i :: 0 <= i < |b| ==> b[i] != '*'
    ensures Glob(a + "*" + b, s)
        <==> |a| + |b| <= |s| && s[..|a|] == a && s[|s| - |b|..] == b
  {
    var rest := "*" + b;
    Seqs.ConcatAssoc(a, "*", b);
    GlobPrefix(a, rest, s);
    if |a| <= |s| {
      var t := s[|a|..];
      StarSuffix(b, t);
      if |b| <= |t| {
        assert t[|t| - |b|..] == s[|s| - |b|..];
      }
    }
  }

  /** `Is` with one star between literal parts: the string starts with
      the part before the star and ends with the part after it. */
  lemma IsOneStar(a: string, b: string, s: string)
    requires forall i :: 0 <= i < |a| ==> a[i] != '*'
    requires forall i :: 0 <= i < |b| ==> b[i] != '*'
    ensures Is(a + "*" + b, s)
        <==> |a| + |b| <= |s| && s[..|a|] == a && s[|s| - |b|..] == b
  {
    OneStar(a, b, s);
  }

  /** The pattern of the examples below: one star between literal parts. */
  lemma ExamplePattern(p: string, s: string)
    requires p == "path.?+/hello/w*d"
    ensures Is(p, s)
        <==> 16 <= |s| && s[..15] == "path.?+/hello/w" && s[|s| - 1] == 'd'
  {
    var a, b := "path.?+/hello/w", "d";
    assert p == a + "*" + b;
    IsOneStar(a, b, s);
    if |s| >= 16 {
      assert s[|s| - 1..] == [s[|s| - 1]];
    }
  }

  /** The star matches the run "orl" of "world". */
  lemma IsMatchesRun(p: string, s: string)
    requires p == "path.?+/hello/w*d" && s == "path.?+/hello/world"
    ensures Is(p, s)
  {
    assert s[..15] == "path.?+/hello/w" && s[|s| - 1] == 'd';
    ExamplePattern(p, s);
  }

  /** The match is anchored at the start: a leading "hello" fails. */
  lemma IsAnchoredAtStart(p: string, s: string)
    requires p == "path.?+/hello/w*d" && s == "hellopath.?+/hello/world"
    ensures !Is(p, s)
  {
    ExamplePattern(p, s);
    assert s[..15][0] == 'h';
  }

  /** "world" followed by any number of further 'd's matches: the star
      takes "orl" and all but the last 'd'. The test's long case is the
      one with eight more. */
  lemma IsMatchesLongRun(p: string, k: nat, s: string)
    requires p == "path.?+/hello/w*d" && s == "path.?+/hello/world" + Repeat("d", k)
    ensures Is(p, s)
  {
    var r := Repeat("d", k);
    var head := "path.?+/hello/world";
    assert s[..15] == head[..15] == "path.?+/hello/w";
    if k > 0 {
      RepeatAdd("d", k - 1, 1);
      assert Repeat("d", 1) == "d";
      assert r[|r| - 1] == 'd';
      assert s[|s| - 1] == r[|r| - 1];
    }
    ExamplePattern(p, s);
  }

  /** The match is anchored at the end: a trailing "ppppp" fails. */
  lemma IsAnchoredAtEnd(p: string, s: string)
    requires p == "path.?+/hello/w*d" && s == "path.?+/hello/worldddddddddppppp"
    ensures !Is(p, s)
  {
    ExamplePattern(p, s);
    assert s[|s| - 1] == 'p';
  }
}
