/** The string primitives the lookup-table parser relies on: Java's
    `String.indexOf`, `String.trim`, and Guava's comma splitter with trimmed
    results. Strings are `seq<char>`, and a `char` is one Unicode scalar value, where
    Java counts UTF-16 units; only the spelling length gate sees the
    difference (see `CandidateFusion.SpellContribution`). */
module Text {
  import opened Wrappers

  /** The characters `String.trim` removes: every code point up to U+0020. */
  predicate IsControlOrSpace(c: char) {
    c <= ' '
  }

  /** The characters Guava's `CharMatcher.whitespace()` matches, which
      `Splitter.trimResults()` removes from both ends of each piece. */
  predicate IsUnicodeWhitespace(c: char) {
    || c == '\t' || c == '\n' || c == '\U{000B}' || c == '\U{000C}' || c == '\r'
    || c == ' ' || c == '\U{0085}' || c == '\U{00A0}' || c == '\U{1680}'
    || ('\U{2000}' <= c <= '\U{200A}')
    || c == '\U{2028}' || c == '\U{2029}' || c == '\U{202F}' || c == '\U{205F}'
    || c == '\U{3000}'
  }

  /** First position of `c` in `s`; `None` plays the role of Java's -1. */
  function IndexOf(s: string, c: char): (r: Option<nat>)
    ensures r.None? <==> c !in s
    ensures r.Some? ==> r.value < |s| && s[r.value] == c && c !in s[..r.value]
  {
    if |s| == 0 then None
    else if s[0] == c then Some(0)
    else
      match IndexOf(s[1..], c)
      case None => None
      case Some(i) =>
        assert s[..i + 1] == [s[0]] + s[1..][..i];
        Some(i + 1)
  }

  /** `s` with every leading character satisfying `p` removed. */
  function StripLeading(s: string, p: char -> bool): (r: string)
    ensures |r| <= |s| && r == s[|s| - |r|..]
    ensures forall k :: 0 <= k < |s| - |r| ==> p(s[k])
    ensures |r| > 0 ==> !p(r[0])
  {
    if |s| > 0 && p(s[0]) then
      var r := StripLeading(s[1..], p);
      assert forall k :: 1 <= k < |s| - |r| ==> s[k] == s[1..][k - 1];
      r
    else s
  }

  /** `s` with every trailing character satisfying `p` removed. */
  function StripTrailing(s: string, p: char -> bool): (r: string)
    ensures |r| <= |s| && r == s[..|r|]
    ensures forall k :: |r| <= k < |s| ==> p(s[k])
    ensures |r| > 0 ==> !p(r[|r| - 1])
  {
    if |s| > 0 && p(s[|s| - 1]) then
      var r := StripTrailing(s[..|s| - 1], p);
      assert forall k :: |r| <= k < |s| - 1 ==> s[k] == s[..|s| - 1][k];
      r
    else s
  }

  /** `r` is `s` from position `i` on, less a suffix, and everything cut
      off on either side satisfies `p`. */
  ghost predicate IsInfixWithMargins(s: string, r: string, i: nat, p: char -> bool) {
    && i + |r| <= |s| && r == s[i..i + |r|]
    && (forall k :: 0 <= k < i ==> p(s[k]))
    && (forall k :: i + |r| <= k < |s| ==> p(s[k]))
  }

  /** How many leading characters `Strip` cuts off. */
  function LeadingCount(s: string, p: char -> bool): nat {
    |s| - |StripLeading(s, p)|
  }

  /** A prefix of a suffix of `s`, each cut made only of `p`-characters,
      is an infix with `p`-margins. */
  lemma PrefixOfSuffix(s: string, left: string, r: string, p: char -> bool)
    requires |left| <= |s| && left == s[|s| - |left|..]
    requires forall k :: 0 <= k < |s| - |left| ==> p(s[k])
    requires |r| <= |left| && r == left[..|r|]
    requires forall k :: |r| <= k < |left| ==> p(left[k])
    ensures IsInfixWithMargins(s, r, |s| - |left|, p)
  {
    var i := |s| - |left|;
    forall k | i + |r| <= k < |s|
      ensures p(s[k])
    {
      assert s[k] == left[k - i];
    }
  }

  /** Removes the longest prefix and suffix made only of `p`-characters. */
  function Strip(s: string, p: char -> bool): (r: string)
    ensures IsInfixWithMargins(s, r, LeadingCount(s, p), p)
    ensures |r| > 0 ==> !p(r[0]) && !p(r[|r| - 1])
  {
    var left := StripLeading(s, p);
    var r := StripTrailing(left, p);
    PrefixOfSuffix(s, left, r, p);
    assert |r| > 0 ==> r[0] == left[0];
    r
  }

  /** Java's `String.trim()`. */
  function JavaTrim(s: string): (r: string)
    ensures IsInfixWithMargins(s, r, LeadingCount(s, IsControlOrSpace), IsControlOrSpace)
    ensures |r| > 0 ==> r[0] > ' ' && r[|r| - 1] > ' '
  {
    Strip(s, IsControlOrSpace)
  }

  /** The trimming `Splitter.trimResults()` applies to each piece. */
  function WhitespaceTrim(s: string): (r: string)
    ensures IsInfixWithMargins(s, r, LeadingCount(s, IsUnicodeWhitespace), IsUnicodeWhitespace)
    ensures |r| > 0 ==> !IsUnicodeWhitespace(r[0]) && !IsUnicodeWhitespace(r[|r| - 1])
  {
    Strip(s, IsUnicodeWhitespace)
  }

  /** Stripping never introduces a character. */
  lemma StripKeepsAbsence(s: string, p: char -> bool, c: char)
    requires c !in s
    ensures c !in Strip(s, p)
  {
  }

  /** A string whose end characters do not satisfy `p` is left as it is. */
  lemma StripUnchanged(s: string, p: char -> bool)
    requires |s| == 0 || (!p(s[0]) && !p(s[|s| - 1]))
    ensures Strip(s, p) == s
  {
    assert StripLeading(s, p) == s;
  }

  /** The pieces of `parts` joined with `sep` between neighbours. */
  function Join(parts: seq<string>, sep: char): string
    requires |parts| >= 1
  {
    if |parts| == 1 then parts[0] else parts[0] + [sep] + Join(parts[1..], sep)
  }

  /** Guava's `Splitter.on(sep).split(s)`: every occurrence of `sep` cuts,
      empty pieces are kept, and joining the pieces back gives `s`. */
  function SplitOn(s: string, sep: char): (r: seq<string>)
    ensures |r| >= 1
    ensures forall i :: 0 <= i < |r| ==> sep !in r[i]
    ensures Join(r, sep) == s
    decreases |s|
  {
    match IndexOf(s, sep)
    case None => [s]
    case Some(i) =>
      var rest := SplitOn(s[i + 1..], sep);
      var r := [s[..i]] + rest;
      assert r[1..] == rest;
      assert s == s[..i] + [sep] + s[i + 1..];
      r
  }

  /** The other direction of the round trip: splitting a join of pieces that
      do not contain the separator gives the pieces back. */
  lemma {:induction false} SplitJoin(parts: seq<string>, sep: char)
    requires |parts| >= 1
    requires forall i :: 0 <= i < |parts| ==> sep !in parts[i]
    ensures SplitOn(Join(parts, sep), sep) == parts
  {
    var s := Join(parts, sep);
    if |parts| == 1 {
      assert sep !in parts[0];
    } else {
      var head := parts[0];
      var tail := Join(parts[1..], sep);
      assert s == head + [sep] + tail;
      var idx := IndexOf(s, sep);
      assert s[|head|] == sep;
      assert s[..|head|] == head;
      assert idx == Some(|head|);
      assert s[|head| + 1..] == tail;
      SplitJoin(parts[1..], sep);
      assert parts == [head] + parts[1..];
    }
  }
}
