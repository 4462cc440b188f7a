/**
 * The parts of Python's `str` that the scraper relies on: `split('::')`,
 * `strip()`, `endswith`, and `str()` of an integer.
 */
module Strings {
  import opened Wrappers

  // ---------------------------------------------------------------------
  // Prefixes and suffixes
  // ---------------------------------------------------------------------

  predicate StartsWith(s: string, prefix: string) {
    |prefix| <= |s| && s[..|prefix|] == prefix
  }

  /** Python's `s.endswith(suffix)`. */
  predicate EndsWith(s: string, suffix: string) {
    |suffix| <= |s| && s[|s| - |suffix|..] == suffix
  }

  // ---------------------------------------------------------------------
  // str.split('::')
  // ---------------------------------------------------------------------

  /** The separator between title and author in a book page heading. */
  const Sep: string := "::"

  /** `s` holds the separator at index `i`. */
  predicate SepAt(s: string, i: int) {
    0 <= i && i + 2 <= |s| && s[i] == ':' && s[i + 1] == ':'
  }

  ghost predicate HasSep(s: string) {
    exists i :: SepAt(s, i)
  }

  /** `s` holds two separators that do not overlap. */
  ghost predicate HasTwoSeps(s: string) {
    exists i, j :: SepAt(s, i) && SepAt(s, j) && i + 2 <= j
  }

  lemma SepAtTail(s: string, j: int)
    requires |s| > 0 && j >= 0
    ensures SepAt(s, j + 1) <==> SepAt(s[1..], j)
  {
  }

  /** The index of the leftmost separator, as `str.find('::')`. */
  function FirstSep(s: string): (r: Option<nat>)
    ensures r.Some? ==> SepAt(s, r.value) && forall j :: 0 <= j < r.value ==> !SepAt(s, j)
    ensures r.None? <==> !HasSep(s)
    decreases |s|
  {
    if |s| < 2 then
      None
    else if s[0] == ':' && s[1] == ':' then
      Some(0)
    else
      match FirstSep(s[1..])
      case None =>
        assert forall j :: 1 <= j ==> !SepAt(s, j) by {
          forall j | 1 <= j ensures !SepAt(s, j) {
            SepAtTail(s, j - 1);
          }
        }
        None
      case Some(i) =>
        assert SepAt(s, i + 1) by { SepAtTail(s, i); }
        assert forall j :: 1 <= j < i + 1 ==> !SepAt(s, j) by {
          forall j | 1 <= j < i + 1 ensures !SepAt(s, j) {
            SepAtTail(s, j - 1);
          }
        }
        Some(i + 1)
  }

  /**
   * Python's `s.split('::')`: cut at the leftmost separator, then go on
   * after it, so the pieces never overlap a separator.
   */
  function SplitSep(s: string): (parts: seq<string>)
    ensures |parts| >= 1
    ensures |parts| == 1 <==> !HasSep(s)
    ensures forall k :: 0 <= k < |parts| ==> !HasSep(parts[k])
    ensures forall k :: 0 <= k < |parts| - 1 ==> parts[k] == [] || parts[k][|parts[k]| - 1] != ':'
    decreases |s|
  {
    match FirstSep(s)
    case None => [s]
    case Some(i) =>
      assert !HasSep(s[..i]) by {
        forall j | SepAt(s[..i], j) ensures false {
          assert SepAt(s, j);
        }
      }
      assert i == 0 || s[i - 1] != ':' by {
        if i > 0 && s[i - 1] == ':' {
          assert SepAt(s, i - 1);
        }
      }
      var rest := SplitSep(s[i + 2..]);
      var parts := [s[..i]] + rest;
      assert forall k :: 1 <= k < |parts| ==> parts[k] == rest[k - 1];
      parts
  }

  /** Python's `'::'.join(parts)`, the inverse of `SplitSep`. */
  function JoinSep(parts: seq<string>): string
    requires |parts| >= 1
  {
    if |parts| == 1 then parts[0] else parts[0] + Sep + JoinSep(parts[1..])
  }

  /** One step of the split: the piece before the leftmost separator, then the split of the rest. */
  lemma SplitStep(s: string, i: nat)
    requires FirstSep(s) == Some(i)
    ensures SplitSep(s) == [s[..i]] + SplitSep(s[i + 2..])
    ensures s == s[..i] + Sep + s[i + 2..]
  {
    assert s[i..i + 2] == Sep;
    assert s == s[..i] + s[i..i + 2] + s[i + 2..];
  }

  lemma {:induction false} SplitJoin(s: string)
    ensures JoinSep(SplitSep(s)) == s
    decreases |s|
  {
    match FirstSep(s)
    case None =>
    case Some(i) =>
      var rest := s[i + 2..];
      SplitJoin(rest);
      SplitStep(s, i);
      var p := SplitSep(s);
      assert p[1..] == SplitSep(rest);
  }

  /**
   * The split yields three or more pieces exactly when the text holds two
   * separators that do not overlap.
   */
  lemma SplitAtLeastThree(s: string)
    ensures |SplitSep(s)| >= 3 <==> HasTwoSeps(s)
  {
    match FirstSep(s)
    case None =>
    case Some(i) =>
      var rest := s[i + 2..];
      assert SplitSep(s) == [s[..i]] + SplitSep(rest);
      if |SplitSep(s)| >= 3 {
        var j :| SepAt(rest, j);
        assert SepAt(s, i) && SepAt(s, i + 2 + j);
      }
      if HasTwoSeps(s) {
        var a, b :| SepAt(s, a) && SepAt(s, b) && a + 2 <= b;
        assert i <= a;
        assert SepAt(rest, b - i - 2);
      }
  }

  /**
   * The split yields exactly two pieces when the text holds a separator
   * but not two non-overlapping ones; the text is then the two pieces
   * joined by the separator.
   */
  lemma SplitInTwo(s: string)
    ensures |SplitSep(s)| == 2 <==> HasSep(s) && !HasTwoSeps(s)
    ensures |SplitSep(s)| == 2 ==> s == SplitSep(s)[0] + Sep + SplitSep(s)[1]
  {
    SplitAtLeastThree(s);
    SplitJoin(s);
    var p := SplitSep(s);
    if |p| == 2 {
      assert p[1..] == [p[1]];
    }
  }

  // ---------------------------------------------------------------------
  // str.strip()
  // ---------------------------------------------------------------------

  /** Python's `str.isspace()` for one character. */
  predicate IsSpace(c: char) {
    c == ' ' || ('\t' <= c <= '\r') || ('\U{1C}' <= c <= '\U{1F}')
    || c == '\U{85}' || c == '\U{A0}' || c == '\U{1680}'
    || ('\U{2000}' <= c <= '\U{200A}')
    || c == '\U{2028}' || c == '\U{2029}' || c == '\U{202F}' || c == '\U{205F}' || c == '\U{3000}'
  }

  predicate AllSpace(s: string) {
    forall k :: 0 <= k < |s| ==> IsSpace(s[k])
  }

  /** Python's `s.lstrip()`. */
  function StripStart(s: string): (r: string)
    ensures |r| <= |s| && r == s[|s| - |r|..]
    ensures AllSpace(s[..|s| - |r|])
    ensures r == [] || !IsSpace(r[0])
  {
    if s != [] && IsSpace(s[0]) then
      var r := StripStart(s[1..]);
      assert s[..|s| - |r|] == [s[0]] + s[1..][..|s| - 1 - |r|];
      r
    else
      s
  }

  /** Python's `s.rstrip()`. */
  function StripEnd(s: string): (r: string)
    ensures |r| <= |s| && r == s[..|r|]
    ensures AllSpace(s[|r|..])
    ensures r == [] || !IsSpace(r[|r| - 1])
  {
    if s != [] && IsSpace(s[|s| - 1]) then
      var r := StripEnd(s[..|s| - 1]);
      assert s[|r|..] == s[..|s| - 1][|r|..] + [s[|s| - 1]];
      r
    else
      s
  }

  /** Stripping the end of a text that starts with a non-space keeps that first character. */
  lemma StripEndKeepsFirst(t: string)
    requires t == [] || !IsSpace(t[0])
    ensures t != [] ==> StripEnd(t) != [] && StripEnd(t)[0] == t[0]
  {
    if t != [] {
      assert t[|StripEnd(t)|..] != [] ==> t[|StripEnd(t)|..][0] == t[|StripEnd(t)|];
    }
  }

  /** `r` is `s` with the whitespace run `s[..i]` removed in front and only whitespace removed behind. */
  predicate TrimmedAt(s: string, r: string, i: nat) {
    i + |r| <= |s| && r == s[i..i + |r|] && AllSpace(s[..i]) && AllSpace(s[i + |r|..])
  }

  /**
   * Python's `s.strip()`: the longest middle part of `s` that neither
   * starts nor ends with whitespace; only whitespace is removed.
   */
  function Strip(s: string): (r: string)
    ensures r == [] || (!IsSpace(r[0]) && !IsSpace(r[|r| - 1]))
  {
    StripEndKeepsFirst(StripStart(s));
    StripEnd(StripStart(s))
  }

  /** `Strip` removes only whitespace, and only at the two ends. */
  lemma StripTrims(s: string)
    ensures TrimmedAt(s, Strip(s), |s| - |StripStart(s)|)
  {
    var t := StripStart(s);
    var r := StripEnd(t);
    var i := |s| - |t|;
    assert t == s[i..];
    assert s[i + |r|..] == t[|r|..];
    assert s[i..i + |r|] == r;
  }

  /** Stripping adds no character. */
  lemma StripKeepsOut(s: string, c: char)
    ensures c !in s ==> c !in Strip(s)
  {
    StripTrims(s);
  }

  /**
   * A text without dots followed by a text that is empty or starts with a
   * dot: the dot-free part is everything before the first dot, so it is
   * determined by the whole.
   */
  lemma DotFreePrefixUnique(a: string, x: string, b: string, y: string)
    requires '.' !in a && '.' !in b
    requires (x == [] || x[0] == '.') && (y == [] || y[0] == '.')
    requires a + x == b + y
    ensures a == b && x == y
  {
    var n := a + x;
    assert forall k :: 0 <= k < |a| ==> n[k] == a[k] && n[k] != '.';
    assert forall k :: 0 <= k < |b| ==> n[k] == b[k] && n[k] != '.';
    assert |a| < |n| ==> n[|a|] == '.';
    assert |b| < |n| ==> n[|b|] == '.';
    if |a| < |b| {
      assert false;
    } else if |b| < |a| {
      assert false;
    }
    assert a == n[..|a|] == b;
  }

  /** Stripping twice changes nothing more than stripping once. */
  lemma StripIdempotent(s: string)
    ensures Strip(Strip(s)) == Strip(s)
  {
  }

  // ---------------------------------------------------------------------
  // str(int) and its inverse
  // ---------------------------------------------------------------------

  predicate IsDigit(c: char) {
    '0' <= c <= '9'
  }

  function DigitChar(d: nat): (c: char)
    requires d < 10
    ensures IsDigit(c)
  {
    ('0' as int + d) as char
  }

  function DigitValue(c: char): nat
    requires IsDigit(c)
  {
    c as int - '0' as int
  }

  predicate AllDigits(s: string) {
    forall k :: 0 <= k < |s| ==> IsDigit(s[k])
  }

  /** The decimal numeral of `n`, with no leading zero except for `0` itself. */
  function NatToString(n: nat): (r: string)
    ensures |r| >= 1 && AllDigits(r)
    ensures r[0] == '0' ==> r == "0"
    decreases n
  {
    if n < 10 then [DigitChar(n)] else NatToString(n / 10) + [DigitChar(n % 10)]
  }

  /** The number a string of decimal digits denotes. */
  function DigitsValue(s: string): nat
    requires AllDigits(s)
  {
    if s == [] then 0 else 10 * DigitsValue(s[..|s| - 1]) + DigitValue(s[|s| - 1])
  }

  lemma {:induction false} NatToStringRoundTrip(n: nat)
    ensures DigitsValue(NatToString(n)) == n
    decreases n
  {
    var r := NatToString(n);
    if n >= 10 {
      NatToStringRoundTrip(n / 10);
      assert r[..|r| - 1] == NatToString(n / 10);
    }
  }

  /** Python's `str(n)` (and `f'{n}'`) for an integer. */
  function IntToString(n: int): (r: string)
    ensures |r| >= 1
    ensures r[0] == '-' <==> n < 0
    ensures AllDigits(if n < 0 then r[1..] else r)
  {
    if n < 0 then "-" + NatToString(-n) else NatToString(n)
  }

  /** Python's `int(s)` on what `str` prints for an integer. */
  function ParseInt(s: string): int
    requires |s| >= 1
    requires AllDigits(if s[0] == '-' then s[1..] else s)
  {
    if s[0] == '-' then -(DigitsValue(s[1..]) as int) else DigitsValue(s)
  }

  lemma IntToStringRoundTrip(n: int)
    ensures ParseInt(IntToString(n)) == n
  {
    if n < 0 {
      NatToStringRoundTrip(-n);
      assert IntToString(n)[1..] == NatToString(-n);
    } else {
      NatToStringRoundTrip(n);
    }
  }

  /** Different integers print differently. */
  lemma IntToStringInjective(a: int, b: int)
    requires IntToString(a) == IntToString(b)
    ensures a == b
  {
    IntToStringRoundTrip(a);
    IntToStringRoundTrip(b);
  }

  /** The decimal numeral of an integer holds neither a dot nor a slash. */
  lemma IntToStringPlain(n: int)
    ensures '.' !in IntToString(n) && '/' !in IntToString(n)
  {
    var r := IntToString(n);
    if n < 0 {
      assert r == "-" + NatToString(-n);
      assert forall k :: 1 <= k < |r| ==> r[k] == r[1..][k - 1];
    }
  }
}
