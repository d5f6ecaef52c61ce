/** The Python string built-ins the scraper relies on: `str.strip()` with no
    argument, `str.splitlines()`, and the decimal rendering of an `int` in an
    f-string. Strings are sequences of Unicode scalar values; the model does
    not represent the lone surrogates a Python `str` may also hold. */
module Text {

  /** Python's `str.isspace`: the characters that `str.strip()` removes by default
      (ASCII tab to carriage return, the four information separators, space,
      NEL, no-break space, and the Unicode space separators, among them the
      ideographic space U+3000 common in Japanese text). */
  predicate IsSpace(c: char) {
    || ('\t' <= c <= '\r')
    || ('\U{1C}' <= c <= ' ')
    || c == '\U{85}' || c == '\U{A0}' || c == '\U{1680}'
    || ('\U{2000}' <= c <= '\U{200A}')
    || c == '\U{2028}' || c == '\U{2029}' || c == '\U{202F}' || c == '\U{205F}'
    || c == '\U{3000}'
  }

  /** The regular-expression class `[0-9]`: ASCII digits only. */
  predicate IsAsciiDigit(c: char) {
    '0' <= c <= '9'
  }

  /** The regular-expression class `[A-Za-z]`: ASCII letters only. */
  predicate IsAsciiLetter(c: char) {
    ('A' <= c <= 'Z') || ('a' <= c <= 'z')
  }

  predicate AllSpace(s: string) {
    forall i :: 0 <= i < |s| ==> IsSpace(s[i])
  }

  /** `s.lstrip()`: the suffix left after dropping every leading space. */
  function StripLeading(s: string): (r: string)
    ensures |r| <= |s| && r == s[|s| - |r|..]
    ensures AllSpace(s[..|s| - |r|])
    ensures r == [] || !IsSpace(r[0])
  {
    if s != [] && IsSpace(s[0]) then
      var r := StripLeading(s[1..]);
      assert forall i :: 1 <= i < |s| - |r| ==> s[1..][..|s| - 1 - |r|][i - 1] == s[i];
      r
    else s
  }

  /** `s.rstrip()`: the prefix left after dropping every trailing space. */
  function StripTrailing(s: string): (r: string)
    ensures |r| <= |s| && r == s[..|r|]
    ensures AllSpace(s[|r|..])
    ensures r == [] || !IsSpace(r[|r| - 1])
  {
    if s != [] && IsSpace(s[|s| - 1]) then
      var r := StripTrailing(s[..|s| - 1]);
      assert s[|r|..] == s[..|s| - 1][|r|..] + [s[|s| - 1]];
      r
    else s
  }

  /** `s.strip()`: never longer than s, and what it keeps neither starts nor
      ends with whitespace. */
  function Strip(s: string): (r: string)
    ensures |r| <= |s|
    ensures r == [] || (!IsSpace(r[0]) && !IsSpace(r[|r| - 1]))
  {
    var l := StripLeading(s);
    var r := StripTrailing(l);
    assert r != [] ==> r[0] == l[0];
    r
  }

  /** Strip keeps a middle slice s[i..j] of s, where i is the length of the
      leading spaces cut and s[j..] the trailing spaces cut. */
  lemma StripIsSlice(s: string) returns (i: nat, j: nat)
    ensures i <= j <= |s| && Strip(s) == s[i..j]
    ensures i == |s| - |StripLeading(s)| && j == i + |Strip(s)|
  {
    var l := StripLeading(s);
    var r := StripTrailing(l);
    i := |s| - |l|;
    j := i + |r|;
    assert l == s[i..];
    assert r == l[..|r|];
  }

  /** Everything Strip cuts off is space. */
  lemma StripCutsSpaces(s: string)
    ensures var i := |s| - |StripLeading(s)|;
      AllSpace(s[..i]) && AllSpace(s[i + |Strip(s)|..])
  {
    var l := StripLeading(s);
    var r := StripTrailing(l);
    var i := |s| - |l|;
    assert l == s[i..];
    assert s[i + |r|..] == l[|r|..];
  }

  /** A string of spaces only loses everything to the leading strip. */
  lemma {:induction false} AllSpaceStripsAway(s: string)
    requires AllSpace(s)
    ensures StripLeading(s) == []
    decreases |s|
  {
    if s != [] {
      assert IsSpace(s[0]);
      assert forall k :: 0 <= k < |s| - 1 ==> s[1..][k] == s[k + 1];
      AllSpaceStripsAway(s[1..]);
    }
  }

  /** An id is blank after stripping exactly when it is made of spaces only. */
  lemma StripEmptyIff(s: string)
    ensures Strip(s) == [] <==> AllSpace(s)
  {
    var i, j := StripIsSlice(s);
    StripCutsSpaces(s);
    if AllSpace(s) {
      AllSpaceStripsAway(s);
    }
    if Strip(s) == [] {
      // A non-empty lstrip result starts with a non-space, which rstrip
      // would keep; so the leading strip already took everything.
      assert i == |s|;
      forall k | 0 <= k < |s| ensures IsSpace(s[k]) {
        assert s[..i][k] == s[k];
      }
    }
  }

  /** Stripping twice strips nothing more. */
  lemma StripIdempotent(s: string)
    ensures Strip(Strip(s)) == Strip(s)
  {
    var t := Strip(s);
    var l := StripLeading(t);
    if t != [] {
      assert !IsSpace(t[0]);
      assert l == t;
      assert !IsSpace(t[|t| - 1]);
    }
  }

  function DigitChar(d: nat): (c: char)
    requires d < 10
    ensures IsAsciiDigit(c)
  {
    (d + '0' as int) as char
  }

  function DigitValue(c: char): nat
    requires IsAsciiDigit(c)
  {
    (c as int) - ('0' as int)
  }

  /** `f"{n}"` for a non-negative int: decimal digits, most significant first. */
  function DecimalString(n: nat): (s: string)
    ensures |s| >= 1 && forall i :: 0 <= i < |s| ==> IsAsciiDigit(s[i])
    ensures n > 0 ==> s[0] != '0'
  {
    if n < 10 then [DigitChar(n)] else DecimalString(n / 10) + [DigitChar(n % 10)]
  }

  /** The value of a string of decimal digits. */
  function DecimalValue(s: string): nat
    requires forall i :: 0 <= i < |s| ==> IsAsciiDigit(s[i])
  {
    if s == [] then 0 else 10 * DecimalValue(s[..|s| - 1]) + DigitValue(s[|s| - 1])
  }

  /** The rendering of a count reads back as that count. */
  lemma {:induction false} DecimalRoundTrip(n: nat)
    ensures DecimalValue(DecimalString(n)) == n
  {
    var s := DecimalString(n);
    if n >= 10 {
      DecimalRoundTrip(n / 10);
      assert s[..|s| - 1] == DecimalString(n / 10);
    }
  }

  /** The characters at which `str.splitlines()` ends a line. */
  predicate IsLineBreak(c: char) {
    || c == '\n' || c == '\r' || c == '\U{0B}' || c == '\U{0C}'
    || ('\U{1C}' <= c <= '\U{1E}')
    || c == '\U{85}' || c == '\U{2028}' || c == '\U{2029}'
  }

  /** Every character that ends a line for `splitlines()` is also one that
      `strip()` removes. */
  lemma LineBreakIsSpace(c: char)
    ensures IsLineBreak(c) ==> IsSpace(c)
  {
  }

  /** The position of the first line break at or after `from`, or |s|. */
  function NextBreak(s: string, from: nat): (k: nat)
    requires from <= |s|
    ensures from <= k <= |s|
    ensures forall i :: from <= i < k ==> !IsLineBreak(s[i])
    ensures k < |s| ==> IsLineBreak(s[k])
    decreases |s| - from
  {
    if from == |s| || IsLineBreak(s[from]) then from else NextBreak(s, from + 1)
  }

  /** `s.splitlines()`: the lines without their terminators; "\r\n" ends one
      line, and a final terminator does not start an empty last line. */
  function SplitLines(s: string): (lines: seq<string>)
    ensures forall l, i :: 0 <= l < |lines| && 0 <= i < |lines[l]| ==> !IsLineBreak(lines[l][i])
    decreases |s|
  {
    if s == [] then []
    else
      var k := NextBreak(s, 0);
      if k == |s| then [s]
      else
        var next := if s[k] == '\r' && k + 1 < |s| && s[k + 1] == '\n' then k + 2 else k + 1;
        [s[..k]] + SplitLines(s[next..])
  }

  /** Lines written one per row, each followed by "\n". */
  function JoinLines(lines: seq<string>): string {
    if lines == [] then [] else lines[0] + "\n" + JoinLines(lines[1..])
  }

  /** Splitting a file written one id per row gives back the rows. */
  lemma {:induction false} SplitJoinRoundTrip(lines: seq<string>)
    requires forall l, i :: 0 <= l < |lines| && 0 <= i < |lines[l]| ==> !IsLineBreak(lines[l][i])
    ensures SplitLines(JoinLines(lines)) == lines
  {
    if lines != [] {
      var s := JoinLines(lines);
      var first := lines[0];
      var rest := JoinLines(lines[1..]);
      var k := |first|;
      assert s == first + "\n" + rest;
      assert s[..k] == first;
      assert s[k] == '\n';
      assert s[k + 1..] == rest;
      forall i | 0 <= i < k ensures !IsLineBreak(s[i]) {
        assert s[i] == first[i];
      }
      NextBreakIs(s, 0, k);
      assert SplitLines(s) == [first] + SplitLines(rest);
      forall l, i | 0 <= l < |lines[1..]| && 0 <= i < |lines[1..][l]| ensures !IsLineBreak(lines[1..][l][i]) {
        assert lines[1..][l] == lines[l + 1];
      }
      SplitJoinRoundTrip(lines[1..]);
      assert lines == [first] + lines[1..];
    }
  }

  /** The first break at or after `from` is the one at m when none lies between. */
  lemma {:induction false} NextBreakIs(s: string, from: nat, m: nat)
    requires from <= m < |s| && IsLineBreak(s[m])
    requires forall i :: from <= i < m ==> !IsLineBreak(s[i])
    ensures NextBreak(s, from) == m
    decreases m - from
  {
    if from < m {
      NextBreakIs(s, from + 1, m);
    }
  }
}
