/** The search `re.search(r'([0-9]{3}[A-Za-z][0-9]+)', text)` that pulls a
    national-exam question code (such as "110A12") out of the second `h4`
    heading, written as a hand-made matcher: the leftmost position where the
    pattern can start wins, and the trailing digit run is taken greedily. */
module QuestionCode {
  import opened Sequences
  import opened Text

  /** The pattern can start at i: three digits, a letter, and at least one digit. */
  predicate CodeAt(s: string, i: nat) {
    && i + 5 <= |s|
    && IsAsciiDigit(s[i]) && IsAsciiDigit(s[i + 1]) && IsAsciiDigit(s[i + 2])
    && IsAsciiLetter(s[i + 3])
    && IsAsciiDigit(s[i + 4])
  }

  /** A whole string that the pattern matches from end to end. */
  predicate IsCode(m: string) {
    && |m| >= 5
    && IsAsciiDigit(m[0]) && IsAsciiDigit(m[1]) && IsAsciiDigit(m[2])
    && IsAsciiLetter(m[3])
    && forall i :: 4 <= i < |m| ==> IsAsciiDigit(m[i])
  }

  /** Where the greedy `[0-9]+` stops when it begins at k: the end of the
      longest run of digits starting there. */
  function DigitRunEnd(s: string, k: nat): (e: nat)
    requires k <= |s|
    ensures k <= e <= |s|
    ensures forall i :: k <= i < e ==> IsAsciiDigit(s[i])
    ensures e == |s| || !IsAsciiDigit(s[e])
    decreases |s| - k
  {
    if k < |s| && IsAsciiDigit(s[k]) then DigitRunEnd(s, k + 1) else k
  }

  /** The half-open span s[start..end] of a match. */
  datatype Span = Span(start: nat, end: nat)

  /** The first match at or after `from`. */
  function SearchFrom(s: string, from: nat): (r: Option<Span>)
    requires from <= |s|
    ensures r.None? ==> forall i :: from <= i <= |s| ==> !CodeAt(s, i)
    ensures r.Some? ==>
      && from <= r.value.start
      && CodeAt(s, r.value.start)
      && (forall i :: from <= i < r.value.start ==> !CodeAt(s, i))
      && r.value.end == DigitRunEnd(s, r.value.start + 4)
    decreases |s| - from
  {
    if from == |s| then None
    else if CodeAt(s, from) then Some(Span(from, DigitRunEnd(s, from + 4)))
    else SearchFrom(s, from + 1)
  }

  /** `re.search` followed by `.group(1)`: the matched text, if any. */
  function FindCode(s: string): (r: Option<string>)
    ensures r.None? <==> forall i :: 0 <= i <= |s| ==> !CodeAt(s, i)
    ensures r.Some? ==> IsCode(r.value)
  {
    match SearchFrom(s, 0)
    case None => None
    case Some(span) => Some(s[span.start..span.end])
  }

  /** The match is the leftmost one and cannot be extended: it occurs in s at
      a position before which the pattern never starts, and the character
      after it, if any, is not a digit. */
  lemma FindCodeLeftmostLongest(s: string) returns (start: nat)
    requires FindCode(s).Some?
    ensures var m := FindCode(s).value;
      && start + |m| <= |s|
      && s[start..start + |m|] == m
      && (forall i :: 0 <= i < start ==> !CodeAt(s, i))
      && (start + |m| == |s| || !IsAsciiDigit(s[start + |m|]))
  {
    start := SearchFrom(s, 0).value.start;
  }

  /** The example of the regular expression's documentation in the scraper's
      terms: the code found in "1234A5" starts at the second digit. */
  lemma FindCodeExample()
    ensures FindCode("1234A5") == Some("234A5")
    ensures FindCode("第110A12問") == Some("110A12")
    ensures FindCode("問題番号なし") == None
  {
    var a := "1234A5";
    assert !CodeAt(a, 0) && CodeAt(a, 1);
    assert DigitRunEnd(a, 6) == 6;
    assert DigitRunEnd(a, 5) == 6;
    assert SearchFrom(a, 0) == SearchFrom(a, 1) == Some(Span(1, 6));
    assert a[1..6] == "234A5";
    var b := "第110A12問";
    assert !CodeAt(b, 0) && CodeAt(b, 1);
    assert DigitRunEnd(b, 7) == 7;
    assert DigitRunEnd(b, 6) == 7;
    assert DigitRunEnd(b, 5) == 7;
    assert SearchFrom(b, 0) == SearchFrom(b, 1) == Some(Span(1, 7));
    assert b[1..7] == "110A12";
  }
}
