/** Character classes and the few `str` methods the parsers rely on. */
module Text {

  /** ASCII digits only: the Unicode digits that `str.isdigit` also accepts are not modelled. */
  predicate IsDigit(c: char) { '0' <= c <= '9' }

  /** The characters the numeric scanners collect: a digit or a dot. */
  predicate IsNumChar(c: char) { IsDigit(c) || c == '.' }

  /**
   * The ASCII characters that `str.isspace`, `str.strip` and `float()` treat as
   * whitespace: space, tab, the line breaks, vertical tab, form feed and the
   * four separators U+001C to U+001F.
   */
  predicate IsSpace(c: char)
  {
    c == ' ' || c == '\t' || c == '\n' || c == '\r' || c == '\U{000B}' || c == '\U{000C}'
    || ('\U{001C}' <= c <= '\U{001F}')
  }

  /** `s.isdigit()`: non-empty and made of digits only. */
  predicate IsDigitString(s: string)
  {
    |s| > 0 && AllDigits(s)
  }

  predicate AllDigits(s: string)
  {
    s == [] || (IsDigit(s[0]) && AllDigits(s[1..]))
  }

  predicate AllNumChars(s: string)
  {
    s == [] || (IsNumChar(s[0]) && AllNumChars(s[1..]))
  }

  lemma {:induction false} AllNumCharsAt(s: string)
    ensures AllNumChars(s) <==> forall i :: 0 <= i < |s| ==> IsNumChar(s[i])
  {
    if s != [] {
      AllNumCharsAt(s[1..]);
      assert forall i :: 1 <= i < |s| ==> s[i] == s[1..][i - 1];
    }
  }

  lemma {:induction false} AllNumCharsConcat(a: string, b: string)
    ensures AllNumChars(a + b) <==> AllNumChars(a) && AllNumChars(b)
  {
    if a != [] {
      assert (a + b)[1..] == a[1..] + b;
      AllNumCharsConcat(a[1..], b);
    } else {
      assert a + b == b;
    }
  }

  /** `s.startswith(p)`. */
  predicate StartsWith(s: string, p: string)
  {
    |p| <= |s| && s[..|p|] == p
  }

  /** `s.find(c)` for a single character: the index of its first occurrence, or -1. */
  function Find(s: string, c: char): (r: int)
    ensures -1 <= r < |s|
    ensures r == -1 <==> c !in s
    ensures r >= 0 ==> s[r] == c && c !in s[..r]
  {
    if s == [] then -1
    else if s[0] == c then 0
    else
      var k := Find(s[1..], c);
      assert s[1..][..k + 1] == s[1..k + 2] by { }
      if k == -1 then -1 else k + 1
  }

  /** Neither the first nor the last character of `s` is a space. */
  predicate IsStripped(s: string)
  {
    s == [] || (!IsSpace(s[0]) && !IsSpace(s[|s| - 1]))
  }

  function StripLeft(s: string): (r: string)
    ensures |r| <= |s| && r == s[|s| - |r|..]
    ensures r == [] || !IsSpace(r[0])
    ensures forall i :: 0 <= i < |s| - |r| ==> IsSpace(s[i])
  {
    if s != [] && IsSpace(s[0]) then StripLeft(s[1..]) else s
  }

  function StripRight(s: string): (r: string)
    ensures |r| <= |s| && r == s[..|r|]
    ensures r == [] || !IsSpace(r[|r| - 1])
    ensures forall i :: |r| <= i < |s| ==> IsSpace(s[i])
  {
    if s != [] && IsSpace(s[|s| - 1]) then StripRight(s[..|s| - 1]) else s
  }

  /** `s.strip()`: removes the whitespace at both ends and nothing else. */
  function Strip(s: string): (r: string)
    ensures IsStripped(r)
  {
    if s != [] && IsSpace(s[0]) then Strip(s[1..]) else StripRight(s)
  }

  /**
   * `strip()` is the right strip of the left strip: it removes the leading and
   * the trailing whitespace, and the characters in between stay as they are.
   */
  lemma {:induction false} StripBothEnds(s: string)
    ensures Strip(s) == StripRight(StripLeft(s))
  {
    if s != [] && IsSpace(s[0]) {
      StripBothEnds(s[1..]);
    }
  }

  /** A string that is already stripped comes back unchanged. */
  lemma StripStripped(s: string)
    requires IsStripped(s)
    ensures Strip(s) == s
  {
  }

  /** Joining a stripped string to an empty accumulator with a space gives it back. */
  lemma StripJoinEmpty(s: string)
    requires IsStripped(s)
    ensures Strip("" + " " + s) == s
  {
    assert ("" + " " + s)[1..] == s;
    if s != [] {
      assert StripLeft(" " + s) == s;
    }
  }
}
