/** `parse_range`: reads a cell such as `<5`, `≥6.5; ≤9.5` or `2500` as a pair of optional bounds. */
module Intervals {
  import opened Results
  import opened Text
  import opened Decimals
  import opened Models

  const LessThan: char := '<'
  const AtMost: char := '\U{2264}'     // ≤
  const GreaterThan: char := '>'
  const AtLeast: char := '\U{2265}'    // ≥

  /** The characters a range may start with: a comparator or an ASCII digit. */
  predicate IsRangeStart(c: char)
  {
    c == LessThan || c == AtMost || c == GreaterThan || c == AtLeast || IsDigit(c)
  }

  /** The digits and dots of a string, in order, everything else dropped. */
  function NumCharsOf(t: string): (r: string)
    ensures AllNumChars(r)
  {
    if t == [] then []
    else if IsNumChar(t[0]) then [t[0]] + NumCharsOf(t[1..])
    else NumCharsOf(t[1..])
  }

  /**
   * The bound text collected from position `p` on: whitespace is skipped,
   * digits and dots are kept, and the first other character ends the scan.
   */
  function ScanFrom(s: string, p: nat): (r: string)
    requires p <= |s|
    decreases |s| - p
  {
    if p == |s| then []
    else if IsSpace(s[p]) then ScanFrom(s, p + 1)
    else if !IsNumChar(s[p]) then []
    else [s[p]] + ScanFrom(s, p + 1)
  }

  /**
   * The scan keeps exactly the digits and dots of the longest stretch from `p`
   * made of digits, dots and whitespace.
   */
  lemma {:induction false} ScanFromIsRun(s: string, p: nat, q: nat)
    requires p <= q <= |s|
    requires forall i :: p <= i < q ==> IsNumChar(s[i]) || IsSpace(s[i])
    requires q == |s| || !(IsNumChar(s[q]) || IsSpace(s[q]))
    ensures ScanFrom(s, p) == NumCharsOf(s[p..q])
    decreases q - p
  {
    if p < q {
      ScanFromIsRun(s, p + 1, q);
      assert s[p..q][1..] == s[p + 1..q];
      assert !(IsSpace(s[p]) && IsNumChar(s[p]));
    }
  }

  /**
   * One plus the position of the first `strict` comparator, or else of the
   * first `loose` one, or 0 when the text has neither: `(1 + find(a)) or (1 + find(b))`.
   */
  function ComparatorEnd(s: string, strict: char, loose: char): (p: nat)
    ensures p <= |s|
    ensures strict in s ==> p == Find(s, strict) + 1
    ensures strict !in s ==> p == Find(s, loose) + 1
  {
    if Find(s, strict) >= 0 then Find(s, strict) + 1 else Find(s, loose) + 1
  }

  /** The scan keeps digits and dots only. */
  lemma {:induction false} ScanFromNumChars(s: string, p: nat)
    requires p <= |s|
    ensures AllNumChars(ScanFrom(s, p))
    decreases |s| - p
  {
    if p < |s| {
      ScanFromNumChars(s, p + 1);
      if !IsSpace(s[p]) && IsNumChar(s[p]) {
        assert ([s[p]] + ScanFrom(s, p + 1))[1..] == ScanFrom(s, p + 1);
      }
    }
  }

  /**
   * The text scanned after the comparator of one side, empty when there is
   * none: only digits and dots, and never anything without a comparator.
   */
  function BoundText(s: string, strict: char, loose: char): (r: string)
    ensures AllNumChars(r)
    ensures r != [] ==> strict in s || loose in s
  {
    var p := ComparatorEnd(s, strict, loose);
    if p == 0 then [] else ScanFromNumChars(s, p); ScanFrom(s, p)
  }

  /** `float(t) if t else None` on a scanned bound text. */
  function BoundOf(t: string): (r: Result<Option<real>, Error>)
    ensures r == Ok(None) <==> t == []
    ensures r.Ok? && r.value.Some? ==> DecimalOf(t) == r.value
    ensures r.Err? <==> t != [] && DecimalOf(t).None?
    ensures r.Err? ==> r.error == NotAFloat(t)
  {
    if t == [] then Ok(None)
    else match DecimalOf(t)
      case None => Err(NotAFloat(t))
      case Some(x) => Ok(Some(x))
  }

  /**
   * What `parse_range(text)` returns or raises. A success always has at least
   * one bound; only the empty text indexes past its end; the first character
   * is tested as it stands, without stripping.
   */
  function RangeOf(text: string): (r: Result<Bounds, Error>)
    ensures r.Ok? ==> r.value.low.Some? || r.value.high.Some?
    ensures r == Err(IndexOutOfRange) <==> text == []
    ensures r == Err(CannotConvert(text)) <==> FloatOf(text).None? && text != [] && !IsRangeStart(text[0])
    ensures r.Ok? && FloatOf(text).None? ==>
      (r.value.low.Some? ==> r.value.low.value >= 0.0) && (r.value.high.Some? ==> r.value.high.value >= 0.0)
  {
    match FloatOf(text)
    case Some(x) => Ok(Bounds(None, Some(x)))
    case None =>
      if text == [] then Err(IndexOutOfRange)
      else if !IsRangeStart(text[0]) then Err(CannotConvert(text))
      else
        var high := BoundText(text, LessThan, AtMost);
        var low := BoundText(text, GreaterThan, AtLeast);
        match BoundOf(low)
        case Err(e) => Err(e)
        case Ok(left) =>
          match BoundOf(high)
          case Err(e) => Err(e)
          case Ok(right) =>
            if left.None? && right.None? then Err(NoBound(text))
            else Ok(Bounds(left, right))
  }

  /** `parse_range` as the source runs it: each comparator scan is a loop that appends characters. */
  method ParseRange(text: string) returns (r: Result<Bounds, Error>)
    ensures r == RangeOf(text)
  {
    var parsed := FloatOf(text);
    if parsed.Some? {
      return Ok(Bounds(None, parsed));
    }
    if |text| == 0 {
      return Err(IndexOutOfRange);
    }
    if !IsRangeStart(text[0]) {
      return Err(CannotConvert(text));
    }
    var high := ScanAfter(text, LessThan, AtMost);
    var low := ScanAfter(text, GreaterThan, AtLeast);

    var left: Option<real> := None;
    if low != "" {
      left := DecimalOf(low);
      if left.None? {
        return Err(NotAFloat(low));
      }
    }
    var right: Option<real> := None;
    if high != "" {
      right := DecimalOf(high);
      if right.None? {
        return Err(NotAFloat(high));
      }
    }
    if left.None? && right.None? {
      return Err(NoBound(text));
    }
    return Ok(Bounds(left, right));
  }

  /** Finds the comparator of one side and collects the bound text after it. */
  method ScanAfter(text: string, strict: char, loose: char) returns (bound: string)
    ensures bound == BoundText(text, strict, loose)
  {
    bound := "";
    var pos := 1 + Find(text, strict);
    if pos == 0 {
      pos := 1 + Find(text, loose);
    }
    assert pos == ComparatorEnd(text, strict, loose);
    if pos != 0 {
      bound := ScanLoop(text, pos);
    }
  }

  /** The loop after a comparator: skips whitespace, appends digits and dots, stops at anything else. */
  method ScanLoop(text: string, pos: nat) returns (bound: string)
    requires pos <= |text|
    ensures bound == ScanFrom(text, pos)
  {
    bound := "";
    for i := pos to |text|
      invariant bound + ScanFrom(text, i) == ScanFrom(text, pos)
    {
      if IsSpace(text[i]) {
        continue;
      }
      if !IsNumChar(text[i]) {
        assert ScanFrom(text, i) == [];
        assert bound + [] == bound;
        break;
      }
      assert ScanFrom(text, i) == [text[i]] + ScanFrom(text, i + 1);
      assert (bound + [text[i]]) + ScanFrom(text, i + 1) == bound + ([text[i]] + ScanFrom(text, i + 1));
      bound := bound + [text[i]];
    }
  }

  /** A bare decimal number is read as an upper bound only. */
  lemma BareNumberIsUpperBound(t: string)
    requires DecimalOf(t).Some?
    ensures RangeOf(t) == Ok(Bounds(None, DecimalOf(t)))
  {
    FloatOfNumChars(t);
  }

  /**
   * The bound text of one side is read after the first `strict` comparator, or
   * after the first `loose` one when there is no `strict` one anywhere: it is
   * the digits and dots of the stretch of digits, dots and whitespace that follows.
   */
  lemma BoundTextAfterComparator(s: string, strict: char, loose: char, p: nat, q: nat)
    requires p < |s|
    requires (s[p] == strict && strict !in s[..p]) || (strict !in s && s[p] == loose && loose !in s[..p])
    requires p + 1 <= q <= |s|
    requires forall i :: p + 1 <= i < q ==> IsNumChar(s[i]) || IsSpace(s[i])
    requires q == |s| || !(IsNumChar(s[q]) || IsSpace(s[q]))
    ensures BoundText(s, strict, loose) == NumCharsOf(s[p + 1..q])
  {
    if s[p] == strict && strict !in s[..p] {
      assert strict in s;
      FindFirst(s, strict, p);
    } else {
      assert loose in s;
      FindFirst(s, loose, p);
    }
    ScanFromIsRun(s, p + 1, q);
  }

  /** A side whose comparators do not occur in the text has no bound. */
  lemma NoComparatorNoBound(s: string, strict: char, loose: char)
    requires strict !in s && loose !in s
    ensures BoundText(s, strict, loose) == []
  {
  }

  lemma FindFirst(s: string, c: char, p: nat)
    requires p < |s| && s[p] == c && c !in s[..p]
    ensures Find(s, c) == p
  {
  }

  /**
   * In a range that is not a bare number, a bound is present only when a
   * comparator of its side occurs in the text.
   */
  lemma BoundsNeedComparators(text: string)
    requires FloatOf(text).None? && RangeOf(text).Ok?
    ensures RangeOf(text).value.high.Some? ==> LessThan in text || AtMost in text
    ensures RangeOf(text).value.low.Some? ==> GreaterThan in text || AtLeast in text
  {
    if LessThan !in text && AtMost !in text {
      NoComparatorNoBound(text, LessThan, AtMost);
    }
    if GreaterThan !in text && AtLeast !in text {
      NoComparatorNoBound(text, GreaterThan, AtLeast);
    }
  }

  lemma {:induction false} NumCharsOfSpacesThenRun(w: string, t: string)
    requires forall i :: 0 <= i < |w| ==> IsSpace(w[i])
    requires AllNumChars(t)
    ensures NumCharsOf(w + t) == t
  {
    if w != [] {
      assert (w + t)[1..] == w[1..] + t;
      assert IsSpace(w[0]);
      assert !IsNumChar(w[0]);
      assert forall i :: 0 <= i < |w[1..]| ==> IsSpace(w[1..][i]) by {
        forall i | 0 <= i < |w[1..]| ensures IsSpace(w[1..][i]) { assert w[1..][i] == w[i + 1]; }
      }
      NumCharsOfSpacesThenRun(w[1..], t);
    } else if t != [] {
      assert w + t == t;
      assert t[1..] == [] + t[1..];
      NumCharsOfSpacesThenRun([], t[1..]);
    }
  }

  predicate IsComparator(c: char)
  {
    c == LessThan || c == AtMost || c == GreaterThan || c == AtLeast
  }

  /** `c + w + t`: a comparator, whitespace, then a decimal literal. */
  ghost predicate ComparatorForm(s: string, c: char, w: string, t: string)
  {
    && IsComparator(c)
    && (forall i :: 0 <= i < |w| ==> IsSpace(w[i]))
    && DecimalOf(t).Some?
    && s == [c] + w + t
  }

  lemma ComparatorFormChars(s: string, c: char, w: string, t: string)
    requires ComparatorForm(s, c, w, t)
    ensures forall i :: 1 <= i < |s| ==> IsNumChar(s[i]) || IsSpace(s[i])
    ensures s[1..] == w + t && s[0] == c && IsNumChar(s[|s| - 1])
  {
    AllNumCharsAt(t);
    forall i | 1 <= i < |s| ensures IsNumChar(s[i]) || IsSpace(s[i]) {
      if i < 1 + |w| { assert s[i] == w[i - 1]; } else { assert s[i] == t[i - 1 - |w|]; }
    }
    assert s[|s| - 1] == t[|t| - 1];
  }

  lemma ComparatorFormOthersAbsent(s: string, c: char, w: string, t: string, d: char)
    requires ComparatorForm(s, c, w, t)
    requires IsComparator(d) && d != c
    ensures d !in s
  {
    ComparatorFormChars(s, c, w, t);
  }

  lemma ComparatorFormNotFloat(s: string, c: char, w: string, t: string)
    requires ComparatorForm(s, c, w, t)
    ensures FloatOf(s).None?
  {
    ComparatorFormChars(s, c, w, t);
    assert StripLeft(s) == s;
    assert StripRight(s) == s;
    assert !AllNumChars(s);
  }

  lemma ComparatorFormScan(s: string, c: char, w: string, t: string, strict: char, loose: char)
    requires ComparatorForm(s, c, w, t)
    requires IsComparator(strict) && IsComparator(loose) && strict != loose
    ensures c == strict || c == loose ==> BoundText(s, strict, loose) == t
    ensures c != strict && c != loose ==> BoundText(s, strict, loose) == []
  {
    if c == strict || c == loose {
      ComparatorFormScanFound(s, c, w, t, strict, loose);
    } else {
      ComparatorFormChars(s, c, w, t);
      ComparatorFormOthersAbsent(s, c, w, t, strict);
      ComparatorFormOthersAbsent(s, c, w, t, loose);
    }
  }

  lemma ComparatorFormScanFound(s: string, c: char, w: string, t: string, strict: char, loose: char)
    requires ComparatorForm(s, c, w, t)
    requires IsComparator(strict) && IsComparator(loose) && strict != loose
    requires c == strict || c == loose
    ensures BoundText(s, strict, loose) == t
  {
    ComparatorFormChars(s, c, w, t);
    if c != strict {
      ComparatorFormOthersAbsent(s, c, w, t, strict);
    }
    FindFirst(s, c, 0);
    ScanFromIsRun(s, 1, |s|);
    assert s[1..|s|] == w + t;
    NumCharsOfSpacesThenRun(w, t);
  }

  /**
   * A comparator, optional whitespace and a decimal literal: `<` and `≤` give
   * an upper bound only, `>` and `≥` a lower bound only.
   */
  lemma ComparatorThenNumber(c: char, w: string, t: string)
    requires IsComparator(c)
    requires forall i :: 0 <= i < |w| ==> IsSpace(w[i])
    requires DecimalOf(t).Some?
    ensures c == LessThan || c == AtMost ==> RangeOf([c] + w + t) == Ok(Bounds(None, DecimalOf(t)))
    ensures c == GreaterThan || c == AtLeast ==> RangeOf([c] + w + t) == Ok(Bounds(DecimalOf(t), None))
  {
    var s := [c] + w + t;
    assert ComparatorForm(s, c, w, t);
    ComparatorFormNotFloat(s, c, w, t);
    ComparatorFormScan(s, c, w, t, LessThan, AtMost);
    ComparatorFormScan(s, c, w, t, GreaterThan, AtLeast);
    assert s[0] == c;
  }

  /** `parse_range('0') == (None, 0)`. */
  lemma RangeOfZero()
    ensures RangeOf("0") == Ok(Bounds(None, Some(0.0)))
  {
    LiteralZero();
    BareNumberIsUpperBound("0");
  }

  /** `parse_range('0.0020') == (None, 0.002)`: trailing zeros do not matter. */
  lemma RangeOfTrailingZeros()
    ensures RangeOf("0.0020") == Ok(Bounds(None, Some(0.002)))
  {
    LiteralSmall();
    BareNumberIsUpperBound("0.0020");
  }

  /** `parse_range('≤0.002') == (None, 0.002)`. */
  lemma RangeOfAtMost()
    ensures RangeOf("\U{2264}0.002") == Ok(Bounds(None, Some(0.002)))
  {
    AtMostSmall();
    SpellAtMost();
  }

  lemma SpellAtMost()
    ensures [AtMost] + "" + "0.002" == "\U{2264}0.002"
  {
  }

  lemma AtMostSmall()
    ensures RangeOf([AtMost] + "" + "0.002") == Ok(Bounds(None, Some(0.002)))
  {
    LiteralSmall();
    ComparatorThenNumber(AtMost, "", "0.002");
  }

  /** `parse_range('≥0.002') == (0.002, None)`. */
  lemma RangeOfAtLeast()
    ensures RangeOf("\U{2265}0.002") == Ok(Bounds(Some(0.002), None))
  {
    AtLeastSmall();
    SpellAtLeast();
  }

  lemma SpellAtLeast()
    ensures [AtLeast] + "" + "0.002" == "\U{2265}0.002"
  {
  }

  lemma AtLeastSmall()
    ensures RangeOf([AtLeast] + "" + "0.002") == Ok(Bounds(Some(0.002), None))
  {
    LiteralSmall();
    ComparatorThenNumber(AtLeast, "", "0.002");
  }

  /** Free text is refused with the message `test_parse_range` expects. */
  lemma RangeOfText()
    ensures RangeOf("Acceptabil") == Err(CannotConvert("Acceptabil"))
    ensures Message(CannotConvert("Acceptabil")) == "Cannot convert value \"Acceptabil\" into range."
  {
    var text := "Acceptabil";
    assert text[0] == 'A';
    NonNumericText(text);
    AcceptabilMessage();
  }

  lemma AcceptabilMessage()
    ensures Message(CannotConvert("Acceptabil")) == "Cannot convert value \"Acceptabil\" into range."
  {
  }

  /** `≥l; ≤h`: a lower and an upper comparator, each followed by a decimal literal. */
  function TwoSided(l: string, h: string): string
  {
    [AtLeast] + l + "; " + [AtMost] + h
  }

  lemma TwoSidedChars(l: string, h: string)
    requires DecimalOf(l).Some? && DecimalOf(h).Some?
    ensures var s := TwoSided(l, h);
      && s[0] == AtLeast && s[1..1 + |l|] == l && s[1 + |l|] == ';' && s[2 + |l|] == ' '
      && s[3 + |l|] == AtMost && s[4 + |l|..] == h && |s| == 4 + |l| + |h|
  {
  }

  lemma TwoSidedComparators(l: string, h: string)
    requires DecimalOf(l).Some? && DecimalOf(h).Some?
    ensures LessThan !in TwoSided(l, h) && GreaterThan !in TwoSided(l, h)
    ensures AtMost !in TwoSided(l, h)[..3 + |l|]
  {
    var s := TwoSided(l, h);
    AllNumCharsAt(l);
    AllNumCharsAt(h);
    TwoSidedChars(l, h);
    forall i | 0 <= i < |s| ensures s[i] != LessThan && s[i] != GreaterThan && (i < 3 + |l| ==> s[i] != AtMost) {
      if 1 <= i < 1 + |l| {
        assert s[i] == l[i - 1];
      } else if 4 + |l| <= i {
        assert s[i] == h[i - 4 - |l|];
      }
    }
  }

  lemma TwoSidedRuns(l: string, h: string)
    requires DecimalOf(l).Some? && DecimalOf(h).Some?
    ensures var s := TwoSided(l, h);
      && (forall i :: 1 <= i < 1 + |l| ==> IsNumChar(s[i]) || IsSpace(s[i]))
      && (forall i :: 4 + |l| <= i < |s| ==> IsNumChar(s[i]) || IsSpace(s[i]))
  {
    var s := TwoSided(l, h);
    AllNumCharsAt(l);
    AllNumCharsAt(h);
    TwoSidedChars(l, h);
    forall i | 1 <= i < 1 + |l| ensures IsNumChar(s[i]) {
      assert s[i] == l[i - 1];
    }
    forall i | 4 + |l| <= i < |s| ensures IsNumChar(s[i]) {
      assert s[i] == h[i - 4 - |l|];
    }
  }

  /** `≥l; ≤h` is not a number and starts with a comparator. */
  lemma TwoSidedNotFloat(l: string, h: string)
    requires DecimalOf(l).Some? && DecimalOf(h).Some?
    ensures var s := TwoSided(l, h); s != [] && IsRangeStart(s[0]) && FloatOf(s).None?
  {
    var s := TwoSided(l, h);
    TwoSidedChars(l, h);
    AllNumCharsAt(h);
    assert s[|s| - 1] == h[|h| - 1];
    NonNumericText(s);
  }

  /** The scan after `≤` in `≥l; ≤h` finds `h`. */
  lemma TwoSidedHigh(l: string, h: string)
    requires DecimalOf(l).Some? && DecimalOf(h).Some?
    ensures BoundText(TwoSided(l, h), LessThan, AtMost) == h
  {
    var s := TwoSided(l, h);
    TwoSidedChars(l, h);
    TwoSidedComparators(l, h);
    TwoSidedRuns(l, h);
    BoundTextAfterComparator(s, LessThan, AtMost, 3 + |l|, |s|);
    assert s[4 + |l|..|s|] == h;
    NumCharsOfSpacesThenRun([], h);
    assert [] + h == h;
  }

  /** The scan after `≥` in `≥l; ≤h` finds `l`. */
  lemma TwoSidedLow(l: string, h: string)
    requires DecimalOf(l).Some? && DecimalOf(h).Some?
    ensures BoundText(TwoSided(l, h), GreaterThan, AtLeast) == l
  {
    var s := TwoSided(l, h);
    TwoSidedChars(l, h);
    TwoSidedComparators(l, h);
    TwoSidedRuns(l, h);
    BoundTextAfterComparator(s, GreaterThan, AtLeast, 0, 1 + |l|);
    NumCharsOfSpacesThenRun([], l);
    assert [] + l == l;
  }

  /**
   * Past the number test and the first-character test, the range is read off
   * the two scans, low side first: a scan that is not a literal is refused,
   * two empty scans raise `NoBound`, and otherwise the bounds are the scans'
   * readings, whatever text follows them.
   */
  lemma RangeOfScans(text: string)
    requires text != [] && IsRangeStart(text[0]) && FloatOf(text).None?
    ensures var low := BoundOf(BoundText(text, GreaterThan, AtLeast));
      var high := BoundOf(BoundText(text, LessThan, AtMost));
      RangeOf(text) ==
        if low.Err? then Err(low.error)
        else if high.Err? then Err(high.error)
        else if low.value.None? && high.value.None? then Err(NoBound(text))
        else Ok(Bounds(low.value, high.value))
  {
  }

  /** `≥l; ≤h` gives both bounds, `l` as the low one and `h` as the high one. */
  lemma TwoSidedBounds(l: string, h: string)
    requires DecimalOf(l).Some? && DecimalOf(h).Some?
    ensures RangeOf(TwoSided(l, h)) == Ok(Bounds(DecimalOf(l), DecimalOf(h)))
  {
    TwoSidedNotFloat(l, h);
    TwoSidedHigh(l, h);
    TwoSidedLow(l, h);
    RangeOfScans(TwoSided(l, h));
  }

  /** Both comparators of `≥6.5; ≤9.5` are honoured. */
  lemma TwoSidedExample()
    ensures RangeOf("\U{2265}6.5; \U{2264}9.5") == Ok(Bounds(Some(6.5), Some(9.5)))
  {
    LiteralsPh();
    TwoSidedBounds("6.5", "9.5");
    SpellPhRange();
  }

  lemma SpellPhRange()
    ensures TwoSided("6.5", "9.5") == "\U{2265}6.5; \U{2264}9.5"
  {
  }
}
