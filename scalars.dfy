/** `parse_value`: reads a cell such as `45`, `4.3 / 4.4` or `<45` as one representative number. */
module Scalars {
  import opened Results
  import opened Text
  import opened Decimals
  import opened Models
  import opened Intervals

  /** The number of leading digits and dots, as the counting loop of `parse_value` finds it. */
  function LeadingRunLength(s: string): (n: nat)
    ensures n <= |s|
    ensures forall i :: 0 <= i < n ==> IsNumChar(s[i])
    ensures n < |s| ==> !IsNumChar(s[n])
  {
    if s != [] && IsNumChar(s[0]) then 1 + LeadingRunLength(s[1..]) else 0
  }

  /** `list(filter(None, range_))`: the bounds that are present and not zero, low first. */
  function TruthyBounds(b: Bounds): (r: seq<real>)
    ensures |r| == (if b.low.Some? && b.low.value != 0.0 then 1 else 0)
                 + (if b.high.Some? && b.high.value != 0.0 then 1 else 0)
    ensures forall x :: x in r <==> x != 0.0 && (b.low == Some(x) || b.high == Some(x))
    ensures |r| == 2 ==> b.low.Some? && b.high.Some? && r == [b.low.value, b.high.value]
  {
    (if b.low.Some? && b.low.value != 0.0 then [b.low.value] else [])
    + (if b.high.Some? && b.high.value != 0.0 then [b.high.value] else [])
  }

  /** `x % 1` on a Python float: the distance to the floor, never negative. */
  function Frac(x: real): (f: real)
    ensures 0.0 <= f < 1.0
    ensures x == x.Floor as real + f
  {
    x - x.Floor as real
  }

  /** `val % 1 / 100 or 0.01`: a hundredth of the fractional part, or 0.01 for a whole number. */
  function Epsilon(x: real): (e: real)
    ensures 0.0 < e <= 0.01
    ensures Frac(x) != 0.0 ==> e == Frac(x) / 100.0
  {
    var d := Frac(x) / 100.0;
    if d != 0.0 then d else 0.01
  }

  /** For a positive bound the nudge is smaller than the bound itself. */
  lemma EpsilonBelowPositive(x: real)
    requires x > 0.0
    ensures Epsilon(x) < x
  {
    var f := Frac(x);
    if f == 0.0 {
      assert x.Floor >= 1;
    } else {
      assert x.Floor >= 0;
    }
  }

  /**
   * The number read from a range: the single truthy bound moved by `Epsilon`
   * towards the open side. `directionByPresence` selects the side as the
   * source does (by whether the low bound is present at all); otherwise the
   * side is that of the bound that was kept.
   */
  function FromRange(text: string, b: Bounds, directionByPresence: bool): (r: Result<real, Error>)
    ensures r.Err? <==> |TruthyBounds(b)| != 1
    ensures r.Err? ==> r.error == NotSingleValue(text)
    ensures r.Ok? ==>
      r.value != TruthyBounds(b)[0] && TruthyBounds(b)[0] - 0.01 <= r.value <= TruthyBounds(b)[0] + 0.01
    ensures r.Ok? && b.low.None? ==> r.value < TruthyBounds(b)[0]
    ensures r.Ok? && b.low.Some? && b.low.value != 0.0 ==> r.value > TruthyBounds(b)[0]
    ensures r.Ok? && b.low.Some? && directionByPresence ==> r.value > TruthyBounds(b)[0]
  {
    var kept := TruthyBounds(b);
    if |kept| != 1 then Err(NotSingleValue(text))
    else
      var v := kept[0];
      var above := if directionByPresence then b.low.Some? else b.low.Some? && b.low.value != 0.0;
      Ok(if above then v + Epsilon(v) else v - Epsilon(v))
  }

  /**
   * `parse_value` with the nudge side left open: a leading run is read by
   * `float()` on its own, and otherwise the errors of `parse_range` propagate
   * and the range decides.
   */
  function ValueWith(text: string, directionByPresence: bool): (r: Result<real, Error>)
    ensures LeadingRunLength(text) > 0 && r.Ok? ==> FloatOf(text[..LeadingRunLength(text)]) == Some(r.value)
    ensures LeadingRunLength(text) > 0 && r.Err? ==> r.error == NotAFloat(text[..LeadingRunLength(text)])
    ensures LeadingRunLength(text) == 0 && RangeOf(text).Err? ==> r == Err(RangeOf(text).error)
    ensures LeadingRunLength(text) == 0 && RangeOf(text).Ok? ==>
      r == FromRange(text, RangeOf(text).value, directionByPresence)
  {
    var n := LeadingRunLength(text);
    if n > 0 then
      match FloatOf(text[..n])
      case Some(x) => Ok(x)
      case None => Err(NotAFloat(text[..n]))
    else
      match RangeOf(text)
      case Err(e) => Err(e)
      case Ok(b) => FromRange(text, b, directionByPresence)
  }

  /**
   * `parse_value` exactly as written: `if range_[0] is not None` picks the
   * side, so whenever a low bound is present the value lands above the kept
   * bound, even when that low bound is zero and it is the upper bound that
   * was kept.
   */
  function ValueOfAsWritten(text: string): (r: Result<real, Error>)
    ensures LeadingRunLength(text) == 0 && RangeOf(text).Ok? && RangeOf(text).value.low.Some? && r.Ok? ==>
      |TruthyBounds(RangeOf(text).value)| == 1 && r.value > TruthyBounds(RangeOf(text).value)[0]
  {
    ValueWith(text, true)
  }

  /**
   * `parse_value` with the side taken from the bound that was kept. A leading
   * run of digits and dots decides the result on its own; otherwise the range
   * must have exactly one truthy bound, and its errors propagate.
   */
  function ValueOf(text: string): (r: Result<real, Error>)
    ensures LeadingRunLength(text) > 0 ==>
      (r.Ok? <==> DecimalOf(text[..LeadingRunLength(text)]).Some?)
    ensures LeadingRunLength(text) == 0 && RangeOf(text).Err? ==> r == Err(RangeOf(text).error)
    ensures LeadingRunLength(text) == 0 && RangeOf(text).Ok? ==>
      (r == Err(NotSingleValue(text)) <==> |TruthyBounds(RangeOf(text).value)| != 1)
  {
    var n := LeadingRunLength(text);
    if n > 0 then AllNumCharsAt(text[..n]); FloatOfNumChars(text[..n]); ValueWith(text, false)
    else ValueWith(text, false)
  }

  /** The source's reading and the corrected one differ only on a range whose low bound is zero. */
  lemma AsWrittenAgrees(text: string)
    requires !(LeadingRunLength(text) == 0 && RangeOf(text).Ok? && RangeOf(text).value.low == Some(0.0))
    ensures ValueOfAsWritten(text) == ValueOf(text)
  {
    if LeadingRunLength(text) == 0 {
      ValueOfRange(text);
      if RangeOf(text).Ok? {
        AsWrittenRange(text);
      }
    } else {
      assert ValueOfAsWritten(text) == ValueWith(text, true) == ValueWith(text, false);
    }
  }

  /** The leading run decides: the value is that run read as a float, or an error naming it. */
  lemma ValueOfLeadingRun(text: string)
    requires LeadingRunLength(text) > 0
    ensures var p := text[..LeadingRunLength(text)];
      ValueOf(text) == if FloatOf(p).Some? then Ok(FloatOf(p).value) else Err(NotAFloat(p))
  {
  }

  /** Without a leading run, the range decides. */
  lemma ValueOfRange(text: string)
    requires LeadingRunLength(text) == 0
    ensures RangeOf(text).Err? ==> ValueOf(text) == Err(RangeOf(text).error)
    ensures RangeOf(text).Ok? ==> ValueOf(text) == FromRange(text, RangeOf(text).value, false)
  {
  }

  /** The counting loop at the head of `parse_value`. */
  method CountLeadingRun(text: string) returns (idx: nat)
    ensures idx == LeadingRunLength(text)
  {
    idx := 0;
    for i := 0 to |text|
      invariant idx == i
      invariant forall j :: 0 <= j < idx ==> IsNumChar(text[j])
    {
      if IsNumChar(text[i]) {
        idx := idx + 1;
      } else {
        break;
      }
    }
    LeadingRunUnique(text, idx);
  }

  /** The tail of `parse_value`: keep the one truthy bound and nudge it to the open side. */
  method NudgeIntoRange(text: string, b: Bounds) returns (r: Result<real, Error>)
    ensures r == FromRange(text, b, false)
  {
    var notNone := TruthyBounds(b);
    if |notNone| != 1 {
      return Err(NotSingleValue(text));
    }
    var val := notNone[0];
    var diff := Epsilon(val);
    if b.low.Some? && b.low.value != 0.0 {
      return Ok(val + diff);
    }
    return Ok(val - diff);
  }

  /** `parse_value` as the source runs it: a counting loop, then `parse_range` and the nudge. */
  method ParseValue(text: string) returns (r: Result<real, Error>)
    ensures r == ValueOf(text)
  {
    var idx := CountLeadingRun(text);
    if idx > 0 {
      ValueOfLeadingRun(text);
      var parsed := FloatOf(text[..idx]);
      if parsed.None? {
        return Err(NotAFloat(text[..idx]));
      }
      return Ok(parsed.value);
    }
    ValueOfRange(text);
    var range := ParseRange(text);
    if range.Err? {
      return Err(range.error);
    }
    r := NudgeIntoRange(text, range.value);
  }

  /** The leading run is the one prefix of numeric characters that the next character ends. */
  lemma {:induction false} LeadingRunUnique(s: string, k: nat)
    requires k <= |s|
    requires forall j :: 0 <= j < k ==> IsNumChar(s[j])
    requires k == |s| || !IsNumChar(s[k])
    ensures LeadingRunLength(s) == k
  {
    if k > 0 {
      assert IsNumChar(s[0]);
      LeadingRunUnique(s[1..], k - 1);
    }
  }

  /** A text that opens with a character other than a digit or a dot has no leading run. */
  lemma NoLeadingRun(s: string)
    requires s != [] && !IsNumChar(s[0])
    ensures LeadingRunLength(s) == 0
  {
  }

  /** Only the leading run of digits and dots counts: `4.3 / 4.4` reads as 4.3. */
  lemma LeadingNumberWins(d: string, rest: string)
    requires DecimalOf(d).Some?
    requires rest == [] || !IsNumChar(rest[0])
    ensures ValueOf(d + rest) == Ok(DecimalOf(d).value)
  {
    var s := d + rest;
    AllNumCharsAt(d);
    var n := LeadingRunLength(s);
    LeadingRunUnique(s, |d|);
    assert s[..n] == d;
    FloatOfNumChars(d);
  }

  /**
   * When no leading number decides it, the result lies strictly on the open
   * side of the one truthy bound and at most 0.01 away from it; a positive
   * upper bound gives a positive result.
   */
  lemma OpenSide(text: string)
    requires LeadingRunLength(text) == 0 && ValueOf(text).Ok?
    ensures RangeOf(text).Ok? && |TruthyBounds(RangeOf(text).value)| == 1
    ensures var b, v := RangeOf(text).value, ValueOf(text).value;
      if b.low.Some? && b.low.value != 0.0 then b.low.value < v <= b.low.value + 0.01
      else b.high.Some? && b.high.value - 0.01 <= v < b.high.value && (b.high.value > 0.0 ==> v > 0.0)
  {
    var b := RangeOf(text).value;
    if !(b.low.Some? && b.low.value != 0.0) {
      var x := b.high.value;
      if x > 0.0 {
        EpsilonBelowPositive(x);
      }
    }
  }

  /**
   * A text without a leading run whose range has one bound reads as that bound
   * moved by `Epsilon` to its open side, unless the bound is zero.
   */
  lemma ValueOfOneBound(text: string, b: Bounds)
    requires LeadingRunLength(text) == 0 && RangeOf(text) == Ok(b)
    requires b.low.None? != b.high.None?
    ensures var x := if b.low.Some? then b.low.value else b.high.value;
      ValueOf(text) ==
        if x == 0.0 then Err(NotSingleValue(text))
        else if b.high.Some? then Ok(x - Epsilon(x))
        else Ok(x + Epsilon(x))
  {
    ValueOfRange(text);
    FromOneBound(text, b);
  }

  /** A range with one bound: the bound moved by `Epsilon` to its open side, unless it is zero. */
  lemma FromOneBound(text: string, b: Bounds)
    requires b.low.None? != b.high.None?
    ensures var x := if b.low.Some? then b.low.value else b.high.value;
      FromRange(text, b, false) ==
        if x == 0.0 then Err(NotSingleValue(text))
        else if b.high.Some? then Ok(x - Epsilon(x))
        else Ok(x + Epsilon(x))
  {
  }

  /**
   * A comparator, optional whitespace and a literal: no leading run, and the
   * range has the literal as its one bound, on the side the comparator names.
   */
  lemma ComparatorTextFacts(c: char, w: string, t: string)
    requires IsComparator(c)
    requires forall i :: 0 <= i < |w| ==> IsSpace(w[i])
    requires DecimalOf(t).Some?
    ensures LeadingRunLength([c] + w + t) == 0
    ensures RangeOf([c] + w + t) ==
      if c == LessThan || c == AtMost then Ok(Bounds(None, DecimalOf(t))) else Ok(Bounds(DecimalOf(t), None))
  {
    var s := [c] + w + t;
    assert s[0] == c;
    NoLeadingRun(s);
    ComparatorThenNumber(c, w, t);
  }

  /** `parse_value('≥6.5; ≤9.5')` refuses two bounds. */
  lemma TwoBoundsRefused()
    ensures ValueOf("\U{2265}6.5; \U{2264}9.5") == Err(NotSingleValue("\U{2265}6.5; \U{2264}9.5"))
  {
    TwoSidedExample();
    RunPh();
    ValueOfRange("\U{2265}6.5; \U{2264}9.5");
  }

  lemma RunPh()
    ensures LeadingRunLength("\U{2265}6.5; \U{2264}9.5") == 0
  {
    NoLeadingRun("\U{2265}6.5; \U{2264}9.5");
  }

  /** `parse_value('Acceptabil')` raises the error of `parse_range`. */
  lemma TextRefused()
    ensures ValueOf("Acceptabil") == Err(CannotConvert("Acceptabil"))
  {
    RangeOfText();
    assert LeadingRunLength("Acceptabil") == 0;
  }

  /** A whole number is nudged by 0.01. */
  lemma EpsilonWhole(x: real)
    requires x.Floor as real == x
    ensures Epsilon(x) == 0.01
  {
  }

  /** A number below one is nudged by a hundredth of itself. */
  lemma EpsilonBelowOne(x: real)
    requires 0.0 < x < 1.0
    ensures Epsilon(x) == x / 100.0
  {
    assert x.Floor == 0;
  }

  lemma SpellBelow45()
    ensures [LessThan] + "" + "45" == "<45" && [LessThan] + " " + "45" == "< 45"
  {
  }

  /** `parse_value('<45')` reads 44.99. */
  lemma ValueBelow45()
    ensures ValueOf("<45") == Ok(44.99)
  {
    LiteralFortyFive();
    ComparatorTextFacts(LessThan, "", "45");
    SpellBelow45();
    ValueOfOneBound("<45", Bounds(None, Some(45.0)));
    EpsilonWhole(45.0);
  }

  /** `parse_value('< 45')` reads 44.99 as well: spaces after the comparator are skipped. */
  lemma ValueBelowSpaced45()
    ensures ValueOf("< 45") == Ok(44.99)
  {
    LiteralFortyFive();
    ComparatorTextFacts(LessThan, " ", "45");
    SpellBelow45();
    ValueOfOneBound("< 45", Bounds(None, Some(45.0)));
    EpsilonWhole(45.0);
  }

  lemma SpellAbove45()
    ensures [GreaterThan] + "" + "45" == ">45" && [AtLeast] + " " + "45" == "\U{2265} 45"
  {
  }

  /** `parse_value('>45')` reads 45.01. */
  lemma ValueAbove45()
    ensures ValueOf(">45") == Ok(45.01)
  {
    LiteralFortyFive();
    ComparatorTextFacts(GreaterThan, "", "45");
    SpellAbove45();
    ValueOfOneBound(">45", Bounds(Some(45.0), None));
    EpsilonWhole(45.0);
  }

  /** `parse_value('≥ 45')` reads 45.01. */
  lemma ValueAtLeast45()
    ensures ValueOf("\U{2265} 45") == Ok(45.01)
  {
    LiteralFortyFive();
    ComparatorTextFacts(AtLeast, " ", "45");
    SpellAbove45();
    ValueOfOneBound("\U{2265} 45", Bounds(Some(45.0), None));
    EpsilonWhole(45.0);
  }

  /** `parse_value('≤0.002')` reads 0.00198: the nudge is a hundredth of the fraction. */
  lemma ValueAtMostSmall()
    ensures ValueOf("\U{2264}0.002") == Ok(0.00198)
  {
    LiteralSmall();
    ComparatorTextFacts(AtMost, "", "0.002");
    SpellAtMost();
    ValueOfOneBound("\U{2264}0.002", Bounds(None, Some(0.002)));
    EpsilonBelowOne(0.002);
    assert Epsilon(0.002) == 0.00002;
    assert 0.002 - 0.00002 == 0.00198;
  }

  /** `parse_value('≥0.002')` reads 0.00202. */
  lemma ValueAtLeastSmall()
    ensures ValueOf("\U{2265}0.002") == Ok(0.00202)
  {
    LiteralSmall();
    ComparatorTextFacts(AtLeast, "", "0.002");
    SpellAtLeast();
    ValueOfOneBound("\U{2265}0.002", Bounds(Some(0.002), None));
    EpsilonBelowOne(0.002);
    assert Epsilon(0.002) == 0.00002;
    assert 0.002 + 0.00002 == 0.00202;
  }

  lemma SpellPlainNumbers()
    ensures "0" + "" == "0" && "45" + "" == "45" && "0.002" + "" == "0.002"
  {
  }

  /** `parse_value('0')` reads 0. */
  lemma ValueZero()
    ensures ValueOf("0") == Ok(0.0)
  {
    LiteralZero();
    LeadingNumberWins("0", "");
    SpellPlainNumbers();
  }

  /** `parse_value('45')` reads 45. */
  lemma ValueFortyFive()
    ensures ValueOf("45") == Ok(45.0)
  {
    LiteralFortyFive();
    LeadingNumberWins("45", "");
    SpellPlainNumbers();
  }

  /** `parse_value('0.002')` reads 0.002. */
  lemma ValueSmall()
    ensures ValueOf("0.002") == Ok(0.002)
  {
    LiteralSmall();
    LeadingNumberWins("0.002", "");
    SpellPlainNumbers();
  }

  lemma SpellFirstOfTwo()
    ensures "4.3" + " / 4.4" == "4.3 / 4.4"
  {
  }

  /** `parse_value('4.3 / 4.4')` keeps the first number. */
  lemma ValueFirstOfTwo()
    ensures ValueOf("4.3 / 4.4") == Ok(4.3)
  {
    LiteralFourPointThree();
    LeadingNumberWins("4.3", " / 4.4");
    SpellFirstOfTwo();
  }

  /** Without a leading run, the source's reading of a range is that of `FromRange` by presence. */
  lemma AsWrittenRange(text: string)
    requires LeadingRunLength(text) == 0 && RangeOf(text).Ok?
    ensures ValueOfAsWritten(text) == FromRange(text, RangeOf(text).value, true)
  {
  }

  /**
   * As written, a range `≥0; ≤b` keeps only `b` (zero is falsy) but nudges it
   * upwards because a low bound is present: the value lands above `b`,
   * outside the range it was read from.
   */
  lemma ZeroLowBoundAsWritten(text: string, b: real)
    requires LeadingRunLength(text) == 0
    requires RangeOf(text) == Ok(Bounds(Some(0.0), Some(b))) && b != 0.0
    ensures ValueOfAsWritten(text) == Ok(b + Epsilon(b))
    ensures ValueOfAsWritten(text).value > b
  {
    AsWrittenRange(text);
    FromZeroLow(text, b);
  }

  /** The corrected reading of the same range nudges `b` downwards and stays inside `[0, b]` when `b > 0`. */
  lemma ZeroLowBoundCorrected(text: string, b: real)
    requires LeadingRunLength(text) == 0
    requires RangeOf(text) == Ok(Bounds(Some(0.0), Some(b))) && b != 0.0
    ensures ValueOf(text) == Ok(b - Epsilon(b))
    ensures b > 0.0 ==> 0.0 < ValueOf(text).value < b
  {
    ValueOfRange(text);
    FromZeroLow(text, b);
    if b > 0.0 {
      EpsilonBelowPositive(b);
    }
  }

  /** With a zero low bound, the two ways of picking the side disagree. */
  lemma FromZeroLow(text: string, b: real)
    requires b != 0.0
    ensures FromRange(text, Bounds(Some(0.0), Some(b)), true) == Ok(b + Epsilon(b))
    ensures FromRange(text, Bounds(Some(0.0), Some(b)), false) == Ok(b - Epsilon(b))
  {
  }

  lemma SpellZeroToFive()
    ensures TwoSided("0", "5") == "\U{2265}0; \U{2264}5"
  {
  }

  lemma BoundsZeroToFive()
    ensures RangeOf(TwoSided("0", "5")) == Ok(Bounds(Some(0.0), Some(5.0)))
  {
    LiteralZero();
    LiteralFive();
    TwoSidedBounds("0", "5");
  }

  lemma RangeZeroToFive()
    ensures RangeOf("\U{2265}0; \U{2264}5") == Ok(Bounds(Some(0.0), Some(5.0)))
  {
    BoundsZeroToFive();
    SpellZeroToFive();
  }

  lemma RunZeroToFive()
    ensures LeadingRunLength("\U{2265}0; \U{2264}5") == 0
  {
    NoLeadingRun("\U{2265}0; \U{2264}5");
  }

  lemma ZeroToFiveNudged()
    ensures ValueOfAsWritten("\U{2265}0; \U{2264}5") == Ok(5.0 + Epsilon(5.0))
    ensures ValueOf("\U{2265}0; \U{2264}5") == Ok(5.0 - Epsilon(5.0))
  {
    RangeZeroToFive();
    RunZeroToFive();
    ZeroLowBoundAsWritten("\U{2265}0; \U{2264}5", 5.0);
    ZeroLowBoundCorrected("\U{2265}0; \U{2264}5", 5.0);
  }

  /** `parse_value('≥0; ≤5')` reads 5.01 as written, above the range, and 4.99 once corrected. */
  lemma ZeroToFive()
    ensures ValueOfAsWritten("\U{2265}0; \U{2264}5") == Ok(5.01)
    ensures ValueOf("\U{2265}0; \U{2264}5") == Ok(4.99)
  {
    ZeroToFiveNudged();
    EpsilonWhole(5.0);
  }
}
