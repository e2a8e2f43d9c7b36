/** Python's `float()` on text, restricted to plain decimal literals. */
module Decimals {
  import opened Results
  import opened Text

  function DigitValue(c: char): (d: nat)
    ensures d <= 9
  {
    if IsDigit(c) then c as int - '0' as int else 0
  }

  /** The number a string of digits spells, most significant digit first. */
  function NatOf(s: string): nat
  {
    if s == [] then 0 else 10 * NatOf(s[..|s| - 1]) + DigitValue(s[|s| - 1])
  }

  /** Appending a digit shifts the value one decimal place. */
  lemma NatOfSnoc(s: string, c: char)
    ensures NatOf(s + [c]) == 10 * NatOf(s) + DigitValue(c)
  {
    assert (s + [c])[..|s|] == s;
  }

  function Pow10(n: nat): (r: real)
    ensures r >= 1.0
  {
    if n == 0 then 1.0 else 10.0 * Pow10(n - 1)
  }

  /**
   * A literal made of digits and at most one dot, with at least one digit:
   * `12`, `12.`, `.5`, `0.0020`. Anything else (`.`, `1.2.3`, the empty
   * string, a sign or a space) is not a literal here.
   */
  function DecimalOf(t: string): (r: Option<real>)
    ensures r.Some? ==> AllNumChars(t) && t != [] && r.value >= 0.0
  {
    if !AllNumChars(t) then None
    else
      var d := Find(t, '.');
      if d < 0 then
        if t == [] then None else Some(NatOf(t) as real)
      else
        var intPart, fracPart := t[..d], t[d + 1..];
        if '.' in fracPart || (intPart == [] && fracPart == []) then None
        else Some(NatOf(intPart) as real + FractionOf(fracPart))
  }

  /** `t` holds at least one digit. */
  predicate HasDigit(t: string)
  {
    exists i :: 0 <= i < |t| && IsDigit(t[i])
  }

  /** No dot of `t` is followed, anywhere later, by another dot. */
  predicate AtMostOneDot(t: string)
  {
    forall i, j :: 0 <= i < j < |t| && t[i] == '.' ==> t[j] != '.'
  }

  /**
   * On a run of digits and dots, `float()` accepts exactly the runs with a
   * digit and at most one dot: `.`, `..5` and `1.2.3` are refused.
   */
  lemma DecimalOfAccepts(t: string)
    requires AllNumChars(t)
    ensures DecimalOf(t).Some? <==> HasDigit(t) && AtMostOneDot(t)
  {
    AllNumCharsAt(t);
    var d := Find(t, '.');
    if d < 0 {
      if t != [] {
        assert IsDigit(t[0]);
      }
    } else {
      var intPart, fracPart := t[..d], t[d + 1..];
      if '.' in fracPart {
        var k :| 0 <= k < |fracPart| && fracPart[k] == '.';
        assert t[d + 1 + k] == '.';
      } else {
        forall i, j | 0 <= i < j < |t| && t[i] == '.'
          ensures t[j] != '.'
        {
          assert fracPart[j - d - 1] == t[j];
        }
        if intPart == [] && fracPart == [] {
          assert t == ['.'];
        } else if intPart != [] {
          assert t[0] in intPart;
          assert IsDigit(t[0]);
        } else {
          assert fracPart[0] == t[d + 1];
          assert IsDigit(t[d + 1]);
        }
      }
    }
  }

  /** `float('.')` and `float('1.2.3')` raise. */
  lemma DotsRejected()
    ensures DecimalOf(".") == None && DecimalOf("1.2.3") == None
  {
    DecimalOfAccepts(".");
    assert !HasDigit(".");
    var t := "1.2.3";
    assert t[1] == '.' && t[3] == '.';
    DecimalOfAccepts(t);
  }

  /** The value of the digits after the dot: `"0020"` is 20/10000. */
  function FractionOf(b: string): (r: real)
    ensures 0.0 <= r
  {
    NatOf(b) as real / Pow10(|b|)
  }

  /**
   * `float(s)`: surrounding whitespace is ignored and one leading sign is
   * accepted in front of a decimal literal.
   */
  function FloatOf(s: string): Option<real>
  {
    var t := Strip(s);
    if t != [] && (t[0] == '+' || t[0] == '-') then
      match DecimalOf(t[1..])
      case None => None
      case Some(x) => Some(if t[0] == '-' then -x else x)
    else DecimalOf(t)
  }

  /** On a run of digits and dots `float()` is exactly the decimal literal reading. */
  lemma FloatOfNumChars(s: string)
    requires AllNumChars(s)
    ensures FloatOf(s) == DecimalOf(s)
  {
    NumCharsStripped(s);
  }

  lemma NumCharsStripped(s: string)
    requires AllNumChars(s)
    ensures Strip(s) == s
    ensures s == [] || (s[0] != '+' && s[0] != '-')
  {
    if s != [] {
      AllNumCharsAt(s);
      assert !IsSpace(s[0]) && !IsSpace(s[|s| - 1]);
      assert StripLeft(s) == s;
    }
  }

  /** A literal with a dot reads as its integer part plus its fraction digits over a power of ten. */
  lemma DecimalOfPoint(a: string, b: string)
    requires AllDigits(a) && AllDigits(b) && (a != [] || b != [])
    ensures DecimalOf(a + "." + b) == Some(NatOf(a) as real + FractionOf(b))
  {
    var t := a + "." + b;
    DigitsAreNumChars(a);
    DigitsAreNumChars(b);
    AllNumCharsConcat(a, ".");
    AllNumCharsConcat(a + ".", b);
    NoDotInDigits(a);
    NoDotInDigits(b);
    assert t[..|a|] == a;
    assert t[|a| + 1..] == b;
    assert t[|a|] == '.';
    FindFirstDot(t, a);
    assert AllNumChars(t);
    var d := Find(t, '.');
    assert d == |a|;
    assert !('.' in t[d + 1..] || (t[..d] == [] && t[d + 1..] == []));
  }

  /** A literal without a dot reads as the number its digits spell. */
  lemma DecimalOfDigits(a: string)
    requires IsDigitString(a)
    ensures DecimalOf(a) == Some(NatOf(a) as real)
  {
    DigitsAreNumChars(a);
    NoDotInDigits(a);
  }

  lemma {:induction false} DigitsAreNumChars(a: string)
    requires AllDigits(a)
    ensures AllNumChars(a)
  {
    if a != [] {
      DigitsAreNumChars(a[1..]);
    }
  }

  lemma {:induction false} NoDotInDigits(a: string)
    requires AllDigits(a)
    ensures '.' !in a
  {
    if a != [] {
      NoDotInDigits(a[1..]);
      assert a == [a[0]] + a[1..];
    }
  }

  lemma FindFirstDot(t: string, a: string)
    requires '.' !in a && |a| < |t| && t[..|a|] == a && t[|a|] == '.'
    ensures Find(t, '.') == |a|
  {
  }

  /**
   * Text that starts with neither a digit, a dot, a sign nor whitespace is not
   * a number, whatever follows it.
   */
  lemma NonNumericText(s: string)
    requires s != [] && !IsSpace(s[0])
    requires !IsNumChar(s[0]) && s[0] != '+' && s[0] != '-'
    ensures FloatOf(s).None?
  {
    var t := StripRight(s);
    assert Strip(s) == t;
    assert t != [] && t[0] == s[0];
  }

  /* The literals that occur in the examples of `test_parse_value` and `test_parse_range`. */

  lemma NatOfDigit(c: char)
    ensures NatOf([c]) == DigitValue(c)
  {
    NatOfSnoc("", c);
    assert "" + [c] == [c];
  }

  lemma NatOfTwo()
    ensures NatOf("002") == 2 && NatOf("0020") == 20
  {
    NatOfDigit('0');
    NatOfSnoc("0", '0'); assert "0" + ['0'] == "00";
    NatOfSnoc("00", '2'); assert "00" + ['2'] == "002";
    NatOfSnoc("002", '0'); assert "002" + ['0'] == "0020";
  }

  lemma NatOfFortyFive()
    ensures NatOf("45") == 45
  {
    NatOfDigit('4');
    NatOfSnoc("4", '5'); assert "4" + ['5'] == "45";
  }

  lemma FractionOfTwo()
    ensures FractionOf("002") == 0.002 && FractionOf("0020") == 0.002
  {
    NatOfTwo();
    assert Pow10(3) == 1000.0 && Pow10(4) == 10000.0;
  }

  lemma FractionOfDigit(c: char)
    ensures FractionOf([c]) == DigitValue(c) as real / 10.0
  {
    NatOfDigit(c);
    assert Pow10(1) == 10.0;
  }

  lemma LiteralZero()
    ensures DecimalOf("0") == Some(0.0)
  {
    DecimalOfDigits("0");
    NatOfDigit('0');
  }

  lemma LiteralFive()
    ensures DecimalOf("5") == Some(5.0)
  {
    DecimalOfDigits("5");
    NatOfDigit('5');
  }

  lemma LiteralFortyFive()
    ensures DecimalOf("45") == Some(45.0)
  {
    DecimalOfDigits("45");
    NatOfFortyFive();
  }

  /** `0.002` and `0.0020` are the same literal value. */
  lemma LiteralSmall()
    ensures DecimalOf("0.002") == Some(0.002)
    ensures DecimalOf("0.0020") == Some(0.002)
  {
    NatOfDigit('0');
    FractionOfTwo();
    DecimalOfPoint("0", "002");
    assert "0" + "." + "002" == "0.002";
    DecimalOfPoint("0", "0020");
    assert "0" + "." + "0020" == "0.0020";
  }

  /** `d.e` for single digits `d` and `e`. */
  lemma DecimalOfDigitPoint(d: char, e: char)
    requires IsDigit(d) && IsDigit(e)
    ensures DecimalOf([d, '.', e]) == Some(DigitValue(d) as real + DigitValue(e) as real / 10.0)
  {
    DecimalOfPoint([d], [e]);
    NatOfDigit(d);
    FractionOfDigit(e);
    assert [d] + "." + [e] == [d, '.', e];
  }

  lemma LiteralsPh()
    ensures DecimalOf("6.5") == Some(6.5) && DecimalOf("9.5") == Some(9.5)
  {
    DecimalOfDigitPoint('6', '5');
    DecimalOfDigitPoint('9', '5');
  }

  lemma LiteralFourPointThree()
    ensures DecimalOf("4.3") == Some(4.3)
  {
    DecimalOfDigitPoint('4', '3');
  }
}
