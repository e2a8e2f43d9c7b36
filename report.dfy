/**
 * The range check of `report.py`: whether a value lies in a parsed range,
 * and the records of a report whose value falls outside their range.
 */
module RangeCheck {
  import opened Results
  import opened Models
  import opened Dicts
  import opened Intervals
  import opened Scalars

  /**
   * `is_in_range`: an absent bound is replaced by the value itself, so it
   * constrains nothing; the check itself is inclusive on both sides.
   */
  function IsInRange(v: real, b: Bounds): (r: bool)
    ensures r <==> (b.low.None? || b.low.value <= v) && (b.high.None? || v <= b.high.value)
    ensures b.low.None? && b.high.None? ==> r
    ensures b.low.Some? && b.high.Some? && b.low.value > b.high.value ==> !r
  {
    var low := if b.low.None? then v else b.low.value;
    var high := if b.high.None? then v else b.high.value;
    low <= v <= high
  }

  /**
   * `is_in_range` applied to a record's value, which may be text. Text is
   * compared with a present bound and fails there, low side first; with no
   * bound at all it is compared only with itself and is in range.
   */
  function InRange(value: Value, b: Bounds): (r: Result<bool, Error>)
    ensures value.Num? ==> r == Ok(IsInRange(value.x, b))
    ensures value.RawValue? ==> (r.Ok? <==> b.low.None? && b.high.None?)
    ensures value.RawValue? && r.Ok? ==> r.value
    ensures r.Err? ==> r.error == NotComparable(b.low.Some?)
  {
    match value
    case Num(x) => Ok(IsInRange(x, b))
    case RawValue(_) =>
      if b.low.Some? then Err(NotComparable(true))
      else if b.high.Some? then Err(NotComparable(false))
      else Ok(true)
  }

  /** Whether a record is abnormal: only a record with a parsed range can be. */
  function Verdict(rec: Record): (r: Result<bool, Error>)
    ensures rec.range.RawRange? ==> r == Ok(false)
    ensures r == Ok(true) <==> rec.range.Bounded? && InRange(rec.value, rec.range.bounds) == Ok(false)
    ensures r.Err? <==> rec.range.Bounded? && InRange(rec.value, rec.range.bounds).Err?
  {
    match rec.range
    case RawRange(_) => Ok(false)
    case Bounded(b) =>
      match InRange(rec.value, b)
      case Err(e) => Err(e)
      case Ok(inside) => Ok(!inside)
  }

  /** The entries of a report's result that are abnormal, stored in the order they come. */
  function AbnormalOf(d: seq<(string, Record)>): (r: Result<seq<(string, Record)>, Error>)
    ensures r.Err? ==> r.error.NotComparable?
  {
    if d == [] then Ok([])
    else
      match AbnormalOf(d[..|d| - 1])
      case Err(e) => Err(e)
      case Ok(acc) =>
        var entry := d[|d| - 1];
        match Verdict(entry.1)
        case Err(e) => Err(e)
        case Ok(abnormal) => if abnormal then Ok(Put(acc, entry.0, entry.1)) else Ok(acc)
  }

  /** `a` is `b` with some of its elements left out, the rest in the same order. */
  ghost predicate IsSubsequence<T>(a: seq<T>, b: seq<T>)
    decreases |b|
  {
    a == [] ||
    (b != [] &&
      (IsSubsequence(a, b[..|b| - 1]) ||
       (a[|a| - 1] == b[|b| - 1] && IsSubsequence(a[..|a| - 1], b[..|b| - 1]))))
  }

  // ---------------------------------------------------------------------
  // Properties of the abnormal entries
  // ---------------------------------------------------------------------

  /** Every abnormal entry is an entry of the result, unchanged, and abnormal. */
  lemma {:induction false} AbnormalFromResult(d: seq<(string, Record)>)
    requires AbnormalOf(d).Ok?
    ensures forall x :: x in AbnormalOf(d).value ==> x in d && Verdict(x.1) == Ok(true)
  {
    if d != [] {
      var n := |d| - 1;
      AbnormalFromResult(d[..n]);
      var acc := AbnormalOf(d[..n]).value;
      if Verdict(d[n].1) == Ok(true) {
        PutEntries(acc, d[n].0, d[n].1);
      }
      assert forall x :: x in d[..n] ==> x in d;
    }
  }

  /** With distinct keys every abnormal entry is appended: nothing is overwritten. */
  lemma {:induction false} AbnormalAppends(d: seq<(string, Record)>)
    requires DistinctKeys(d) && AbnormalOf(d).Ok? && d != []
    ensures AbnormalOf(d).value ==
      var acc := AbnormalOf(d[..|d| - 1]).value;
      if Verdict(d[|d| - 1].1) == Ok(true) then acc + [d[|d| - 1]] else acc
  {
    var n := |d| - 1;
    var acc := AbnormalOf(d[..n]).value;
    if Verdict(d[n].1) == Ok(true) {
      AbnormalFromResult(d[..n]);
      forall j | 0 <= j < |acc|
        ensures acc[j].0 != d[n].0
      {
        var m :| 0 <= m < n && d[..n][m] == acc[j];
        assert d[m] == acc[j];
      }
      assert d[n].0 !in Keys(acc);
      PutShape(acc, d[n].0, d[n].1);
    }
  }

  /** The abnormal entries come in the order of the result. */
  lemma {:induction false} AbnormalInOrder(d: seq<(string, Record)>)
    requires DistinctKeys(d) && AbnormalOf(d).Ok?
    ensures IsSubsequence(AbnormalOf(d).value, d)
  {
    if d != [] {
      var n := |d| - 1;
      AbnormalInOrder(d[..n]);
      AbnormalAppends(d);
      var acc := AbnormalOf(d[..n]).value;
      if Verdict(d[n].1) == Ok(true) {
        assert (acc + [d[n]])[..|acc|] == acc;
      }
    }
  }

  /**
   * With distinct keys, an entry is abnormal exactly when it is an entry of
   * the result whose range is parsed and whose value lies outside it.
   */
  lemma {:induction false} AbnormalMembers(d: seq<(string, Record)>)
    requires DistinctKeys(d) && AbnormalOf(d).Ok?
    ensures forall x :: x in AbnormalOf(d).value <==> x in d && Verdict(x.1) == Ok(true)
  {
    AbnormalFromResult(d);
    if d != [] {
      var n := |d| - 1;
      AbnormalMembers(d[..n]);
      AbnormalAppends(d);
      assert d == d[..n] + [d[n]];
    }
  }

  /** The abnormal entries form a sub-dict of the result: same values under the same keys. */
  lemma AbnormalLookup(d: seq<(string, Record)>, k: string)
    requires DistinctKeys(d) && AbnormalOf(d).Ok?
    ensures Get(AbnormalOf(d).value, k).Some? <==>
      Get(d, k).Some? && Verdict(Get(d, k).value) == Ok(true)
    ensures Get(AbnormalOf(d).value, k).Some? ==> Get(AbnormalOf(d).value, k) == Get(d, k)
  {
    var acc := AbnormalOf(d).value;
    AbnormalMembers(d);
    var g := Get(acc, k);
    if g.Some? {
      assert (k, g.value) in d;
      var i :| 0 <= i < |d| && d[i] == (k, g.value);
      GetDistinct(d, i);
    }
    var h := Get(d, k);
    if h.Some? && Verdict(h.value) == Ok(true) {
      assert (k, h.value) in acc;
      assert k in Keys(acc) by {
        var i :| 0 <= i < |acc| && acc[i] == (k, h.value);
        assert Keys(acc)[i] == k;
      }
    }
  }

  /** The check fails exactly when some record with a parsed range holds text that cannot be compared. */
  lemma {:induction false} AbnormalErr(d: seq<(string, Record)>)
    ensures AbnormalOf(d).Err? <==> exists j :: 0 <= j < |d| && Verdict(d[j].1).Err?
  {
    if d != [] {
      var n := |d| - 1;
      AbnormalErr(d[..n]);
      assert forall j :: 0 <= j < n ==> d[..n][j] == d[j];
    }
  }

  /** Once a prefix of the result fails the check, the whole check fails the same way. */
  lemma {:induction false} AbnormalPrefixError(d: seq<(string, Record)>, m: nat)
    requires m <= |d| && AbnormalOf(d[..m]).Err?
    ensures AbnormalOf(d) == AbnormalOf(d[..m])
  {
    if m < |d| {
      var n := |d| - 1;
      assert d[..n][..m] == d[..m];
      AbnormalPrefixError(d[..n], m);
    } else {
      assert d[..m] == d;
    }
  }

  /** `get_abnormal_params`: the loop over the report's result. */
  method GetAbnormalParams(report: Report) returns (r: Result<seq<(string, Record)>, Error>)
    ensures r == AbnormalOf(report.result)
  {
    var d := report.result;
    var nok: seq<(string, Record)> := [];
    for i := 0 to |d|
      invariant AbnormalOf(d[..i]) == Ok(nok)
    {
      var (key, rec) := d[i];
      assert d[..i + 1][..i] == d[..i];
      if rec.range.Bounded? {
        var inside := InRange(rec.value, rec.range.bounds);
        if inside.Err? {
          AbnormalPrefixError(d, i + 1);
          return Err(inside.error);
        }
        if !inside.value {
          nok := Put(nok, key, rec);
        }
      }
    }
    assert d[..|d|] == d;
    return Ok(nok);
  }

  // ---------------------------------------------------------------------
  // Parsed readings against ranges
  // ---------------------------------------------------------------------

  /**
   * A reading written as one bound, such as `<0.002` or `>45`, is read as a
   * value strictly inside that bound, so it is in the range the same text
   * gives.
   */
  lemma OneSidedReadingInRange(text: string, b: Bounds)
    requires LeadingRunLength(text) == 0 && RangeOf(text) == Ok(b)
    requires b.low.None? != b.high.None? && ValueOf(text).Ok?
    ensures b.low.Some? ==> ValueOf(text).value > b.low.value
    ensures b.high.Some? ==> ValueOf(text).value < b.high.value
    ensures IsInRange(ValueOf(text).value, b)
  {
    ValueOfOneBound(text, b);
  }

  /** `<45` reads as 44.99, inside `(None, 45)`; `>45` reads as 45.01, inside `(45, None)`. */
  lemma BoundReadingsInRange()
    ensures ValueOf("<45").Ok? && IsInRange(ValueOf("<45").value, Bounds(None, Some(45.0)))
    ensures ValueOf(">45").Ok? && IsInRange(ValueOf(">45").value, Bounds(Some(45.0), None))
  {
    ValueBelow45();
    ValueAbove45();
  }

  /**
   * A reading written as the range `(0, b)` with `b > 0` lies inside that
   * range once read, but the reading as written lies above it.
   */
  lemma ZeroLowReadingInRange(text: string, b: real)
    requires LeadingRunLength(text) == 0
    requires RangeOf(text) == Ok(Bounds(Some(0.0), Some(b))) && b > 0.0
    ensures ValueOf(text).Ok? && IsInRange(ValueOf(text).value, Bounds(Some(0.0), Some(b)))
    ensures ValueOfAsWritten(text).Ok? && !IsInRange(ValueOfAsWritten(text).value, Bounds(Some(0.0), Some(b)))
  {
    ZeroLowBoundCorrected(text, b);
    ZeroLowBoundAsWritten(text, b);
  }
}
