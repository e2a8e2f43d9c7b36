/**
 * `parse_report`: reads a normalised bulletin table into a report. The
 * header row names the kind of analysis and the fixed columns; every
 * other row becomes one record, stored under the key the label table gives
 * its parameter.
 */
module Reports {
  import opened Results
  import opened Text
  import opened Models
  import opened Dicts
  import opened Intervals
  import opened Scalars
  import opened Tables
  import opened LabelTable

  const MicrobiologicalTitle := "Indicatori microbiologici"
  const ChemicalTitle := "Indicatori organoleptici si fizico-chimici"
  const UnitHeader := "Unitate de masura"
  const ValueHeader := "Valori obtinute"
  const MaxRangeHeader := "Valori maxim admise"
  const RangeHeader := "Valori admise"

  /** The kind of analysis a table title announces. */
  function KindOf(title: string): (r: Result<AnalysisType, Error>)
    ensures r == Ok(Microbiological) <==> title == MicrobiologicalTitle
    ensures r == Ok(Chemical) <==> title == ChemicalTitle
    ensures r.Err? ==> r.error == UnknownReportType(title)
  {
    if title == MicrobiologicalTitle then Ok(Microbiological)
    else if title == ChemicalTitle then Ok(Chemical)
    else Err(UnknownReportType(title))
  }

  /**
   * The checks on the header row, in the order the source makes them: the
   * title first, then the unit, value and range columns.
   */
  function HeaderKind(header: seq<string>): (r: Result<AnalysisType, Error>)
    ensures r.Ok? <==>
      |header| >= 5 && KindOf(header[1]).Ok? && header[2] == UnitHeader && header[3] == ValueHeader &&
      (StartsWith(header[4], MaxRangeHeader) || StartsWith(header[4], RangeHeader))
    ensures r.Ok? ==> r == KindOf(header[1])
    ensures |header| >= 2 && KindOf(header[1]).Err? ==> r == KindOf(header[1])
    ensures |header| < 2 ==> r == Err(IndexOutOfRange)
    ensures |header| >= 3 && KindOf(header[1]).Ok? && header[2] != UnitHeader ==> r == Err(HeaderMismatch(2))
    ensures |header| >= 4 && KindOf(header[1]).Ok? && header[2] == UnitHeader && header[3] != ValueHeader ==>
      r == Err(HeaderMismatch(3))
    ensures |header| >= 5 && KindOf(header[1]).Ok? && r.Err? ==> r.error.HeaderMismatch?
    ensures |header| >= 2 && KindOf(header[1]).Ok? && r.Err? && !r.error.HeaderMismatch? ==>
      |header| < 5 && r.error == IndexOutOfRange
  {
    if |header| < 2 then Err(IndexOutOfRange)
    else match KindOf(header[1])
      case Err(e) => Err(e)
      case Ok(kind) =>
        if |header| < 3 then Err(IndexOutOfRange)
        else if header[2] != UnitHeader then Err(HeaderMismatch(2))
        else if |header| < 4 then Err(IndexOutOfRange)
        else if header[3] != ValueHeader then Err(HeaderMismatch(3))
        else if |header| < 5 then Err(IndexOutOfRange)
        else if !(StartsWith(header[4], MaxRangeHeader) || StartsWith(header[4], RangeHeader)) then
          Err(HeaderMismatch(4))
        else Ok(kind)
  }

  /**
   * The range and value cells of one row. A range that does not parse is
   * kept as its text, and then the value is never parsed; a value that does
   * not parse is kept as its text. Only the parsers' `ValueError`s are
   * caught: any other error ends the whole report.
   */
  function ReadCells(rangeText: string, valueText: string): (r: Result<(RangeCell, Value), Error>)
    ensures r.Ok? && r.value.0.RawRange? <==>
      RangeOf(rangeText).Err? && IsValueError(RangeOf(rangeText).error)
    ensures r.Ok? && r.value.0.RawRange? ==>
      r.value == (RawRange(rangeText), RawValue(valueText))
    ensures r.Ok? && r.value.0.Bounded? ==>
      RangeOf(rangeText) == Ok(r.value.0.bounds) &&
      (r.value.0.bounds.low.Some? || r.value.0.bounds.high.Some?)
    ensures r.Ok? && r.value.1.Num? <==> RangeOf(rangeText).Ok? && ValueOf(valueText).Ok?
    ensures r.Ok? && r.value.1.Num? ==> ValueOf(valueText) == Ok(r.value.1.x)
    ensures r.Ok? && r.value.1.RawValue? ==> r.value.1.text == valueText
    ensures RangeOf(rangeText).Err? && !IsValueError(RangeOf(rangeText).error) ==>
      r == Err(RangeOf(rangeText).error)
    ensures RangeOf(rangeText).Ok? && ValueOf(valueText).Err? ==>
      r == if IsValueError(ValueOf(valueText).error)
           then Ok((Bounded(RangeOf(rangeText).value), RawValue(valueText)))
           else Err(ValueOf(valueText).error)
  {
    match RangeOf(rangeText)
    case Err(e) =>
      if IsValueError(e) then Ok((RawRange(rangeText), RawValue(valueText))) else Err(e)
    case Ok(b) =>
      match ValueOf(valueText)
      case Ok(x) => Ok((Bounded(b), Num(x)))
      case Err(e) => if IsValueError(e) then Ok((Bounded(b), RawValue(valueText))) else Err(e)
  }
  /**
   * An empty value cell next to a parsed range is not a `ValueError`:
   * `parse_value('')` indexes past the end, and the `IndexError` ends the report.
   */
  lemma EmptyValueCellFails(rangeText: string)
    requires RangeOf(rangeText).Ok?
    ensures ReadCells(rangeText, "") == Err(IndexOutOfRange)
  {
    assert ValueOf("") == Err(IndexOutOfRange);
  }

  /**
   * One data row as a key and a record: the label in column 1 picks the
   * key and the Romanian name, column 2 is the unit, columns 3 and 4 the
   * value and the range. The cells are read before the label is looked up.
   */
  function RecordOf(row: seq<string>): (r: Result<(string, Record), Error>)
    ensures r.Ok? <==> |row| >= 5 && ReadCells(row[4], row[3]).Ok? && row[1] in Labels
    ensures r.Ok? ==>
      r.value.0 == Labels[row[1]].key && r.value.1.roName == Labels[row[1]].roName &&
      r.value.1.unit == row[2] &&
      (r.value.1.range, r.value.1.value) == ReadCells(row[4], row[3]).value
    ensures |row| < 5 ==> r == Err(IndexOutOfRange)
    ensures |row| >= 5 && ReadCells(row[4], row[3]).Err? ==> r == Err(ReadCells(row[4], row[3]).error)
    ensures |row| >= 5 && ReadCells(row[4], row[3]).Ok? && row[1] !in Labels ==> r == Err(UnknownLabel(row[1]))
  {
    if |row| < 5 then Err(IndexOutOfRange)
    else match ReadCells(row[4], row[3])
      case Err(e) => Err(e)
      case Ok(cells) =>
        if row[1] !in Labels then Err(UnknownLabel(row[1]))
        else
          var entry := Labels[row[1]];
          Ok((entry.key, Record(entry.roName, row[2], cells.1, cells.0)))
  }

  type Entry = Result<(string, Record), Error>

  /** What each data row reads as, in row order. */
  function Entries(rows: seq<seq<string>>): (r: seq<Entry>)
    ensures |r| == |rows| && forall i :: 0 <= i < |rows| ==> r[i] == RecordOf(rows[i])
  {
    seq(|rows|, i requires 0 <= i < |rows| => RecordOf(rows[i]))
  }

  /**
   * The entries stored one after the other into an initially empty dict,
   * as the loop over the data rows does; the first entry that is an error
   * ends the loop with that error.
   */
  function Store(entries: seq<Entry>): (r: Result<seq<(string, Record)>, Error>)
    ensures r.Err? ==> Err(r.error) in entries
  {
    if entries == [] then Ok([])
    else
      match Store(entries[..|entries| - 1])
      case Err(e) => Err(e)
      case Ok(d) =>
        match entries[|entries| - 1]
        case Err(e) => Err(e)
        case Ok(entry) => Ok(Put(d, entry.0, entry.1))
  }

  /** The whole table: the first row is the header, the rest are data rows. */
  function ReportOf(table: seq<seq<string>>): (r: Result<Report, Error>)
    ensures table == [] ==> r == Err(IndexOutOfRange)
    ensures r.Ok? ==>
      table != [] && HeaderKind(table[0]) == Ok(r.value.kind) && r.value.title == table[0][1] &&
      Store(Entries(table[1..])) == Ok(r.value.result)
    ensures table != [] && HeaderKind(table[0]).Err? ==> r == Err(HeaderKind(table[0]).error)
    ensures table != [] && HeaderKind(table[0]).Ok? && Store(Entries(table[1..])).Err? ==>
      r == Err(Store(Entries(table[1..])).error)
  {
    if table == [] then Err(IndexOutOfRange)
    else match HeaderKind(table[0])
      case Err(e) => Err(e)
      case Ok(kind) =>
        match Store(Entries(table[1..]))
        case Err(e) => Err(e)
        case Ok(d) => Ok(Report(table[0][1], d, kind))
  }

  /** The record of the last entry stored under `k`, if any: later entries overwrite earlier ones. */
  function LastStored(entries: seq<Entry>, k: string): Option<Record>
  {
    if entries == [] then None
    else
      var entry := entries[|entries| - 1];
      if entry.Ok? && entry.value.0 == k then Some(entry.value.1)
      else LastStored(entries[..|entries| - 1], k)
  }

  // ---------------------------------------------------------------------
  // Properties of the loop over the data rows
  // ---------------------------------------------------------------------

  /** Entries that all read give a dict. */
  lemma {:induction false} StoreOk(entries: seq<Entry>)
    requires forall j :: 0 <= j < |entries| ==> entries[j].Ok?
    ensures Store(entries).Ok?
  {
    if entries != [] {
      StoreOk(entries[..|entries| - 1]);
    }
  }

  /** Any entry that is an error makes the whole store an error. */
  lemma {:induction false} StoreErr(entries: seq<Entry>, j: nat)
    requires j < |entries| && entries[j].Err?
    ensures Store(entries).Err?
  {
    var n := |entries| - 1;
    if j < n {
      assert entries[..n][j] == entries[j];
      StoreErr(entries[..n], j);
    }
  }

  /** The first entry that is an error decides the error of the whole report. */
  lemma {:induction false} StoreFirstError(entries: seq<Entry>, j: nat)
    requires j < |entries| && entries[j].Err?
    requires forall i :: 0 <= i < j ==> entries[i].Ok?
    ensures Store(entries) == Err(entries[j].error)
  {
    var n := |entries| - 1;
    if j == n {
      StoreOk(entries[..n]);
    } else {
      assert entries[..n][j] == entries[j];
      StoreFirstError(entries[..n], j);
    }
  }

  /** Once a prefix of the entries fails, the whole store fails the same way. */
  lemma {:induction false} StorePrefixError(entries: seq<Entry>, m: nat)
    requires m <= |entries| && Store(entries[..m]).Err?
    ensures Store(entries) == Store(entries[..m])
  {
    if m < |entries| {
      var n := |entries| - 1;
      assert entries[..n][..m] == entries[..m];
      StorePrefixError(entries[..n], m);
    } else {
      assert entries[..m] == entries;
    }
  }

  /** The dict holds each key once. */
  lemma {:induction false} StoreDistinct(entries: seq<Entry>)
    requires Store(entries).Ok?
    ensures DistinctKeys(Store(entries).value)
  {
    if entries != [] {
      var n := |entries| - 1;
      StoreDistinct(entries[..n]);
      var entry := entries[n].value;
      PutDistinct(Store(entries[..n]).value, entry.0, entry.1);
    }
  }

  /** Looking a key up in the dict gives the record of the last entry stored under it. */
  lemma {:induction false} StoreLookup(entries: seq<Entry>, k: string)
    requires Store(entries).Ok?
    ensures Get(Store(entries).value, k) == LastStored(entries, k)
  {
    if entries != [] {
      StoreLookup(entries[..|entries| - 1], k);
    }
  }

  /** A key has a record exactly when some entry is stored under it, and that record is an entry's. */
  lemma {:induction false} LastStoredSome(entries: seq<Entry>, k: string)
    ensures LastStored(entries, k).Some? <==>
      exists j :: 0 <= j < |entries| && entries[j].Ok? && entries[j].value.0 == k
    ensures LastStored(entries, k).Some? ==>
      exists j :: 0 <= j < |entries| && entries[j] == Ok((k, LastStored(entries, k).value))
  {
    if entries != [] {
      var n := |entries| - 1;
      LastStoredSome(entries[..n], k);
      assert forall j :: 0 <= j < n ==> entries[..n][j] == entries[j];
    }
  }

  /** The last entry stored under a key wins over every earlier one. */
  lemma {:induction false} LastStoredWins(entries: seq<Entry>, j: nat, k: string, rec: Record)
    requires j < |entries| && entries[j] == Ok((k, rec))
    requires forall i :: j < i < |entries| ==> entries[i].Err? || entries[i].value.0 != k
    ensures LastStored(entries, k) == Some(rec)
  {
    var n := |entries| - 1;
    if j < n {
      assert entries[..n][j] == entries[j];
      LastStoredWins(entries[..n], j, k, rec);
    }
  }

  // ---------------------------------------------------------------------
  // Properties of a report
  // ---------------------------------------------------------------------

  /** A report comes out only when every data row reads. */
  lemma ReportRowOk(table: seq<seq<string>>, j: nat)
    requires ReportOf(table).Ok? && 1 <= j < |table|
    ensures RecordOf(table[j]).Ok?
  {
    var entries := Entries(table[1..]);
    assert Store(entries).Ok?;
    if entries[j - 1].Err? {
      StoreErr(entries, j - 1);
    }
    assert entries[j - 1] == RecordOf(table[j]);
  }

  /** A table whose header checks pass and whose data rows all read gives a report. */
  lemma ReportOk(table: seq<seq<string>>)
    requires table != [] && HeaderKind(table[0]).Ok?
    requires forall j :: 1 <= j < |table| ==> RecordOf(table[j]).Ok?
    ensures ReportOf(table).Ok?
  {
    var entries := Entries(table[1..]);
    assert forall j :: 0 <= j < |entries| ==> entries[j] == RecordOf(table[j + 1]);
    StoreOk(entries);
  }

  /** The first data row that does not read decides the error of the report. */
  lemma ReportFirstError(table: seq<seq<string>>, j: nat)
    requires 1 <= j < |table| && HeaderKind(table[0]).Ok? && RecordOf(table[j]).Err?
    requires forall i :: 1 <= i < j ==> RecordOf(table[i]).Ok?
    ensures ReportOf(table) == Err(RecordOf(table[j]).error)
  {
    var entries := Entries(table[1..]);
    assert forall i :: 0 <= i < |entries| ==> entries[i] == RecordOf(table[i + 1]);
    StoreFirstError(entries, j - 1);
  }

  /**
   * A report holds each parameter once; looking a key up gives the record
   * of the last row stored under it, and a key is present exactly when some
   * row is stored under it.
   */
  lemma ReportEntries(table: seq<seq<string>>, k: string)
    requires ReportOf(table).Ok?
    ensures DistinctKeys(ReportOf(table).value.result)
    ensures Get(ReportOf(table).value.result, k) == LastStored(Entries(table[1..]), k)
    ensures Get(ReportOf(table).value.result, k).Some? <==>
      exists j :: 1 <= j < |table| && RecordOf(table[j]).Ok? && RecordOf(table[j]).value.0 == k
  {
    var entries := Entries(table[1..]);
    StoreDistinct(entries);
    StoreLookup(entries, k);
    LastStoredSome(entries, k);
    assert forall i :: 0 <= i < |entries| ==> entries[i] == RecordOf(table[i + 1]);
  }

  /** A range a report keeps as bounds always has at least one of them. */
  lemma ReportRangesBounded(table: seq<seq<string>>, k: string)
    requires ReportOf(table).Ok?
    requires Get(ReportOf(table).value.result, k).Some?
    requires Get(ReportOf(table).value.result, k).value.range.Bounded?
    ensures Get(ReportOf(table).value.result, k).value.range.bounds.low.Some? ||
            Get(ReportOf(table).value.result, k).value.range.bounds.high.Some?
  {
    var entries := Entries(table[1..]);
    StoreLookup(entries, k);
    LastStoredSome(entries, k);
    var rec := LastStored(entries, k).value;
    var j :| 0 <= j < |entries| && entries[j] == Ok((k, rec));
    assert RecordOf(table[1..][j]) == Ok((k, rec));
  }

  // ---------------------------------------------------------------------
  // The parsing loop
  // ---------------------------------------------------------------------

  /** The body of the loop over the data rows: reads one row into a key and a record. */
  method ReadRow(row: seq<string>) returns (r: Entry)
    ensures r == RecordOf(row)
  {
    if |row| < 5 {
      return Err(IndexOutOfRange);
    }
    var value := RawValue(row[3]);
    var range: RangeCell;
    var bounds := ParseRange(row[4]);
    if bounds.Err? {
      if !IsValueError(bounds.error) {
        return Err(bounds.error);
      }
      range := RawRange(row[4]);
    } else {
      range := Bounded(bounds.value);
      var x := ParseValue(row[3]);
      if x.Ok? {
        value := Num(x.value);
      } else if !IsValueError(x.error) {
        return Err(x.error);
      }
    }
    if row[1] !in Labels {
      return Err(UnknownLabel(row[1]));
    }
    var entry := Labels[row[1]];
    return Ok((entry.key, Record(entry.roName, row[2], value, range)));
  }

  /** Reads a normalised table: checks the header, then stores the data rows one by one. */
  method ReadTable(table: seq<seq<string>>) returns (r: Result<Report, Error>)
    ensures r == ReportOf(table)
  {
    if table == [] {
      return Err(IndexOutOfRange);
    }
    var header := table[0];
    var rows := table[1..];
    var kind := HeaderKind(header);
    if kind.Err? {
      return Err(kind.error);
    }
    ghost var entries := Entries(rows);
    var data: seq<(string, Record)> := [];
    for i := 0 to |rows|
      invariant Store(entries[..i]) == Ok(data)
    {
      var entry := ReadRow(rows[i]);
      assert entries[..i + 1][..i] == entries[..i];
      assert entries[i] == entry;
      if entry.Err? {
        StorePrefixError(entries, i + 1);
        return Err(entry.error);
      }
      data := Put(data, entry.value.0, entry.value.1);
    }
    assert entries[..|rows|] == entries;
    return Ok(Report(header[1], data, kind.value));
  }

  /** `parse_report`: normalise the extracted grid, then read the table. */
  method ParseReport(grid: seq<Row>) returns (r: Result<Report, Error>)
    requires WellFormedGrid(grid)
    ensures r == ReportOf(Normalized(grid))
  {
    var rows := NormalizeTable(grid);
    r := ReadTable(rows);
  }
}
