/**
 * `normalize_table`: rebuilds the logical rows of a bulletin table from the
 * fragmented rows the PDF extractor returns. Leading rows whose first cell is
 * text but not a digit string are pieces of the header and are merged column
 * by column; after them, a row whose first cell is a digit string opens a new
 * parameter row and every other row is merged into the row being built.
 */
module Tables {
  import opened Text
  import opened Models

  type Row = seq<Cell>

  /** The guard of the header loop: the first cell is text and not a digit string. */
  predicate IsHeaderFragment(row: Row)
  {
    |row| > 0 && row[0].Text? && !IsDigitString(row[0].s)
  }

  /** The marker of a new parameter: the first cell is a digit string such as `12`. */
  predicate IsDigitLed(row: Row)
  {
    |row| > 0 && row[0].Text? && IsDigitString(row[0].s)
  }

  /** The number of leading header fragments, i.e. how many rows the header loop pops. */
  function FragmentCount(grid: seq<Row>): (n: nat)
    ensures n <= |grid|
    ensures forall j :: 0 <= j < n ==> IsHeaderFragment(grid[j])
    ensures n < |grid| ==> !IsHeaderFragment(grid[n])
  {
    if grid != [] && IsHeaderFragment(grid[0]) then 1 + FragmentCount(grid[1..]) else 0
  }

  predicate Rectangular(grid: seq<Row>, w: nat)
  {
    forall j :: 0 <= j < |grid| ==> |grid[j]| == w
  }

  /**
   * What `normalize_table` needs of its input: the column-name row followed
   * by the data rows, all of one positive width as a data frame has them,
   * and a row that ends the header (otherwise `data[0]` runs off the end).
   */
  predicate WellFormedGrid(grid: seq<Row>)
  {
    |grid| > 0 && |grid[0]| > 0 && Rectangular(grid, |grid[0]|) && FragmentCount(grid) < |grid|
  }

  /** `acc += f' {s}'` followed by `acc = acc.strip()`. */
  function Joined(acc: string, s: string): (r: string)
    ensures IsStripped(r)
  {
    Strip(acc + " " + s)
  }

  /**
   * Between stripped pieces the join is plain concatenation: the fragment is
   * appended to the accumulator after one space, and an empty side adds
   * nothing.
   */
  lemma JoinedParts(acc: string, s: string)
    requires IsStripped(acc) && IsStripped(s)
    ensures acc != [] && s != [] ==> Joined(acc, s) == acc + " " + s
    ensures acc == [] ==> Joined(acc, s) == s
    ensures s == [] ==> Joined(acc, s) == acc
  {
    var t := acc + " " + s;
    if acc == [] {
      StripJoinEmpty(s);
    } else {
      assert t[0] == acc[0];
      assert Strip(t) == StripRight(t);
      if s != [] {
        assert t[|t| - 1] == s[|s| - 1];
      } else {
        assert t[..|t| - 1] == acc;
        assert StripRight(t) == StripRight(acc);
      }
    }
  }

  /** A column name the extractor made up, such as `Unnamed: 2`. */
  predicate IsPlaceholder(s: string)
  {
    StartsWith(s, "Unnamed")
  }

  /** One header column: text that is not an `Unnamed` placeholder is joined on. */
  function HeaderCell(acc: string, c: Cell): string
  {
    if c.Text? && !IsPlaceholder(c.s) then Joined(acc, c.s) else acc
  }

  /** One parameter column: any text is joined on, `Unnamed` included. */
  function ParamCell(acc: string, c: Cell): string
  {
    if c.Text? then Joined(acc, c.s) else acc
  }

  /** `[''] * w`. */
  function Blank(w: nat): (r: seq<string>)
    ensures |r| == w && forall i :: 0 <= i < w ==> r[i] == ""
  {
    seq(w, _ => "")
  }

  /**
   * One header fragment merged in: a column whose cell is missing or a
   * placeholder keeps its text, and every other column comes out stripped.
   */
  function MergeHeader(acc: seq<string>, row: Row): (r: seq<string>)
    requires |row| == |acc|
    ensures |r| == |acc|
    ensures forall i :: 0 <= i < |acc| ==>
      if row[i].Text? && !IsPlaceholder(row[i].s) then IsStripped(r[i]) else r[i] == acc[i]
  {
    seq(|acc|, i requires 0 <= i < |acc| => HeaderCell(acc[i], row[i]))
  }

  /**
   * One row merged into the parameter being built: a column whose cell is
   * missing keeps its text, and every column with text comes out stripped.
   */
  function AppendRow(acc: seq<string>, row: Row): (r: seq<string>)
    requires |row| == |acc|
    ensures |r| == |acc|
    ensures forall i :: 0 <= i < |acc| ==> if row[i].Text? then IsStripped(r[i]) else r[i] == acc[i]
  {
    seq(|acc|, i requires 0 <= i < |acc| => ParamCell(acc[i], row[i]))
  }

  /** A header column with text that is not a placeholder gets that text joined on. */
  lemma MergeHeaderCell(acc: seq<string>, row: Row, c: nat)
    requires |row| == |acc| && c < |acc|
    requires row[c].Text? && !IsPlaceholder(row[c].s)
    ensures MergeHeader(acc, row)[c] == Joined(acc[c], row[c].s)
  {
  }

  /** A column of the parameter being built with text gets that text joined on. */
  lemma AppendRowCell(acc: seq<string>, row: Row, c: nat)
    requires |row| == |acc| && c < |acc|
    requires row[c].Text?
    ensures AppendRow(acc, row)[c] == Joined(acc[c], row[c].s)
  {
  }

  /** The header row after merging the fragments `rows`, in order, into `[''] * w`. */
  function HeaderOf(rows: seq<Row>, w: nat): (h: seq<string>)
    requires Rectangular(rows, w)
    ensures |h| == w
  {
    if rows == [] then Blank(w)
    else MergeHeader(HeaderOf(rows[..|rows| - 1], w), rows[|rows| - 1])
  }

  /** The state of the second phase: the finished rows and the row being built. */
  datatype Assembly = Assembly(done: seq<seq<string>>, current: seq<string>)

  /**
   * One row of the second phase: a digit-led row closes the row being built,
   * which is appended to the finished rows and never changed again; the width
   * of the row being built stays the same.
   */
  function Step(a: Assembly, row: Row): (r: Assembly)
    requires |row| == |a.current|
    ensures |r.current| == |a.current|
    ensures |r.done| == |a.done| + (if IsDigitLed(row) then 1 else 0)
    ensures r.done[..|a.done|] == a.done
    ensures IsDigitLed(row) ==> r.done[|a.done|] == a.current
  {
    if IsDigitLed(row) then Assembly(a.done + [a.current], AppendRow(Blank(|row|), row))
    else Assembly(a.done, AppendRow(a.current, row))
  }

  /** The second phase over `rows`, starting from the merged header as the row being built. */
  function Run(rows: seq<Row>, header: seq<string>): (a: Assembly)
    requires Rectangular(rows, |header|)
    ensures |a.current| == |header|
  {
    if rows == [] then Assembly([], header)
    else Step(Run(rows[..|rows| - 1], header), rows[|rows| - 1])
  }

  /** The table `normalize_table` returns. */
  function Normalized(grid: seq<Row>): (t: seq<seq<string>>)
    requires WellFormedGrid(grid)
    ensures 1 <= |t| <= 1 + |grid| - FragmentCount(grid)
  {
    var n := FragmentCount(grid);
    var a := Run(grid[n..], HeaderOf(grid[..n], |grid[0]|));
    RunDoneCount(grid[n..], HeaderOf(grid[..n], |grid[0]|));
    a.done + [a.current]
  }

  /** The inner loop of the header phase, updating the accumulator in place. */
  method MergeHeaderInto(acc: array<string>, row: Row)
    requires acc.Length == |row|
    modifies acc
    ensures acc[..] == MergeHeader(old(acc[..]), row)
  {
    ghost var before := acc[..];
    for i := 0 to acc.Length
      invariant forall j :: 0 <= j < i ==> acc[j] == HeaderCell(before[j], row[j])
      invariant forall j :: i <= j < acc.Length ==> acc[j] == before[j]
    {
      var column := row[i];
      if column.Text? && !IsPlaceholder(column.s) {
        acc[i] := Joined(acc[i], column.s);
      }
      assert acc[i] == HeaderCell(before[i], row[i]);
    }
  }

  /** The inner loop of the parameter phase, updating the row being built in place. */
  method AppendRowInto(acc: array<string>, row: Row)
    requires acc.Length == |row|
    modifies acc
    ensures acc[..] == AppendRow(old(acc[..]), row)
  {
    ghost var before := acc[..];
    for i := 0 to acc.Length
      invariant forall j :: 0 <= j < i ==> acc[j] == ParamCell(before[j], row[j])
      invariant forall j :: i <= j < acc.Length ==> acc[j] == before[j]
    {
      var column := row[i];
      if column.Text? {
        acc[i] := Joined(acc[i], column.s);
      }
    }
  }

  /** `normalize_table` on the rows of the data frame, column names first. */
  method NormalizeTable(grid: seq<Row>) returns (rows: seq<seq<string>>)
    requires WellFormedGrid(grid)
    ensures rows == Normalized(grid)
  {
    var data, headerRow := MergeHeaderRows(grid);
    rows := AssembleRows(data, headerRow);
  }

  /** Step 1: pops the header fragments off the front and merges them into `headerRow`. */
  method MergeHeaderRows(grid: seq<Row>) returns (data: seq<Row>, headerRow: array<string>)
    requires WellFormedGrid(grid)
    ensures fresh(headerRow)
    ensures data == grid[FragmentCount(grid)..]
    ensures headerRow[..] == HeaderOf(grid[..FragmentCount(grid)], |grid[0]|)
  {
    var w := |grid[0]|;
    ghost var n := FragmentCount(grid);
    data := grid;
    headerRow := new string[w](_ => "");
    assert headerRow[..] == Blank(w);
    ghost var popped := 0;

    while data[0][0].Text? && !IsDigitString(data[0][0].s)
      invariant popped <= n
      invariant data == grid[popped..]
      invariant headerRow.Length == w
      invariant headerRow[..] == HeaderOf(grid[..popped], w)
      decreases |data|
    {
      var row: Row := data[0];
      data := data[1..];
      MergeHeaderInto(headerRow, row);
      assert grid[..popped + 1][..popped] == grid[..popped];
      popped := popped + 1;
    }
  }

  /**
   * Step 2: a digit-led row closes the row being built and starts a blank
   * one; every row is then merged into the row being built. The header array
   * itself is the first row being built, so the merges update it in place;
   * what it holds afterwards is not used, and callers read `rows` only.
   */
  method AssembleRows(data: seq<Row>, headerRow: array<string>) returns (rows: seq<seq<string>>)
    requires headerRow.Length > 0 && Rectangular(data, headerRow.Length)
    modifies headerRow
    ensures var a := Run(data, old(headerRow[..])); rows == a.done + [a.current]
  {
    ghost var header := headerRow[..];
    var normalizedData: seq<seq<string>> := [];
    var currentParam := headerRow;
    for i := 0 to |data|
      invariant currentParam == headerRow || fresh(currentParam)
      invariant currentParam.Length == |header|
      invariant Assembly(normalizedData, currentParam[..]) == Run(data[..i], header)
    {
      var row: Row := data[i];
      if row[0].Text? && IsDigitString(row[0].s) {
        normalizedData := normalizedData + [currentParam[..]];
        currentParam := new string[|row|](_ => "");
        assert currentParam[..] == Blank(|row|);
      }
      AppendRowInto(currentParam, row);
      assert data[..i + 1][..i] == data[..i];
    }
    assert data[..|data|] == data;
    rows := normalizedData + [currentParam[..]];
  }

  // ---------------------------------------------------------------------------
  // Properties of the normalised table

  /** The number of rows of `rows` that open a parameter. */
  function DigitLedCount(rows: seq<Row>): (k: nat)
    ensures k <= |rows|
  {
    if rows == [] then 0
    else DigitLedCount(rows[..|rows| - 1]) + (if IsDigitLed(rows[|rows| - 1]) then 1 else 0)
  }

  lemma {:induction false} RunDoneCount(rows: seq<Row>, header: seq<string>)
    requires Rectangular(rows, |header|)
    ensures |Run(rows, header).done| == DigitLedCount(rows)
  {
    if rows != [] {
      RunDoneCount(rows[..|rows| - 1], header);
    }
  }

  /** One row for the header and one per digit-led row after it. */
  lemma NormalizedRowCount(grid: seq<Row>)
    requires WellFormedGrid(grid)
    ensures |Normalized(grid)| == 1 + DigitLedCount(grid[FragmentCount(grid)..])
  {
    var n := FragmentCount(grid);
    RunDoneCount(grid[n..], HeaderOf(grid[..n], |grid[0]|));
  }

  /** Every row of `t` has width `w` and holds only stripped strings. */
  predicate TrimmedRows(t: seq<seq<string>>, w: nat)
  {
    forall r :: 0 <= r < |t| ==> |t[r]| == w && TrimmedRow(t[r])
  }

  predicate TrimmedRow(r: seq<string>)
  {
    forall c :: 0 <= c < |r| ==> IsStripped(r[c])
  }

  lemma {:induction false} HeaderTrimmed(rows: seq<Row>, w: nat)
    requires Rectangular(rows, w)
    ensures TrimmedRow(HeaderOf(rows, w))
  {
    if rows != [] {
      HeaderTrimmed(rows[..|rows| - 1], w);
    }
  }

  lemma {:induction false} RunTrimmed(rows: seq<Row>, header: seq<string>)
    requires Rectangular(rows, |header|) && TrimmedRow(header)
    ensures TrimmedRow(Run(rows, header).current)
    ensures forall r :: 0 <= r < |Run(rows, header).done| ==>
      |Run(rows, header).done[r]| == |header| && TrimmedRow(Run(rows, header).done[r])
  {
    if rows != [] {
      RunTrimmed(rows[..|rows| - 1], header);
    }
  }

  /** Every output row has the grid's width, and every output cell is trimmed. */
  lemma NormalizedTrimmed(grid: seq<Row>)
    requires WellFormedGrid(grid)
    ensures TrimmedRows(Normalized(grid), |grid[0]|)
  {
    var n := FragmentCount(grid);
    var header := HeaderOf(grid[..n], |grid[0]|);
    HeaderTrimmed(grid[..n], |grid[0]|);
    RunTrimmed(grid[n..], header);
    var a := Run(grid[n..], header);
    var t := Normalized(grid);
    forall r | 0 <= r < |t|
      ensures |t[r]| == |grid[0]| && TrimmedRow(t[r])
    {
      if r < |a.done| {
        assert t[r] == a.done[r];
      }
    }
  }

  lemma {:induction false} RunFirstRow(rows: seq<Row>, header: seq<string>)
    requires Rectangular(rows, |header|) && rows != [] && IsDigitLed(rows[0])
    ensures Run(rows, header).done != [] && Run(rows, header).done[0] == header
  {
    if |rows| > 1 {
      var init := rows[..|rows| - 1];
      assert init[0] == rows[0];
      RunFirstRow(init, header);
    } else {
      assert rows[..0] == [];
    }
  }

  /** When the header is followed directly by a parameter row, the first output row is the merged header. */
  lemma NormalizedHeader(grid: seq<Row>)
    requires WellFormedGrid(grid) && IsDigitLed(grid[FragmentCount(grid)])
    ensures Normalized(grid)[0] == HeaderOf(grid[..FragmentCount(grid)], |grid[0]|)
  {
    var n := FragmentCount(grid);
    RunFirstRow(grid[n..], HeaderOf(grid[..n], |grid[0]|));
  }

  /** A cell the header phase skips: not text, or an `Unnamed` placeholder. */
  predicate Skipped(c: Cell)
  {
    c.Other? || StartsWith(c.s, "Unnamed")
  }

  /** A header fragment made only of skipped cells contributes nothing, wherever it stands. */
  lemma {:induction false} HeaderIgnoresSkippedRow(rows: seq<Row>, k: nat, w: nat)
    requires Rectangular(rows, w) && k < |rows|
    requires forall c :: 0 <= c < w ==> Skipped(rows[k][c])
    ensures HeaderOf(rows[..k] + rows[k + 1..], w) == HeaderOf(rows, w)
  {
    var without := rows[..k] + rows[k + 1..];
    var last := |rows| - 1;
    if k == last {
      assert without == rows[..last];
      MergeSkippedRow(HeaderOf(rows[..last], w), rows[last]);
    } else {
      var init := rows[..last];
      DropShape(rows, k);
      assert init[k] == rows[k];
      HeaderIgnoresSkippedRow(init, k, w);
      assert Rectangular(without, w) by {
        forall j | 0 <= j < |without| ensures |without[j]| == w {
          if j < k { assert without[j] == rows[j]; } else { assert without[j] == rows[j + 1]; }
        }
      }
      HeaderOfSnoc(without, w);
      assert HeaderOf(rows, w) == MergeHeader(HeaderOf(init, w), rows[last]);
    }
  }

  /** Dropping a row before the last one keeps the last row last. */
  lemma DropShape(rows: seq<Row>, k: nat)
    requires k + 1 < |rows|
    ensures var without := rows[..k] + rows[k + 1..];
      && without != []
      && without[..|without| - 1] == rows[..|rows| - 1][..k] + rows[..|rows| - 1][k + 1..]
      && without[|without| - 1] == rows[|rows| - 1]
  {
  }

  lemma MergeSkippedRow(acc: seq<string>, row: Row)
    requires |row| == |acc|
    requires forall c :: 0 <= c < |row| ==> Skipped(row[c])
    ensures MergeHeader(acc, row) == acc
  {
  }

  lemma HeaderOfSnoc(rows: seq<Row>, w: nat)
    requires Rectangular(rows, w) && rows != []
    ensures HeaderOf(rows, w) == MergeHeader(HeaderOf(rows[..|rows| - 1], w), rows[|rows| - 1])
  {
  }

  /** The text of a cell, empty for a cell that is not text. */
  function CellText(c: Cell): string
  {
    if c.Text? then c.s else ""
  }

  /** The text of each cell of a row. */
  function Texts(row: Row): (r: seq<string>)
    ensures |r| == |row| && forall c :: 0 <= c < |row| ==> r[c] == CellText(row[c])
  {
    seq(|row|, c requires 0 <= c < |row| => CellText(row[c]))
  }

  /** A row that is already a clean parameter row: digit-led and all trimmed text. */
  predicate CleanRow(row: Row)
  {
    IsDigitLed(row) && forall c :: 0 <= c < |row| ==> row[c].Text? && IsStripped(row[c].s)
  }

  lemma CleanRowKept(row: Row)
    requires CleanRow(row)
    ensures AppendRow(Blank(|row|), row) == Texts(row)
  {
    forall c | 0 <= c < |row|
      ensures ParamCell("", row[c]) == CellText(row[c])
    {
      StripJoinEmpty(row[c].s);
    }
  }

  lemma {:induction false} RunClean(rows: seq<Row>, header: seq<string>)
    requires Rectangular(rows, |header|)
    requires forall j :: 0 <= j < |rows| ==> CleanRow(rows[j])
    ensures Run(rows, header).done + [Run(rows, header).current] ==
      [header] + seq(|rows|, j requires 0 <= j < |rows| => Texts(rows[j]))
  {
    if rows != [] {
      var init := rows[..|rows| - 1];
      RunClean(init, header);
      CleanRowKept(rows[|rows| - 1]);
      var texts := seq(|rows|, j requires 0 <= j < |rows| => Texts(rows[j]));
      var initTexts := seq(|init|, j requires 0 <= j < |init| => Texts(init[j]));
      assert initTexts == texts[..|init|];
      assert texts == initTexts + [Texts(rows[|rows| - 1])];
    }
  }

  /**
   * A grid whose rows after the header are all clean parameter rows comes back
   * row for row: the merged header, then the text of each row unchanged.
   */
  lemma NormalizedClean(grid: seq<Row>)
    requires WellFormedGrid(grid)
    requires forall j :: FragmentCount(grid) <= j < |grid| ==> CleanRow(grid[j])
    ensures var n := FragmentCount(grid);
      Normalized(grid) ==
        [HeaderOf(grid[..n], |grid[0]|)] + seq(|grid| - n, j requires 0 <= j < |grid| - n => Texts(grid[n + j]))
  {
    var n := FragmentCount(grid);
    RunClean(grid[n..], HeaderOf(grid[..n], |grid[0]|));
    TextsOfSuffix(grid, n);
  }

  lemma TextsOfSuffix(grid: seq<Row>, n: nat)
    requires n <= |grid|
    ensures var body := grid[n..];
      seq(|body|, j requires 0 <= j < |body| => Texts(body[j]))
        == seq(|grid| - n, j requires 0 <= j < |grid| - n => Texts(grid[n + j]))
  {
  }
}
