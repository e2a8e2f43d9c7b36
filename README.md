# Bucharest tap-water bulletins: table normalisation, range parsing and the range check

The system downloads the water-quality bulletins of Bucharest's water
company, extracts the tables of each PDF bulletin, and turns each table
into an `AnalysisReport`: one record per measured parameter, holding its
Romanian name, its unit, the value obtained and the range the regulations
admit. A second step lists the parameters whose value lies outside their
admitted range.

This project models the core of that pipeline in Dafny:

- `normalize_table` (module `Tables`): rebuilds the logical rows of a
  table from the fragmented rows the extractor returns. The header
  fragments are merged column by column. After the header, every row
  whose first cell is a digit string opens a new parameter row, and every
  row is merged into the parameter row being built. The loops are methods
  over arrays, proved against fold functions.
- `parse_range` (module `Intervals`): reads a cell such as `<5`,
  `≥6.5; ≤9.5` or `2500` as a pair of optional bounds. The two comparator
  scans are loops proved against a scanning function.
- `parse_value` (module `Scalars`): reads a cell such as `45`, `4.3 / 4.4`
  or `<45` as one number. A leading run of digits and dots wins. Otherwise
  the one non-zero bound of the range is nudged towards its open side.
- `parse_report` (module `Reports`): checks the header row, then reads
  each data row through the 35-entry label table (module `LabelTable`)
  into an insertion-ordered dict (module `Dicts`). Only the parsers'
  `ValueError`s are caught; every other error ends the report.
- `is_in_range` and `get_abnormal_params` (module `RangeCheck`): the
  inclusive range test, and the filter that keeps the abnormal records.

Python's `float()` on text is modelled in `Decimals` for plain decimal
literals. The `str` methods the parsers use (`strip`, `startswith`,
`find`, `isdigit`, `isspace`) are modelled in `Text`. The exceptions the
code raises are values of `Models.Error`, returned in a `Result`, and each
is tagged with the Python class it is raised as.

## Model

| member | source | states |
|---|---|---|
| Text.Find | utils.py:239 | `str.find` on one character: -1 exactly when the character is absent; otherwise the index holds it and no earlier index does |
| Text.Strip | utils.py:159 | the result of `strip()` has no whitespace at either end |
| Text.StripLeft | utils.py:159 | the leading whitespace is removed and nothing else: the result is a suffix, everything cut off is whitespace, and the result does not start with whitespace |
| Text.StripRight | utils.py:159 | the trailing whitespace is removed and nothing else: the result is a prefix, everything cut off is whitespace, and the result does not end with whitespace |
| Text.StripBothEnds | utils.py:159 | `strip()` is the right strip of the left strip, so it removes whitespace at both ends and nothing in between |
| Text.StripStripped | utils.py:174 | stripping a string with no whitespace at its ends gives it back unchanged |
| Text.StripJoinEmpty | utils.py:158-159 | joining a stripped text onto an empty header cell with a space, then stripping, gives the text itself |
| Decimals.DecimalOf | utils.py:196 | a string that reads as a decimal literal is non-empty, made only of digits and dots, and reads as a non-negative number |
| Decimals.DecimalOfAccepts | utils.py:196 | a run of digits and dots reads as a number exactly when it holds a digit and at most one dot |
| Decimals.DotsRejected | utils.py:196 | `float('.')` and `float('1.2.3')` raise |
| Decimals.FloatOfNumChars | utils.py:195-196 | on a run of digits and dots, `float()` is exactly the decimal-literal reading |
| Decimals.DecimalOfPoint | utils.py:196 | `a.b` reads as the number `a` spells plus the digits `b` as a fraction |
| Decimals.DecimalOfDigits | utils.py:196 | a digit string reads as the whole number it spells |
| Decimals.NonNumericText | utils.py:223-227 | text starting with neither a digit, a dot, a sign nor whitespace is not a number, whatever follows (trailing blanks included), so `parse_range` goes on to the comparator scans |
| Intervals.BoundText | utils.py:239-246 | the text scanned for one side holds only digits and dots, and is empty unless one of that side's comparators occurs |
| Intervals.BoundOf | utils.py:257-258 | an empty scan is no bound; a non-empty scan is its literal value, or the conversion error naming it when it is not a literal |
| Intervals.ComparatorEnd | utils.py:239 | `(1 + find(a)) or (1 + find(b))` is one past the first `a`, else one past the first `b`, else 0 |
| Intervals.ScanFromIsRun | utils.py:241-246 | the scan after a comparator collects exactly the digits and dots of the stretch of digits, dots and whitespace that follows it |
| Intervals.RangeOf | utils.py:214-262 | a success has at least one bound; `IndexError` exactly for the empty text; the "Cannot convert" error exactly for text that is not a number and starts with neither a comparator nor a digit; bounds read after comparators are non-negative |
| Intervals.ParseRange | utils.py:214-262 | the loop version returns exactly what `RangeOf` gives |
| Intervals.ScanAfter | utils.py:239-255 | the loop that finds a comparator and appends the characters after it collects the side's bound text |
| Intervals.ScanLoop | utils.py:241-246 | the loop after a comparator skips whitespace, appends digits and dots and stops at any other character, collecting exactly `ScanFrom` |
| Intervals.BareNumberIsUpperBound | utils.py:223-230 | a bare decimal number `x` gives `(None, x)` |
| Intervals.BoundTextAfterComparator | utils.py:239-255 | a side's bound text is read after its first strict comparator, or after its first loose one when no strict one occurs |
| Intervals.NoComparatorNoBound | utils.py:239-249 | a side whose two comparators are absent has no bound text |
| Intervals.BoundsNeedComparators | utils.py:248-258 | when the text is not a number, an upper bound needs `<` or `≤` in the text and a lower bound needs `>` or `≥` |
| Intervals.ComparatorThenNumber | utils.py:232-262 | a comparator, optional spaces and a literal give the literal as an upper bound for `<`/`≤` and as a lower bound for `>`/`≥` |
| Intervals.RangeOfScans | utils.py:232-262 | past the number test and the first-character test, the range is read off the two scans, one-sided or two-sided and whatever follows them: the low scan is converted first, a scan that is not a literal raises its conversion error, two empty scans raise the "no bound" error, and otherwise the bounds are the two readings |
| Intervals.TwoSidedBounds | utils.py:239-262 | `≥l; ≤h` gives `(l, h)` |
| Intervals.TwoSidedExample | utils.py:239-262 | `≥6.5; ≤9.5` gives `(6.5, 9.5)` |
| Intervals.RangeOfZero | test_utils.py:125 | `parse_range('0') == (None, 0)` |
| Intervals.RangeOfAtMost | test_utils.py:127 | `parse_range('≤0.002') == (None, 0.002)` |
| Intervals.RangeOfAtLeast | test_utils.py:128 | `parse_range('≥0.002') == (0.002, None)` |
| Intervals.RangeOfTrailingZeros | test_utils.py:129 | `parse_range('0.0020') == (None, 0.002)` |
| Intervals.RangeOfText | test_utils.py:131-135 | `Acceptabil` is refused with the message `Cannot convert value "Acceptabil" into range.` |
| Scalars.LeadingRunLength | utils.py:188-193 | the count of leading digits and dots: every counted character is one, and the next character is not |
| Scalars.CountLeadingRun | utils.py:188-193 | the counting loop with its `break` stops at exactly that count |
| Scalars.LeadingRunUnique | utils.py:188-193 | the count is the only prefix length whose characters are all digits or dots and that the next character ends |
| Scalars.NoLeadingRun | utils.py:189-193 | a text opening with a character other than a digit or a dot has no leading run |
| Scalars.TruthyBounds | utils.py:203 | `filter(None, range_)` keeps exactly the bounds that are present and non-zero, each once, the low one first when both survive; two equal non-zero bounds give two elements |
| Scalars.Frac | utils.py:208 | `x % 1` is in `[0, 1)` and is `x` minus its floor |
| Scalars.Epsilon | utils.py:208 | `val % 1 / 100 or 0.01` is positive, at most 0.01, and a hundredth of the fraction when there is one |
| Scalars.EpsilonBelowPositive | utils.py:208 | for a positive bound the nudge is smaller than the bound |
| Scalars.EpsilonWhole | utils.py:208 | a whole number is nudged by 0.01 |
| Scalars.EpsilonBelowOne | utils.py:208 | a number below one is nudged by a hundredth of itself |
| Scalars.ValueOf | utils.py:182-211 | with the side of the nudge corrected (see Findings): a leading run decides alone, and succeeds exactly when it is a literal; otherwise errors of `parse_range` propagate, and the "exactly 1 valid value" error comes exactly when the range has no single non-zero bound |
| Scalars.ParseValue | utils.py:182-211 | the loop version returns exactly what `ValueOf` gives, so it reads a zero-low range with the corrected side |
| Scalars.NudgeIntoRange | utils.py:203-211 | the tail of `parse_value` returns the single truthy bound nudged with the corrected side (see Findings), or the "exactly 1 valid value" error |
| Scalars.ValueOfLeadingRun | utils.py:195-196 | with a leading run the value is that run read by `float()`, or a `float()` error naming it |
| Scalars.ValueOfRange | utils.py:198-211 | without a leading run the value comes from the range |
| Scalars.LeadingNumberWins | utils.py:188-196 | a literal followed by anything that is not a digit or a dot reads as the literal |
| Scalars.OpenSide | utils.py:198-211 | a value read from a range has a range with one non-zero bound, lies strictly on that bound's open side and at most 0.01 from it, and is positive below a positive upper bound |
| Scalars.ValueOfOneBound | utils.py:203-211 | a one-sided range `x` reads as `x + ε` for a lower bound, `x - ε` for an upper bound, and is refused when `x` is zero |
| Scalars.FromOneBound | utils.py:203-211 | the same, on the range itself |
| Scalars.ComparatorTextFacts | utils.py:189-262 | a comparator text has no leading run, and its range is its literal on the comparator's side |
| Scalars.ValueZero | test_utils.py:97 | `parse_value('0') == 0` |
| Scalars.ValueFirstOfTwo | test_utils.py:99 | `parse_value('4.3 / 4.4') == 4.3` |
| Scalars.ValueFortyFive | test_utils.py:101 | `parse_value('45') == 45` |
| Scalars.ValueBelow45 | test_utils.py:102 | `parse_value('<45') == 44.99` |
| Scalars.ValueBelowSpaced45 | test_utils.py:103 | `parse_value('< 45') == 44.99` |
| Scalars.ValueAbove45 | test_utils.py:104 | `parse_value('>45') == 45.01` |
| Scalars.ValueAtLeast45 | test_utils.py:105 | `parse_value('≥ 45') == 45.01` |
| Scalars.ValueSmall | test_utils.py:107 | `parse_value('0.002') == 0.002` |
| Scalars.ValueAtMostSmall | test_utils.py:108 | `parse_value('≤0.002') == 0.00198` |
| Scalars.ValueAtLeastSmall | test_utils.py:109 | `parse_value('≥0.002') == 0.00202` |
| Scalars.TwoBoundsRefused | test_utils.py:111-117 | `parse_value('≥6.5; ≤9.5')` raises the "exactly 1 valid value" error |
| Scalars.TextRefused | test_utils.py:118-123 | `parse_value('Acceptabil')` raises the error of `parse_range` |
| Scalars.ValueOfAsWritten | utils.py:182-211 | `parse_value` as written: when a low bound is present the value lands above the kept bound, even if that bound is the upper one |
| Scalars.AsWrittenAgrees | utils.py:203-211 | the source's reading equals the corrected `Scalars.ValueOf` on every text except a range whose low bound is zero |
| Scalars.FromRange | utils.py:203-211 | the "exactly 1 valid value" error comes exactly when the range has no single non-zero bound; otherwise the value is within 0.01 of that bound but not equal to it, below it when there is no low bound, above it when a non-zero low bound is present, and above it as written whenever a low bound is present |
| Scalars.ValueWith | utils.py:188-211 | a leading run is read by `float()` alone, with its error naming the run; otherwise an error of `parse_range` propagates and the range decides the value |
| Scalars.AsWrittenRange | utils.py:209-211 | as written, the side of the nudge is chosen by whether a low bound is present at all |
| Scalars.FromZeroLow | utils.py:207-211 | with a zero low bound, choosing the side by presence nudges upwards and choosing it by the kept bound nudges downwards |
| Scalars.ZeroLowBoundAsWritten | utils.py:203-211 | as written, `(0, b)` reads as `b + ε`, above `b` |
| Scalars.ZeroLowBoundCorrected | utils.py:203-211 | corrected, `(0, b)` reads as `b - ε`, inside `(0, b)` when `b > 0` |
| Scalars.ZeroToFive | utils.py:203-211 | `≥0; ≤5` reads as 5.01 as written and as 4.99 corrected |
| Tables.FragmentCount | utils.py:154-155 | the number of rows the header loop pops: all of them are header fragments, and the next row is not |
| Tables.Joined | utils.py:158-159 | `acc += f' {s}'` followed by `strip()` leaves no whitespace at either end |
| Tables.JoinedParts | utils.py:158-159 | between stripped pieces the join is the accumulator, one space and the fragment; an empty accumulator gives the fragment and an empty fragment the accumulator |
| Tables.MergeHeader | utils.py:156-159 | a column whose cell is not text or is an `Unnamed` placeholder keeps its header text; every other column comes out stripped |
| Tables.AppendRow | utils.py:171-174 | a column whose cell is not text keeps its text in the row being built; every other column comes out stripped |
| Tables.MergeHeaderCell | utils.py:157-159 | a header column whose cell is text and not an `Unnamed` placeholder gets that text joined onto it |
| Tables.AppendRowCell | utils.py:172-174 | a column of the row being built whose cell is text gets that text joined onto it |
| Tables.HeaderOf | utils.py:151-159 | the merged header has one cell per column |
| Tables.Step | utils.py:165-174 | a digit-led row appends the row being built to the finished rows, which never change again; otherwise nothing is finished; the width of the row being built stays the same |
| Tables.Normalized | utils.py:142-179 | the result has at least the header row and at most one row per row after the header fragments, plus one |
| Tables.Run | utils.py:162-174 | the row being built keeps the header's width |
| Tables.MergeHeaderInto | utils.py:156-159 | the in-place inner loop leaves the header array equal to `MergeHeader` of its old contents |
| Tables.AppendRowInto | utils.py:171-174 | the in-place inner loop leaves the row array equal to `AppendRow` of its old contents |
| Tables.MergeHeaderRows | utils.py:151-158 | the header loop pops exactly the leading fragments and leaves their merge in a new array |
| Tables.AssembleRows | utils.py:161-177 | the parameter loop returns the finished rows followed by the row being built, as `Run` computes them |
| Tables.NormalizeTable | utils.py:142-179 | the method returns exactly `Normalized` of the grid |
| Tables.RunDoneCount | utils.py:165-168 | one finished row per digit-led row |
| Tables.NormalizedRowCount | utils.py:161-177 | the output has one row for the header and one per digit-led row after it |
| Tables.HeaderTrimmed | utils.py:156-159 | every merged header cell is stripped |
| Tables.RunTrimmed | utils.py:165-174 | every finished row and the row being built keep the width and hold stripped cells |
| Tables.NormalizedTrimmed | utils.py:151-177 | every output row has the grid's width and every output cell is stripped |
| Tables.RunFirstRow | utils.py:162-168 | when the first data row is digit-led, the header is the first finished row |
| Tables.NormalizedHeader | utils.py:151-168 | the first output row is the merged header when a parameter row follows it directly |
| Tables.HeaderIgnoresSkippedRow | utils.py:156-157 | a header fragment made only of non-text cells and `Unnamed` placeholders contributes nothing, wherever it stands |
| Tables.CleanRowKept | utils.py:165-174 | a clean digit-led row starts a blank row and comes back as its texts |
| Tables.RunClean | utils.py:165-177 | clean parameter rows come back row for row after the header |
| Tables.NormalizedClean | utils.py:142-179 | a grid whose data rows are all clean comes back as the merged header followed by the text of each row |
| Dicts.Put | utils.py:128-133 | `d[k] = v` makes `k` map to `v` and leaves every other key's value alone |
| Dicts.PutShape | utils.py:128-133 | a new key goes at the end; an existing key keeps its place |
| Dicts.PutDistinct | utils.py:128-133 | assigning a key keeps the keys distinct |
| Dicts.PutEntries | report.py:21 | after `d[k] = v` every pair is `(k, v)` or was already there |
| Reports.KindOf | utils.py:55-62 | the microbiological title gives the microbiological kind, the chemical title the chemical kind, and any other title the "Cannot identify report type" error |
| Reports.HeaderKind | utils.py:53-66 | the header passes exactly when its title is known, column 2 is the unit, column 3 the obtained values, and column 4 starts with one of the two range headings; a header with fewer than two cells is an `IndexError`; an unknown title is reported before the column checks; a failing column check is the `AssertionError` for that column, checked in column order, and an `IndexError` comes only from a header shorter than five cells |
| Reports.ReadCells | utils.py:115-126 | a range that raises a `ValueError` is kept as text and the value is then kept as text unparsed; a parsed range has a bound; the value is a number exactly when both the range and the value parse; a value that raises a `ValueError` next to a parsed range is kept as text; any other error of either parser (an `IndexError`) propagates |
| Reports.EmptyValueCellFails | utils.py:121-126 | an empty value cell next to a parsed range raises the `IndexError` of `parse_value`, which the `except ValueError` does not catch |
| Reports.RecordOf | utils.py:115-133 | a row reads exactly when it has five cells, its cells read and its label is in the table; the key and Romanian name come from the label table, the unit from column 2; a short row is an `IndexError`, an error of the cells comes before the label lookup, and an unknown label is the `KeyError` naming it |
| Reports.ReportOf | utils.py:51-139 | an empty table is an `IndexError`; a header error comes before any row error; a report carries the header's title and kind and the dict of the data rows |
| Reports.ReadRow | utils.py:115-133 | the loop body returns exactly `RecordOf` of the row |
| Reports.ReadTable | utils.py:53-139 | the header checks and the loop return exactly `ReportOf` of the table |
| Reports.ParseReport | utils.py:51-139 | `parse_report` on a well-formed grid returns `ReportOf` of its normalised table |
| Reports.Store | utils.py:114-133 | a failed store fails with the error of one of its rows |
| Reports.StoreOk | utils.py:114-133 | rows that all read give a dict |
| Reports.StoreErr | utils.py:114-133 | any row that fails makes the loop fail |
| Reports.StoreFirstError | utils.py:114-133 | the first row that fails decides the error |
| Reports.StorePrefixError | utils.py:114-133 | once a prefix of the rows fails, the whole loop fails the same way |
| Reports.StoreDistinct | utils.py:128-133 | the dict holds each key once |
| Reports.StoreLookup | utils.py:128-133 | looking a key up gives the record of the last row stored under it |
| Reports.LastStoredSome | utils.py:128-133 | a key has a record exactly when some row is stored under it, and the record is that row's |
| Reports.LastStoredWins | utils.py:128-133 | the last row stored under a key overwrites every earlier one |
| Reports.ReportRowOk | utils.py:114-139 | a report comes out only when every data row reads |
| Reports.ReportOk | utils.py:114-139 | a table whose header passes and whose data rows all read gives a report |
| Reports.ReportFirstError | utils.py:114-139 | the first data row that fails decides the report's error |
| Reports.ReportEntries | utils.py:113-139 | a report holds each key once; a key is present exactly when some row is stored under it, and it holds the last such row's record |
| Reports.ReportRangesBounded | utils.py:117-127 | a range the report keeps as bounds has at least one of them |
| RangeCheck.IsInRange | report.py:6-13 | in range exactly when no present bound is violated, inclusively; `(None, None)` holds every value; `low > high` holds none |
| RangeCheck.InRange | report.py:6-13 | a number is checked by `IsInRange`; text is in range only when both bounds are absent, and otherwise raises the `TypeError` of the first comparison with a present bound |
| RangeCheck.Verdict | report.py:19-20 | a record with a text range is never abnormal; one with bounds is abnormal exactly when its value is out of range, and fails when the comparison fails |
| RangeCheck.AbnormalOf | report.py:16-23 | the only way the check fails is the `TypeError` of comparing text with a bound |
| RangeCheck.GetAbnormalParams | report.py:16-23 | the loop returns exactly `AbnormalOf` of the report's result |
| RangeCheck.AbnormalFromResult | report.py:17-21 | every abnormal entry is an entry of the result, unchanged, and abnormal |
| RangeCheck.AbnormalAppends | report.py:21 | with distinct keys each abnormal entry is appended and nothing is overwritten |
| RangeCheck.AbnormalInOrder | report.py:17-23 | the abnormal entries keep the order of the result |
| RangeCheck.AbnormalMembers | report.py:17-21 | an entry is abnormal exactly when it is in the result, its range is a tuple and its value lies outside it |
| RangeCheck.AbnormalLookup | report.py:16-23 | the abnormal entries form a sub-dict of the result: a key is present exactly when its record is abnormal, with the same record |
| RangeCheck.AbnormalErr | report.py:17-20 | the check fails exactly when some record with bounds holds a text value that cannot be compared |
| RangeCheck.AbnormalPrefixError | report.py:17-20 | once a prefix of the result fails, the whole check fails the same way |
| RangeCheck.OneSidedReadingInRange | utils.py:207-211 | a reading written as one bound lies strictly inside that bound, so it is in the range the same text gives |
| RangeCheck.BoundReadingsInRange | test_utils.py:102-104 | `<45` reads inside `(None, 45)` and `>45` inside `(45, None)` |
| RangeCheck.ZeroLowReadingInRange | utils.py:209-211 | a reading written as `(0, b)` with `b > 0` is inside its range once corrected, and outside it as written |

## Left out

- Downloading the bulletins, extracting tables from the PDF files and converting the extracted data frame to rows are not part of this model. The model starts from the data frame's rows with the column names as the first row (`Tables.Row`).
- `normalize_table` raises an `IndexError` when every row is a header fragment (utils.py:154), when a header fragment is wider than the first row (utils.py:158), or when a row is wider than the row being built (utils.py:173). A narrower row passes silently and leaves the remaining columns as they are. `Tables.WellFormedGrid` asks for a non-empty grid of equally wide rows whose header ends, so none of these cases is modelled.
- Python's `float()` is modelled for decimal literals with optional surrounding whitespace and one sign. Exponents, `inf`, `nan` and underscores are left out. The model reads numbers as exact reals, so binary rounding is not modelled: `0.00198` is the exact value, not the nearest double.
- `str.isdigit` is modelled on ASCII digits only. `str.isspace`, `strip()` and the whitespace `float()` ignores are modelled on the ASCII whitespace characters, the separators U+001C to U+001F included. The non-ASCII digits and spaces Python also accepts (U+0085, U+00A0, U+2000 and the like) are left out.
- `AnalysisReport`'s other fields (`filename`, `zone_id`, the address and the dates) are not set by the modelled code and are left out. The pydantic validation of the model class is left out.
- The `print` of the unparsable table before the unknown-title error is left out, because it is output only.
- `LabelTable.Labels`: the model does not prove that the 35 labels are distinct or that no two share a key. Proving facts about the literal table was too expensive for the verifier.
- `Scalars.TwoBoundsRefused`: the full message text of the "exactly 1 valid value" error is not checked for the literal input. `Models.Message` gives the text for any input.
- A value cell such as `7.58/21.5°C` is read by `parse_value` as its leading run `7.58` (utils.py:188-196), so the record holds the number 7.58. The test fixture at test_utils.py:168 still keeps such a cell as text; the model follows utils.py.
- `get_abnormal_params` does not skip a record whose value is text (report.py:16-23): `is_in_range` compares that text with a present bound and Python raises a `TypeError` (report.py:6-13). `RangeCheck.InRange` returns `NotComparable` for it, and the whole check fails with that error.
- Scalars.ValueOf: on a range `(0, b)` it nudges downwards (corrected side, see Findings), where utils.py:209 nudges upwards; on every other input it agrees with `Scalars.ValueOfAsWritten`, which keeps the source's reading.
- Scalars.NudgeIntoRange: picks the side by whether the low bound is present and non-zero, not by `range_[0] is not None` (utils.py:209); the two differ only on a zero low bound.
- Scalars.ParseValue: reads a range `(0, b)` with the corrected side of the nudge, not as the source does; `Scalars.ValueOfAsWritten` keeps the source's reading.
- `Reports.ReportOf` uses the corrected `Scalars.ValueOf`, and so do `Reports.ReadCells`, `Reports.RecordOf`, `Reports.ReadRow`, `Reports.ReadTable` and `Reports.ParseReport`. Each of them stores a range `(0, b)` reading as `b - ε`, where utils.py:209 gives `b + ε`. `Scalars.ValueOfAsWritten` keeps the source's reading (see Findings).

## Findings

| source | as written | input that shows it | evidently intended | confidence | as-written member | corrected member |
|---|---|---|---|---|---|---|
| utils.py:203-211 | The bound is chosen by truthiness (`filter(None, range_)`) but the side of the nudge by presence (`range_[0] is not None`). A range with a zero low bound and an upper bound `b` keeps `b` and nudges it upwards. | `parse_value('≥0; ≤5')` returns 5.01, outside the range `(0, 5)` it was read from | the kept upper bound is nudged downwards: 4.99, inside the range | medium, not executed | Scalars.ZeroLowBoundAsWritten | Scalars.ZeroLowBoundCorrected |
