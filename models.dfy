/** The values the parsers produce and the report they are collected into. */
module Models {
  import opened Results

  /** A cell of an extracted grid: text, or anything else (a NaN or a number the extractor parsed). */
  datatype Cell = Text(s: string) | Other

  /** The `(low, high)` pair `parse_range` returns; `None` means no bound on that side. */
  datatype Bounds = Bounds(low: Option<real>, high: Option<real>)

  /** The `range` of a record: a parsed pair, or the cell text when it did not parse. */
  datatype RangeCell = Bounded(bounds: Bounds) | RawRange(text: string)

  /** The `value` of a record: a number, or the cell text when it did not parse. */
  datatype Value = Num(x: real) | RawValue(text: string)

  /** One entry of `AnalysisReport.result`: `ro_name`, `um`, `value` and `range`. */
  datatype Record = Record(roName: string, unit: string, value: Value, range: RangeCell)

  datatype AnalysisType = Chemical | Microbiological

  /** `AnalysisReport`: its `title`, its insertion-ordered `result` dict and its `type`. */
  datatype Report = Report(title: string, result: seq<(string, Record)>, kind: AnalysisType)

  /** The exceptions the core raises, by the Python class they are raised as. */
  datatype Error =
    | NotAFloat(text: string)          // ValueError from float()
    | CannotConvert(text: string)      // ValueError: bad first character in parse_range
    | NoBound(text: string)            // ValueError: parse_range found no bound
    | NotSingleValue(text: string)     // ValueError: parse_value needs exactly one bound
    | UnknownReportType(title: string) // ValueError: header title not recognised
    | IndexOutOfRange                  // IndexError: an index past the end of a string or row
    | HeaderMismatch(column: nat)      // AssertionError: a fixed column header is wrong
    | UnknownLabel(name: string)      // KeyError: the label is not in the label table
    | NotComparable(floatFirst: bool)  // TypeError: text compared with a number, on either side

  /** The errors `parse_report` catches with `except ValueError`. */
  predicate IsValueError(e: Error)
  {
    e.NotAFloat? || e.CannotConvert? || e.NoBound? || e.NotSingleValue? || e.UnknownReportType?
  }

  /** `str(exception)` for the errors whose text the parsers spell out. */
  function Message(e: Error): string
  {
    match e
    case NotAFloat(t) => "could not convert string to float: '" + t + "'"
    case CannotConvert(t) => "Cannot convert value \"" + t + "\" into range."
    case NoBound(t) => t + " cannot be converted to interval"
    case NotSingleValue(t) =>
      "\"" + t + "\" must contain exactly 1 valid value to be convertible from range to single value"
    case UnknownReportType(t) => "Cannot identify report type from \"" + t + "\""
    case IndexOutOfRange => "string index out of range"
    case HeaderMismatch(_) => ""
    case UnknownLabel(l) => "'" + l + "'"
    case NotComparable(floatFirst) =>
      if floatFirst then "'<=' not supported between instances of 'float' and 'str'"
      else "'<=' not supported between instances of 'str' and 'float'"
  }
}
