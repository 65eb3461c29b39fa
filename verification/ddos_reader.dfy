/**
 `readDdosPercentage`: the value of the `DDOS%` column in the last row the
 CSV parser emits for a file. The parser itself is not modelled; the model
 starts from the rows it hands to the `data` handler and from how the
 stream finished.
 */
module DdosReader {
  import opened Results
  import opened Message

  /** One parsed CSV row: header name to cell text. */
  type Row = map<string, string>

  /** The column whose latest value is broadcast. */
  const DdosColumn: string := "DDOS%"

  /** `row['DDOS%']`: the cell text, or `undefined` when the row has no such key. */
  function Field(row: Row): (v: JsValue)
    ensures v != Null
    ensures v.Str? <==> DdosColumn in row
    ensures v.Str? ==> v.s == row[DdosColumn]
  {
    if DdosColumn in row then Str(row[DdosColumn]) else Undefined
  }

  /**
   How reading the file finished: the parser's `end` event, the parser's
   `error` event (the one the promise listens to), or an `error` event of
   the file stream itself (missing file, no permission, a directory),
   which `.pipe()` does not pass on to the parser.
   */
  datatype StreamEnd = Ended | ParseFailed(reason: string) | SourceFailed(reason: string)

  /** The `data` events the parser emitted, in order, and how the stream finished. */
  datatype CsvStream = CsvStream(rows: seq<Row>, end: StreamEnd)

  /**
   The running value of `latestDdosPercentage` after the `data` handler
   has seen `rows`, starting from `acc`: each row overwrites it.
   */
  function Latest(acc: JsValue, rows: seq<Row>): (v: JsValue)
    ensures |rows| == 0 ==> v == acc
    ensures |rows| > 0 ==> v == Field(rows[|rows| - 1])
    decreases |rows|
  {
    if |rows| == 0 then acc else Latest(Field(rows[0]), rows[1..])
  }

  /**
   What becomes of the promise: resolved, rejected, or neither because an
   `error` event with no listener was thrown and ended the process.
   */
  datatype Settlement = Resolved(value: JsValue) | Rejected(reason: string) | Uncaught(reason: string)

  /**
   `readDdosPercentage` as written: a parser error rejects; a file-stream
   error has no listener and is thrown; otherwise the promise resolves with
   the last row's field, or with `null` when no row was emitted.
   */
  function ReadDdosPercentage(stream: CsvStream): (r: Settlement)
    ensures r.Uncaught? <==> stream.end.SourceFailed?
    ensures r.Rejected? <==> stream.end.ParseFailed?
    ensures !r.Resolved? ==> r.reason == stream.end.reason
    ensures r.Resolved? && |stream.rows| == 0 ==> r.value == Null
    ensures r.Resolved? && |stream.rows| > 0 ==> r.value == Field(stream.rows[|stream.rows| - 1])
  {
    match stream.end
    case SourceFailed(reason) => Uncaught(reason)
    case ParseFailed(reason) => Rejected(reason)
    case Ended => Resolved(Latest(Null, stream.rows))
  }

  /**
   `readDdosPercentage` with the file stream's errors forwarded to the
   promise as well: every read error rejects, so the caller's `.catch`
   logs it.
   */
  function ReadDdosPercentageGuarded(stream: CsvStream): (r: Result<JsValue, string>)
    ensures r.Err? <==> !stream.end.Ended?
    ensures r.Err? ==> r.error == stream.end.reason
    ensures r.Ok? && |stream.rows| == 0 ==> r.value == Null
    ensures r.Ok? && |stream.rows| > 0 ==> r.value == Field(stream.rows[|stream.rows| - 1])
  {
    if stream.end.Ended? then Ok(Latest(Null, stream.rows)) else Err(stream.end.reason)
  }

  /** The two reads differ only on a file-stream error, which only the guarded one rejects. */
  lemma GuardedAgreesUnlessSourceFails(stream: CsvStream)
    ensures !stream.end.SourceFailed? ==>
              match ReadDdosPercentageGuarded(stream)
              case Ok(v) => ReadDdosPercentage(stream) == Resolved(v)
              case Err(reason) => ReadDdosPercentage(stream) == Rejected(reason)
    ensures stream.end.SourceFailed? ==>
              ReadDdosPercentage(stream).Uncaught? && ReadDdosPercentageGuarded(stream).Err?
  {
  }

  /** Rows before the last one, and the starting value, have no influence on the value read. */
  lemma EarlierRowsIrrelevant(a: JsValue, b: JsValue, earlier: seq<Row>, rows: seq<Row>)
    requires |rows| > 0
    ensures Latest(a, earlier + rows) == Latest(b, rows)
  {
    assert (earlier + rows)[|earlier + rows| - 1] == rows[|rows| - 1];
  }

  /** The value read is `null` exactly when the file had no data rows. */
  lemma ReadNullIffNoRows(stream: CsvStream)
    requires stream.end == Ended
    ensures ReadDdosPercentage(stream) == Resolved(Null) <==> |stream.rows| == 0
  {
  }

  /** A last row without a `DDOS%` cell gives `undefined`, never `null`. */
  lemma MissingColumnIsUndefined(stream: CsvStream)
    requires stream.end == Ended && |stream.rows| > 0
    requires DdosColumn !in stream.rows[|stream.rows| - 1]
    ensures ReadDdosPercentage(stream) == Resolved(Undefined)
  {
  }
}
