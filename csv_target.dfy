/** `S3CSVTarget`: CSV over an S3 target, optionally gzip-framed, with
    configured keyword arguments for reading (`kwargs_in`) and writing
    (`kwargs_out`). The CSV text itself is produced and parsed by pandas and
    the `csv` module; the model records what the target hands them. */
module CsvTargets {
  import opened Wrappers
  import opened Frames
  import opened S3Targets

  /** Where CSV text goes to or comes from: the opened handle, framed by a
      gzip text wrapper when the target is compressed. */
  datatype Stream = Stream(handle: Handle, gzipFramed: bool)

  /** One `to_csv` call: the stream, the table serialised and the keyword arguments. */
  datatype CsvWrite = CsvWrite(stream: Stream, table: Table, kwargs: Kwargs)

  /** One `read_csv` call: the stream, the keyword arguments and the table returned. */
  datatype CsvRead = CsvRead(stream: Stream, kwargs: Kwargs, table: Table)

  /** `chunksize` that `read_csv_stream` uses unless told otherwise. */
  const DefaultChunkSize: int := 2

  /** `toolz.merge(configured, call)`: a union of the two dictionaries in
      which the caller's keys win. */
  function Merge(configured: Kwargs, call: Kwargs): (r: Kwargs)
    ensures r.Keys == configured.Keys + call.Keys
    ensures forall k :: k in call ==> r[k] == call[k]
    ensures forall k :: k in configured && k !in call ==> r[k] == configured[k]
  {
    configured + call
  }

  /** The keyword arguments a read or write hands on: merged with the
      configured ones only when those are truthy (set and non-empty). The
      truthiness test changes nothing: an unset or empty configuration
      behaves as an empty one. */
  function EffectiveKwargs(configured: Option<Kwargs>, call: Kwargs): (r: Kwargs)
    ensures var base := configured.GetOr(map[]);
      && r.Keys == base.Keys + call.Keys
      && (forall k :: k in call ==> r[k] == call[k])
      && (forall k :: k in base && k !in call ==> r[k] == base[k])
  {
    if configured.Some? && configured.value != map[] then Merge(configured.value, call) else call
  }

  /** `csv.writer` on an opened stream: the rows written so far, in order. */
  class CsvWriter {
    const stream: Stream
    var rows: seq<Row>

    constructor (stream: Stream)
      ensures this.stream == stream && rows == []
    {
      this.stream := stream;
      rows := [];
    }

    method WriteRow(row: Row)
      modifies this
      ensures rows == old(rows) + [row]
    {
      rows := rows + [row];
    }
  }

  /** Python truthiness of an optional header tuple. */
  predicate Truthy(header: Option<Row>) {
    header.Some? && header.value != []
  }

  /** What `write_values` emits: the header when it is truthy, then the values. */
  function WrittenRows(values: seq<Row>, header: Option<Row>): seq<Row> {
    (if Truthy(header) then [header.value] else []) + values
  }

  /** The header, if any, comes first; every value follows in order, and nothing else is written. */
  lemma WrittenRowsLayout(values: seq<Row>, header: Option<Row>)
    ensures var off := if Truthy(header) then 1 else 0;
      && |WrittenRows(values, header)| == off + |values|
      && (Truthy(header) ==> WrittenRows(values, header)[0] == header.value)
      && forall k :: 0 <= k < |values| ==> WrittenRows(values, header)[off + k] == values[k]
  {
  }

  /** `S3CSVTarget.write_values`: the static row writer. */
  method WriteValues(w: CsvWriter, values: seq<Row>, header: Option<Row>)
    modifies w
    ensures w.rows == old(w.rows) + WrittenRows(values, header)
  {
    if Truthy(header) {
      w.WriteRow(header.value);
    }
    for i := 0 to |values|
      invariant w.rows == old(w.rows) + WrittenRows(values[..i], header)
    {
      w.WriteRow(values[i]);
      assert values[..i + 1] == values[..i] + [values[i]];
    }
    assert values[..|values|] == values;
  }

  class S3CsvTarget {
    const target: FireflowerS3Target
    const kwargsIn: Option<Kwargs>
    const kwargsOut: Option<Kwargs>

    constructor (path: string, localS3Path: Option<string>, compressed: bool,
                 kwargsIn: Option<Kwargs>, kwargsOut: Option<Kwargs>)
      ensures target.path == path && target.localS3Path == localS3Path
      ensures target.compressed == compressed
      ensures this.kwargsIn == kwargsIn && this.kwargsOut == kwargsOut
    {
      target := new FireflowerS3Target.WithCompression(path, localS3Path, compressed);
      this.kwargsIn := kwargsIn;
      this.kwargsOut := kwargsOut;
    }

    /** The target opened in a supported mode, gzip-framed when compressed. */
    function StreamFor(mode: string): (s: Stream)
      requires SupportedMode(mode)
      ensures s.gzipFramed == target.compressed
      ensures target.Open(mode) == Ok(s.handle)
    {
      Stream(target.Open(mode).value, target.compressed)
    }

    /** `write_csv_tuples`: the tuples, after an optional header, go through a
        CSV writer on the stream opened for writing. */
    method WriteCsvTuples(tuples: seq<Row>, header: Option<Row>) returns (w: CsvWriter)
      ensures fresh(w)
      ensures w.stream == StreamFor("w")
      ensures w.rows == WrittenRows(tuples, header)
    {
      w := new CsvWriter(StreamFor("w"));
      WriteValues(w, tuples, header);
    }

    /** `write_csv`: the table goes to the write stream with the merged keyword arguments. */
    function WriteCsv(df: Table, kwargs: Kwargs): (w: CsvWrite)
      ensures w.stream == StreamFor("w") && w.stream.gzipFramed == target.compressed
      ensures w.table == df
      ensures w.kwargs == EffectiveKwargs(kwargsOut, kwargs)
    {
      CsvWrite(StreamFor("w"), df, EffectiveKwargs(kwargsOut, kwargs))
    }

    /** `read_csv`: `parse` stands for pandas reading the stream; the target
        adds no dtype map of its own. */
    function ReadCsv(kwargs: Kwargs, parse: map<string, string> -> Table): (r: CsvRead)
      ensures r.stream == StreamFor("r") && r.stream.gzipFramed == target.compressed
      ensures r.table == parse(map[])
      ensures r.kwargs == EffectiveKwargs(kwargsIn, kwargs)
    {
      CsvRead(StreamFor("r"), EffectiveKwargs(kwargsIn, kwargs), parse(map[]))
    }

    /** `read_csv_stream`: the merged keyword arguments with `chunksize`
        defaulted to 2 when the caller and the configuration leave it out. */
    method ReadCsvStream(kwargs: Kwargs) returns (s: Stream, kw: Kwargs)
      ensures s == StreamFor("r")
      ensures var merged := EffectiveKwargs(kwargsIn, kwargs);
        && kw.Keys == merged.Keys + {"chunksize"}
        && kw["chunksize"] == (if "chunksize" in merged then merged["chunksize"] else Int(DefaultChunkSize))
        && forall k :: k in merged ==> kw[k] == merged[k]
    {
      kw := EffectiveKwargs(kwargsIn, kwargs);
      if "chunksize" !in kw {
        kw := kw["chunksize" := Int(DefaultChunkSize)];
      }
      s := StreamFor("r");
    }
  }

  /** Two handles address the same object: both remote, or the same local file. */
  predicate SameLocation(a: Handle, b: Handle) {
    (a.Remote? && b.Remote?) || (a.Local? && b.Local? && a.path == b.path)
  }

  /** Writing a table and reading it back goes through the same object with
      the same framing, and returns the table when the parser gives back what
      was serialised (both for the compressed and the uncompressed target). */
  lemma CsvRoundTrip(t: S3CsvTarget, df: Table, kwOut: Kwargs, kwIn: Kwargs,
                     parse: map<string, string> -> Table)
    requires parse(map[]) == t.WriteCsv(df, kwOut).table
    ensures var w := t.WriteCsv(df, kwOut);
      var r := t.ReadCsv(kwIn, parse);
      && SameLocation(w.stream.handle, r.stream.handle)
      && w.stream.gzipFramed == r.stream.gzipFramed
      && r.table == df
  {
  }
}
