/** Typed CSV: a column-type mapping whose descriptors transform declared
    columns on the way out (`output`) and on the way in (`input`) and name the
    dtype the parser is to use (`serialization_dtype`). Undeclared columns pass
    through untouched, and column order is kept. */
module TypedCsv {
  import opened Wrappers
  import opened Frames
  import opened S3Targets
  import opened CsvTargets

  datatype Descriptor = Descriptor(output: Column -> Column, input: Column -> Column,
                                   serializationDtype: string)

  /** `types`: column name to descriptor. */
  type Types = map<string, Descriptor>

  /** `DataFrame.from_items((name, fs[name](col) if name in fs else col) for name, col in df.items())`. */
  function TransformColumns(df: Table, fs: map<string, Column -> Column>): (r: Table)
    ensures |r| == |df|
    ensures forall i :: 0 <= i < |df| ==>
      && r[i].name == df[i].name
      && r[i].column == (if df[i].name in fs then fs[df[i].name](df[i].column) else df[i].column)
  {
    if df == [] then []
    else
      var c := df[0];
      [NamedColumn(c.name, if c.name in fs then fs[c.name](c.column) else c.column)]
        + TransformColumns(df[1..], fs)
  }

  function Outputs(types: Types): map<string, Column -> Column> {
    map c | c in types :: types[c].output
  }

  function Inputs(types: Types): map<string, Column -> Column> {
    map c | c in types :: types[c].input
  }

  /** The table handed to `to_csv`: declared columns through their `output`. */
  function Encode(df: Table, types: Types): (r: Table)
    ensures Names(r) == Names(df)
    ensures forall i :: 0 <= i < |df| ==>
      r[i].column == (if df[i].name in types then types[df[i].name].output(df[i].column) else df[i].column)
  {
    TransformColumns(df, Outputs(types))
  }

  /** The table returned after parsing: declared columns through their `input`. */
  function Decode(df: Table, types: Types): (r: Table)
    ensures Names(r) == Names(df)
    ensures forall i :: 0 <= i < |df| ==>
      r[i].column == (if df[i].name in types then types[df[i].name].input(df[i].column) else df[i].column)
  {
    TransformColumns(df, Inputs(types))
  }

  /** The `dtype` map handed to the parser: one entry per declared column. */
  function DTypes(types: Types): (r: map<string, string>)
    ensures r.Keys == types.Keys
    ensures forall c :: c in r ==> r[c] == types[c].serializationDtype
  {
    map c | c in types :: types[c].serializationDtype
  }

  /** Every declared descriptor's `input` undoes its `output`. */
  ghost predicate RoundTrips(types: Types) {
    forall c, col :: c in types ==> types[c].input(types[c].output(col)) == col
  }

  lemma DecodeEncode(df: Table, types: Types)
    requires RoundTrips(types)
    ensures Decode(Encode(df, types), types) == df
  {
  }

  /** The conditional round-trip law, in both directions: decoding undoes
      encoding for every table exactly when every descriptor round-trips. */
  lemma RoundTripLaw(types: Types)
    ensures RoundTrips(types) <==> forall df :: Decode(Encode(df, types), types) == df
  {
    if RoundTrips(types) {
      forall df ensures Decode(Encode(df, types), types) == df {
        DecodeEncode(df, types);
      }
    } else {
      var c, col :| c in types && types[c].input(types[c].output(col)) != col;
      var df := [NamedColumn(c, col)];
      assert Decode(Encode(df, types), types)[0].column == types[c].input(types[c].output(col));
    }
  }

  /** Encoding with no declared column among the table's is the identity. */
  lemma EncodeUndeclaredIdentity(df: Table, types: Types)
    requires forall i :: 0 <= i < |df| ==> df[i].name !in types
    ensures Encode(df, types) == df
  {
  }

  /** Module-level `read_typed_csv`: `parse` stands for `pd.read_csv` on the
      input, as a function of the dtype map it is given. The explicit `dtype`
      keyword collides with a `dtype` among the keyword arguments. */
  function ReadTypedCsv(types: Types, kwargs: Kwargs, parse: map<string, string> -> Table)
    : (r: Result<Table, TargetError>)
    ensures r.Err? <==> "dtype" in kwargs
    ensures r.Err? ==> r.error == TypeError("dtype")
    ensures r.Ok? ==> r.value == Decode(parse(DTypes(types)), types)
  {
    if "dtype" in kwargs then Err(TypeError("dtype"))
    else Ok(Decode(parse(DTypes(types)), types))
  }

  /** Module-level write then read: when the parser, given the declared
      dtypes, returns the table that was serialised, and every descriptor
      round-trips, the original table comes back. */
  lemma ModuleRoundTrip(df: Table, types: Types, kwargs: Kwargs,
                        parse: map<string, string> -> Table)
    requires RoundTrips(types) && "dtype" !in kwargs
    requires parse(DTypes(types)) == Encode(df, types)
    ensures ReadTypedCsv(types, kwargs, parse) == Ok(df)
  {
    DecodeEncode(df, types);
  }

  class S3TypedCsvTarget {
    const csv: S3CsvTarget
    const types: Types

    constructor (path: string, localS3Path: Option<string>, types: Types, compressed: bool,
                 kwargsIn: Option<Kwargs>, kwargsOut: Option<Kwargs>)
      ensures csv.target.path == path && csv.target.localS3Path == localS3Path
      ensures csv.target.compressed == compressed && this.types == types
      ensures csv.kwargsIn == kwargsIn && csv.kwargsOut == kwargsOut
    {
      this.types := types;
      csv := new S3CsvTarget(path, localS3Path, compressed, kwargsIn, kwargsOut);
    }

    /** `write_typed_csv` as the source has it: the compressed branch encodes
        the table and adds `compression='gzip'`; the uncompressed branch
        writes the table as given, without any `output` transform. */
    function WriteTypedCsvAsWritten(df: Table, kwargs: Kwargs): (r: Result<CsvWrite, TargetError>)
      ensures var merged := EffectiveKwargs(csv.kwargsOut, kwargs);
        && (r.Err? <==> csv.target.compressed && "compression" in merged)
        && (r.Err? ==> r.error == TypeError("compression"))
        && (r.Ok? ==> r.value.stream == csv.StreamFor("w"))
        && (r.Ok? && csv.target.compressed ==>
              r.value.table == Encode(df, types) && r.value.kwargs == merged["compression" := Str("gzip")])
        && (r.Ok? && !csv.target.compressed ==> r.value.table == df && r.value.kwargs == merged)
    {
      var merged := EffectiveKwargs(csv.kwargsOut, kwargs);
      if csv.target.compressed then
        if "compression" in merged then Err(TypeError("compression"))
        else Ok(CsvWrite(csv.StreamFor("w"), Encode(df, types), merged["compression" := Str("gzip")]))
      else
        Ok(CsvWrite(csv.StreamFor("w"), df, merged))
    }

    /** `write_typed_csv` with the `output` transform applied on both
        branches, as the compressed branch and the module-level function do. */
    function WriteTypedCsv(df: Table, kwargs: Kwargs): (r: Result<CsvWrite, TargetError>)
      ensures var merged := EffectiveKwargs(csv.kwargsOut, kwargs);
        && (r.Err? <==> csv.target.compressed && "compression" in merged)
        && (r.Err? ==> r.error == TypeError("compression"))
        && (r.Ok? ==> r.value.stream == csv.StreamFor("w") && r.value.table == Encode(df, types))
        && (r.Ok? ==> r.value.kwargs == if csv.target.compressed then merged["compression" := Str("gzip")] else merged)
    {
      var merged := EffectiveKwargs(csv.kwargsOut, kwargs);
      if csv.target.compressed then
        if "compression" in merged then Err(TypeError("compression"))
        else Ok(CsvWrite(csv.StreamFor("w"), Encode(df, types), merged["compression" := Str("gzip")]))
      else
        Ok(CsvWrite(csv.StreamFor("w"), Encode(df, types), merged))
    }

    /** `read_typed_csv`: parse with the declared dtypes, then decode. The
        compressed branch names `filepath_or_buffer` explicitly, so that
        keyword collides there as `dtype` does on both branches. */
    function ReadTypedCsv(kwargs: Kwargs, parse: map<string, string> -> Table)
      : (r: Result<CsvRead, TargetError>)
      ensures var merged := EffectiveKwargs(csv.kwargsIn, kwargs);
        && (r.Err? <==> "dtype" in merged || (csv.target.compressed && "filepath_or_buffer" in merged))
        && (r.Err? ==> r.error.TypeError? && r.error.keyword in merged
                       && (r.error.keyword == "dtype" || r.error.keyword == "filepath_or_buffer"))
        && (r.Err? && !csv.target.compressed ==> r.error == TypeError("dtype"))
        && (r.Ok? ==> r.value.stream == csv.StreamFor("r") && r.value.kwargs == merged)
        && (r.Ok? ==> r.value.table == Decode(parse(DTypes(types)), types))
    {
      var merged := EffectiveKwargs(csv.kwargsIn, kwargs);
      if csv.target.compressed && "filepath_or_buffer" in merged then Err(TypeError("filepath_or_buffer"))
      else if "dtype" in merged then Err(TypeError("dtype"))
      else Ok(CsvRead(csv.StreamFor("r"), merged, Decode(parse(DTypes(types)), types)))
    }
  }

  /** The typed target's round trip: write, then read back from the same
      object with the same framing; when the parser returns what was
      serialised and every descriptor round-trips, the table comes back. */
  lemma TypedTargetRoundTrip(t: S3TypedCsvTarget, df: Table, kwOut: Kwargs, kwIn: Kwargs,
                             parse: map<string, string> -> Table)
    requires RoundTrips(t.types)
    requires t.WriteTypedCsv(df, kwOut).Ok?
    requires parse(DTypes(t.types)) == t.WriteTypedCsv(df, kwOut).value.table
    ensures var w := t.WriteTypedCsv(df, kwOut).value;
      var r := t.ReadTypedCsv(kwIn, parse);
      r.Ok? ==>
        && SameLocation(w.stream.handle, r.value.stream.handle)
        && w.stream.gzipFramed == r.value.stream.gzipFramed
        && r.value.table == df
  {
  }

  /** A descriptor that shifts integers up by one on the way out and down on the way in. */
  function Shift(delta: int, col: Column): Column {
    seq(|col|, i requires 0 <= i < |col| => if col[i].Int? then Int(col[i].i + delta) else col[i])
  }

  const Shifted: Descriptor := Descriptor(col => Shift(1, col), col => Shift(-1, col), "int64")

  lemma ShiftedRoundTrips()
    ensures RoundTrips(map["a" := Shifted])
  {
  }

  /** On an uncompressed target the source's write skips `output` while the
      read applies `input`: with the round-tripping `Shifted` descriptor on
      column `a`, writing `a = [1]` reads back `a = [0]`. */
  lemma AsWrittenUncompressedRoundTripFails(t: S3TypedCsvTarget)
    requires !t.csv.target.compressed && t.csv.kwargsIn == None && t.csv.kwargsOut == None
    requires "a" in t.types && forall col :: t.types["a"].input(col) == Shifted.input(col)
    ensures var df := [NamedColumn("a", [Int(1)])];
      var w := t.WriteTypedCsvAsWritten(df, map[]);
      && w.Ok? && w.value.table == df
      && t.ReadTypedCsv(map[], _ => w.value.table)
           == Ok(CsvRead(t.csv.StreamFor("r"), map[], [NamedColumn("a", [Int(0)])]))
  {
    var df := [NamedColumn("a", [Int(1)])];
    var d := Decode(df, t.types);
    assert Names(d) == Names(df);
    assert d[0].column == Shift(-1, [Int(1)]);
    assert Shift(-1, [Int(1)]) == [Int(0)];
    assert d == [NamedColumn("a", [Int(0)])];
  }
}
