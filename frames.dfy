/** The pandas-level data the targets move around: cells, columns, tables of
    named columns in order, CSV rows and keyword-argument dictionaries. */
module Frames {

  /** A cell value. The targets never inspect cells, so a small universe suffices. */
  datatype Value = NoneValue | Int(i: int) | Str(s: string)

  type Column = seq<Value>
  type Row = seq<Value>

  /** One `(column name, column)` pair of `DataFrame.items()`. */
  datatype NamedColumn = NamedColumn(name: string, column: Column)

  /** A data frame, as the ordered sequence of its named columns. */
  type Table = seq<NamedColumn>

  /** A `**kwargs` dictionary. */
  type Kwargs = map<string, Value>

  function Names(t: Table): seq<string> {
    seq(|t|, i requires 0 <= i < |t| => t[i].name)
  }
}
