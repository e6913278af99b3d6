/** The typed data that executors exchange: values, rows, tables and the
    graph values (vertices, steps, paths) a path expression evaluates to. */
module Values {

  /** The engine's 64-bit signed integer. */
  newtype int64 = x: int | -0x8000_0000_0000_0000 <= x < 0x8000_0000_0000_0000

  /** A vertex: its identifier and the names of its tags. */
  datatype Vertex = Vertex(vid: Value, tags: seq<string>)

  /** One hop of a path: the edge traversed and the vertex it reaches. */
  datatype Step = Step(dst: Vertex, edgeType: int, name: string, ranking: int64)

  /** A source vertex followed by its steps. */
  datatype Path = Path(src: Vertex, steps: seq<Step>)

  /** The kinds of value the modelled code looks at; the engine has more. */
  datatype Value =
    | Null
    | Bool(b: bool)
    | Int(i: int64)
    | Str(s: string)
    | PathValue(path: Path)

  datatype Row = Row(values: seq<Value>)

  /** Named columns and an ordered sequence of rows. */
  datatype DataSet = DataSet(colNames: seq<string>, rows: seq<Row>)

  /** Every row has one value per column. */
  ghost predicate WellFormed(ds: DataSet) {
    forall k :: 0 <= k < |ds.rows| ==> |ds.rows[k].values| == |ds.colNames|
  }

  /** The rows of a one-column table holding `vals` in order. */
  function Column(vals: seq<Value>): (rows: seq<Row>)
    ensures |rows| == |vals|
    ensures forall k :: 0 <= k < |vals| ==> rows[k] == Row([vals[k]])
  {
    seq(|vals|, k requires 0 <= k < |vals| => Row([vals[k]]))
  }

  /** No element of `s` occurs twice. */
  predicate Distinct<T(==)>(s: seq<T>) {
    forall i, j :: 0 <= i < j < |s| ==> s[i] != s[j]
  }

  lemma ColumnAppend(vals: seq<Value>, v: Value)
    ensures Column(vals + [v]) == Column(vals) + [Row([v])]
  {
  }
}
