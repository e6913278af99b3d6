/** The storage request builders: they turn a row stream into the
    one-column table of vertex identifiers that a storage request is sent
    with. The identifier representation of a graph space (64-bit integer or
    string) is chosen once per call. The row stream is a sequence of rows,
    and the identifier (or path) expression is the function `eval` of a row. */
module StorageAccess {
  import opened Values
  import opened RequestIds

  /** The name of the identifier column. */
  const kVid: string := "_vid"

  /** The column types the space metadata can give the identifier. */
  datatype PropertyType = INT64 | FIXED_STRING | OtherType(code: int)

  datatype ColumnTypeDef = ColumnTypeDef(propType: PropertyType, typeLength: int)

  /** What the session knows of the current graph space. */
  datatype SpaceInfo = SpaceInfo(id: int, vidType: ColumnTypeDef)

  /** The identifier representation a builder is specialised for. */
  datatype VidType = Int64Vid | StringVid

  /** A hashable identifier, as kept in the builders' duplicate sets. */
  datatype VidKey = IntKey(i: int64) | StrKey(s: string)

  /** `v` is a value of the kind the specialisation `t` reads identifiers as. */
  predicate HasVidType(t: VidType, v: Value) {
    match t
    case Int64Vid => v.Int?
    case StringVid => v.Str?
  }

  /** The value a key was read from. */
  function KeyValue(k: VidKey): Value {
    match k
    case IntKey(i) => Int(i)
    case StrKey(s) => Str(s)
  }

  /** The identifier held by `v`; reading an integer from a non-integer value
      (or a string from a non-string one) is a fatal error in the engine. */
  function VidValue(t: VidType, v: Value): (k: VidKey)
    requires HasVidType(t, v)
    ensures KeyValue(k) == v
    ensures k.IntKey? <==> t == Int64Vid
  {
    if t == Int64Vid then IntKey(v.i) else StrKey(v.s)
  }

  /** The keys of the values of `vals` that `t` can read. */
  function KeysOf(t: VidType, vals: seq<Value>): set<VidKey> {
    set v | v in vals && HasVidType(t, v) :: VidValue(t, v)
  }

  lemma KeyInKeysOf(t: VidType, vals: seq<Value>, v: Value)
    requires HasVidType(t, v)
    ensures VidValue(t, v) in KeysOf(t, vals) <==> v in vals
  {
    if VidValue(t, v) in KeysOf(t, vals) {
      var w :| w in vals && HasVidType(t, w) && VidValue(t, w) == VidValue(t, v);
      assert KeyValue(VidValue(t, w)) == w;
    }
  }

  lemma KeysOfSnoc(t: VidType, vals: seq<Value>, v: Value)
    requires HasVidType(t, v)
    ensures KeysOf(t, vals + [v]) == KeysOf(t, vals) + {VidValue(t, v)}
  {
  }

  /** The identifier expression evaluated on each row. */
  function Evaluated(rows: seq<Row>, eval: Row -> Value): (vals: seq<Value>)
    ensures |vals| == |rows|
    ensures forall k :: 0 <= k < |rows| ==> vals[k] == eval(rows[k])
  {
    seq(|rows|, k requires 0 <= k < |rows| => eval(rows[k]))
  }

  /** Every identifier of `p` can be read by `t`. */
  predicate PathHasVidType(t: VidType, p: Path) {
    HasVidType(t, p.src.vid) && forall j :: 0 <= j < |p.steps| ==> HasVidType(t, p.steps[j].dst.vid)
  }

  /** Every row's path expression evaluates to a path whose identifiers `t` can read. */
  predicate RowsArePaths(t: VidType, rows: seq<Row>, eval: Row -> Value) {
    forall k :: 0 <= k < |rows| ==> eval(rows[k]).PathValue? && PathHasVidType(t, eval(rows[k]).path)
  }

  /** The path expression evaluated on each row. */
  function PathsOf(t: VidType, rows: seq<Row>, eval: Row -> Value): (ps: seq<Path>)
    requires RowsArePaths(t, rows, eval)
    ensures |ps| == |rows|
    ensures forall k :: 0 <= k < |rows| ==> ps[k] == eval(rows[k]).path
  {
    seq(|rows|, k requires 0 <= k < |rows| && RowsArePaths(t, rows, eval) => eval(rows[k]).path)
  }

  /** Builds the identifier table for a row stream. `isValidVid` is the
      space's identifier-type check: a row whose identifier fails it is
      skipped and the scan goes on. With `dedup` only the first occurrence
      of an identifier is kept; reading its key requires that the check
      accepts only values of the specialisation's kind. */
  method BuildRequestDataSet(t: VidType, rows: seq<Row>, eval: Row -> Value,
                             isValidVid: Value -> bool, dedup: bool)
    returns (vertices: DataSet)
    requires dedup ==> forall v :: isValidVid(v) ==> HasVidType(t, v)
    ensures vertices.colNames == [kVid]
    ensures vertices.rows == Column(Kept(Evaluated(rows, eval), isValidVid, dedup))
  {
    vertices := DataSet([kVid], []);
    var uniqueSet: set<VidKey> := {};
    ghost var vals := Evaluated(rows, eval);
    for i := 0 to |rows|
      invariant vertices.colNames == [kVid]
      invariant vertices.rows == Column(Kept(vals[..i], isValidVid, dedup))
      invariant dedup ==> forall x :: x in Kept(vals[..i], isValidVid, dedup) ==> HasVidType(t, x)
      invariant uniqueSet == if dedup then KeysOf(t, Kept(vals[..i], isValidVid, dedup)) else {}
    {
      var vid := eval(rows[i]);
      ghost var before := Kept(vals[..i], isValidVid, dedup);
      assert vals[..i + 1] == vals[..i] + [vid];
      KeptSnoc(vals[..i], vid, isValidVid, dedup);
      if !isValidVid(vid) {
        continue;
      }
      if dedup {
        var key := VidValue(t, vid);
        var inserted := key !in uniqueSet;
        KeyInKeysOf(t, before, vid);
        KeysOfSnoc(t, before, vid);
        uniqueSet := uniqueSet + {key};
        if !inserted {
          continue;
        }
      }
      ColumnAppend(before, vid);
      vertices := vertices.(rows := vertices.rows + [Row([vid])]);
    }
    assert vals[..|rows|] == vals;
  }

  /** The path builder's state after scanning the identifiers `scanned`:
      the table holds their first occurrences and the duplicate set holds
      the keys of exactly those identifiers. */
  ghost predicate Tracks(t: VidType, vertices: DataSet, uniqueSet: set<VidKey>, scanned: seq<Value>) {
    && vertices.colNames == [kVid]
    && vertices.rows == Column(Kept(scanned, AnyVid, true))
    && (forall x :: x in Kept(scanned, AnyVid, true) ==> HasVidType(t, x))
    && uniqueSet == KeysOf(t, Kept(scanned, AnyVid, true))
  }

  /** Inserts the key of `vid` into the duplicate set and appends a row for
      `vid` when the key was not there yet. */
  method EmplaceVid(t: VidType, vertices: DataSet, uniqueSet: set<VidKey>, ghost scanned: seq<Value>, vid: Value)
    returns (vertices': DataSet, uniqueSet': set<VidKey>)
    requires HasVidType(t, vid)
    requires Tracks(t, vertices, uniqueSet, scanned)
    ensures Tracks(t, vertices', uniqueSet', scanned + [vid])
  {
    ghost var before := Kept(scanned, AnyVid, true);
    KeptSnoc(scanned, vid, AnyVid, true);
    KeyInKeysOf(t, before, vid);
    KeysOfSnoc(t, before, vid);
    var inserted := VidValue(t, vid) !in uniqueSet;
    uniqueSet' := uniqueSet + {VidValue(t, vid)};
    vertices' := vertices;
    if inserted {
      ColumnAppend(before, vid);
      vertices' := vertices.(rows := vertices.rows + [Row([vid])]);
    }
  }

  /** The scan of one path's steps: each destination identifier is
      emplaced in turn. */
  method EmplaceStepVids(t: VidType, vertices: DataSet, uniqueSet: set<VidKey>, ghost seen: seq<Value>, steps: seq<Step>)
    returns (vertices': DataSet, uniqueSet': set<VidKey>)
    requires forall j :: 0 <= j < |steps| ==> HasVidType(t, steps[j].dst.vid)
    requires Tracks(t, vertices, uniqueSet, seen)
    ensures Tracks(t, vertices', uniqueSet', seen + StepVids(steps))
  {
    vertices', uniqueSet' := vertices, uniqueSet;
    assert seen + StepVids(steps[..0]) == seen;
    for j := 0 to |steps|
      invariant Tracks(t, vertices', uniqueSet', seen + StepVids(steps[..j]))
    {
      var dstVid := steps[j].dst.vid;
      StepVidsPrefix(steps, j);
      assert seen + StepVids(steps[..j + 1]) == seen + StepVids(steps[..j]) + [dstVid];
      vertices', uniqueSet' := EmplaceVid(t, vertices', uniqueSet', seen + StepVids(steps[..j]), dstVid);
    }
    assert steps[..|steps|] == steps;
  }

  /** Builds the identifier table for a stream of paths: the source and every
      step destination of each path, each identifier once, in order of first
      appearance. There is no type check here. */
  method BuildPathRequestDataSet(t: VidType, rows: seq<Row>, eval: Row -> Value)
    returns (vertices: DataSet)
    requires RowsArePaths(t, rows, eval)
    ensures vertices.colNames == [kVid]
    ensures vertices.rows == Column(Kept(TouchedVids(PathsOf(t, rows, eval)), AnyVid, true))
  {
    vertices := DataSet([kVid], []);
    var uniqueSet: set<VidKey> := {};
    ghost var ps := PathsOf(t, rows, eval);
    for i := 0 to |rows|
      invariant Tracks(t, vertices, uniqueSet, TouchedVids(ps[..i]))
    {
      var path := eval(rows[i]);
      var pathVal := path.path;
      var srcVid := pathVal.src.vid;
      assert pathVal == ps[i] && PathHasVidType(t, pathVal);
      ghost var seen := TouchedVids(ps[..i]);
      vertices, uniqueSet := EmplaceVid(t, vertices, uniqueSet, seen, srcVid);
      vertices, uniqueSet := EmplaceStepVids(t, vertices, uniqueSet, seen + [srcVid], pathVal.steps);
      TouchedVidsPrefix(ps, i);
    }
    assert ps[..|rows|] == ps;
  }

  /** The integer specialisation serves exactly the spaces whose identifier
      column is INT64. */
  function IsIntVidType(space: SpaceInfo): bool {
    space.vidType.propType == INT64
  }

  /** The specialisation a space's builders use. */
  function VidTypeOf(space: SpaceInfo): (t: VidType)
    ensures t == Int64Vid <==> space.vidType.propType == INT64
    ensures t == StringVid <==> space.vidType.propType != INT64
  {
    if IsIntVidType(space) then Int64Vid else StringVid
  }

  /** Builds the identifier table for the current space, choosing the
      specialisation once. */
  method BuildRequestDataSetByVidType(space: SpaceInfo, rows: seq<Row>, eval: Row -> Value,
                                      isValidVid: Value -> bool, dedup: bool)
    returns (vertices: DataSet)
    requires dedup ==> forall v :: isValidVid(v) ==> HasVidType(VidTypeOf(space), v)
    ensures vertices.colNames == [kVid]
    ensures vertices.rows == Column(Kept(Evaluated(rows, eval), isValidVid, dedup))
  {
    if IsIntVidType(space) {
      vertices := BuildRequestDataSet(Int64Vid, rows, eval, isValidVid, dedup);
      return;
    }
    vertices := BuildRequestDataSet(StringVid, rows, eval, isValidVid, dedup);
  }

  /** Builds the identifier table of a path stream for the current space. */
  method BuildPathRequestDataSetByVidType(space: SpaceInfo, rows: seq<Row>, eval: Row -> Value)
    returns (vertices: DataSet)
    requires RowsArePaths(VidTypeOf(space), rows, eval)
    ensures vertices.colNames == [kVid]
    ensures vertices.rows == Column(Kept(TouchedVids(PathsOf(VidTypeOf(space), rows, eval)), AnyVid, true))
  {
    if IsIntVidType(space) {
      vertices := BuildPathRequestDataSet(Int64Vid, rows, eval);
      return;
    }
    vertices := BuildPathRequestDataSet(StringVid, rows, eval);
  }

  /** Every table the request builder emits has one column and one value
      per row, each passing the type check; with `dedup` no identifier
      repeats and every type-valid identifier of the input is present. */
  lemma RequestTableShape(rows: seq<Row>, eval: Row -> Value, isValidVid: Value -> bool, dedup: bool)
    ensures var ds := DataSet([kVid], Column(Kept(Evaluated(rows, eval), isValidVid, dedup)));
      && WellFormed(ds)
      && (forall k :: 0 <= k < |ds.rows| ==> isValidVid(ds.rows[k].values[0]))
      && (dedup ==> Distinct(Kept(Evaluated(rows, eval), isValidVid, dedup)))
      && (dedup ==> forall k :: 0 <= k < |rows| && isValidVid(eval(rows[k])) ==>
                      Row([eval(rows[k])]) in ds.rows)
  {
    var vals := Evaluated(rows, eval);
    var out := Kept(vals, isValidVid, dedup);
    KeptOnlyValid(vals, isValidVid, dedup);
    forall k | 0 <= k < |out| ensures isValidVid(out[k]) {
      assert out[k] in out;
    }
    if dedup {
      KeptDistinct(vals, isValidVid);
      KeptCovers(vals, isValidVid);
      forall k | 0 <= k < |rows| && isValidVid(eval(rows[k]))
        ensures Row([eval(rows[k])]) in Column(out)
      {
        assert vals[k] == eval(rows[k]);
        var m :| 0 <= m < |out| && out[m] == vals[k];
        assert Column(out)[m] == Row([eval(rows[k])]);
      }
    }
  }
}
