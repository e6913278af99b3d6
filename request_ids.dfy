/** What the storage request builders emit, stated on values: which
    identifiers survive the type check and the duplicate check, in which
    order, and which identifiers a stream of paths touches. */
module RequestIds {
  import opened Values

  /** The identifiers kept from `vals`, scanning left to right: a value the
      type check `valid` rejects is skipped, and with `dedup` a value that
      was already kept is skipped too. */
  function Kept(vals: seq<Value>, valid: Value -> bool, dedup: bool): seq<Value>
    decreases |vals|
  {
    if vals == [] then []
    else
      var prev := Kept(vals[..|vals| - 1], valid, dedup);
      var v := vals[|vals| - 1];
      if valid(v) && !(dedup && v in prev) then prev + [v] else prev
  }

  /** Position `i` of `vals` reaches the output: its value passes the type
      check and, with `dedup`, no earlier position holds the same value. */
  predicate Selected(vals: seq<Value>, valid: Value -> bool, dedup: bool, i: int)
    requires 0 <= i < |vals|
  {
    valid(vals[i]) && (dedup ==> forall j :: 0 <= j < i ==> vals[j] != vals[i])
  }

  /** The values of `vals` that pass `valid`, in order. */
  function Filter(vals: seq<Value>, valid: Value -> bool): seq<Value> {
    if vals == [] then []
    else (if valid(vals[0]) then [vals[0]] else []) + Filter(vals[1..], valid)
  }

  /** The positions of `vals` whose value passes `valid`. */
  function ValidPositions(vals: seq<Value>, valid: Value -> bool): set<int> {
    set i | 0 <= i < |vals| && valid(vals[i])
  }

  /** The type check of the path builder: it has none. */
  predicate AnyVid(v: Value) {
    true
  }

  /** One step of the scan. */
  lemma KeptSnoc(vals: seq<Value>, v: Value, valid: Value -> bool, dedup: bool)
    ensures Kept(vals + [v], valid, dedup)
         == if valid(v) && !(dedup && v in Kept(vals, valid, dedup))
            then Kept(vals, valid, dedup) + [v]
            else Kept(vals, valid, dedup)
  {
    assert (vals + [v])[..|vals|] == vals;
  }

  lemma {:induction false} KeptOnlyValid(vals: seq<Value>, valid: Value -> bool, dedup: bool)
    ensures forall x :: x in Kept(vals, valid, dedup) ==> valid(x) && x in vals
  {
    if vals != [] {
      var init := vals[..|vals| - 1];
      KeptOnlyValid(init, valid, dedup);
      assert forall x :: x in init ==> x in vals;
    }
  }

  lemma {:induction false} KeptLength(vals: seq<Value>, valid: Value -> bool, dedup: bool)
    ensures |Kept(vals, valid, dedup)| <= |vals|
  {
    if vals != [] {
      KeptLength(vals[..|vals| - 1], valid, dedup);
    }
  }

  /** With deduplication every value that passes the type check is in the output. */
  lemma {:induction false} KeptCovers(vals: seq<Value>, valid: Value -> bool)
    ensures forall i :: 0 <= i < |vals| && valid(vals[i]) ==> vals[i] in Kept(vals, valid, true)
  {
    if vals != [] {
      var n := |vals|;
      var init := vals[..n - 1];
      KeptCovers(init, valid);
      var prev := Kept(init, valid, true);
      assert forall x :: x in prev ==> x in Kept(vals, valid, true);
      forall i | 0 <= i < n && valid(vals[i])
        ensures vals[i] in Kept(vals, valid, true)
      {
        if i < n - 1 {
          assert init[i] == vals[i];
        }
      }
    }
  }

  /** With deduplication no identifier is emitted twice. */
  lemma {:induction false} KeptDistinct(vals: seq<Value>, valid: Value -> bool)
    ensures Distinct(Kept(vals, valid, true))
  {
    if vals != [] {
      KeptDistinct(vals[..|vals| - 1], valid);
    }
  }

  /** The output is exactly the selected positions of the input, in input
      order: `idx` lists the positions the output values come from, strictly
      increasing, and a position is listed if and only if it is selected. */
  lemma {:induction false} KeptIndices(vals: seq<Value>, valid: Value -> bool, dedup: bool)
    returns (idx: seq<int>)
    ensures |idx| == |Kept(vals, valid, dedup)|
    ensures forall k :: 0 <= k < |idx| ==> 0 <= idx[k] < |vals| && vals[idx[k]] == Kept(vals, valid, dedup)[k]
    ensures forall k, l :: 0 <= k < l < |idx| ==> idx[k] < idx[l]
    ensures forall i :: 0 <= i < |vals| ==> (i in idx <==> Selected(vals, valid, dedup, i))
  {
    if vals == [] {
      idx := [];
    } else {
      var n := |vals|;
      var init := vals[..n - 1];
      var v := vals[n - 1];
      var prev := Kept(init, valid, dedup);
      var idx0 := KeptIndices(init, valid, dedup);
      assert forall i :: 0 <= i < n - 1 ==> (Selected(vals, valid, dedup, i) <==> Selected(init, valid, dedup, i)) by {
        forall i | 0 <= i < n - 1 ensures Selected(vals, valid, dedup, i) <==> Selected(init, valid, dedup, i) {
          assert forall j :: 0 <= j <= i ==> init[j] == vals[j];
        }
      }
      var keep := valid(v) && !(dedup && v in prev);
      if keep {
        idx := idx0 + [n - 1];
      } else {
        idx := idx0;
      }
      assert Selected(vals, valid, dedup, n - 1) <==> keep by {
        if dedup && valid(v) {
          if v in prev {
            KeptOnlyValid(init, valid, dedup);
            var j :| 0 <= j < n - 1 && init[j] == v;
            assert vals[j] == v;
          } else {
            KeptCovers(init, valid);
            forall j | 0 <= j < n - 1 ensures vals[j] != v {
              assert init[j] == vals[j];
            }
          }
        }
      }
    }
  }

  lemma {:induction false} FilterSnoc(vals: seq<Value>, v: Value, valid: Value -> bool)
    ensures Filter(vals + [v], valid) == Filter(vals, valid) + (if valid(v) then [v] else [])
  {
    if vals != [] {
      assert (vals + [v])[1..] == vals[1..] + [v];
      FilterSnoc(vals[1..], v, valid);
    }
  }

  /** Without deduplication the output is the type-valid identifiers in
      input order, duplicates included. */
  lemma {:induction false} KeptWithoutDedup(vals: seq<Value>, valid: Value -> bool)
    ensures Kept(vals, valid, false) == Filter(vals, valid)
  {
    if vals != [] {
      var init := vals[..|vals| - 1];
      KeptWithoutDedup(init, valid);
      FilterSnoc(init, vals[|vals| - 1], valid);
      assert init + [vals[|vals| - 1]] == vals;
    }
  }

  /** Without deduplication there is one output row per valid input row. */
  lemma {:induction false} KeptWithoutDedupCount(vals: seq<Value>, valid: Value -> bool)
    ensures |Kept(vals, valid, false)| == |ValidPositions(vals, valid)|
  {
    if vals != [] {
      var n := |vals|;
      var init := vals[..n - 1];
      KeptWithoutDedupCount(init, valid);
      var before := ValidPositions(init, valid);
      assert n - 1 !in before;
      if valid(vals[n - 1]) {
        assert ValidPositions(vals, valid) == before + {n - 1};
      } else {
        assert ValidPositions(vals, valid) == before;
      }
    }
  }

  // ---- Paths ----

  /** The destination identifiers of `steps`, in order. */
  function StepVids(steps: seq<Step>): seq<Value>
    decreases |steps|
  {
    if steps == [] then [] else StepVids(steps[..|steps| - 1]) + [steps[|steps| - 1].dst.vid]
  }

  /** The identifiers a path touches: its source, then each step's destination. */
  function PathVids(p: Path): seq<Value> {
    [p.src.vid] + StepVids(p.steps)
  }

  /** The identifiers a stream of paths touches, path after path. */
  function TouchedVids(ps: seq<Path>): seq<Value>
    decreases |ps|
  {
    if ps == [] then [] else TouchedVids(ps[..|ps| - 1]) + PathVids(ps[|ps| - 1])
  }

  /** The number of vertices listed by the paths: one source plus one per step. */
  function VisitCount(ps: seq<Path>): nat {
    if ps == [] then 0 else 1 + |ps[0].steps| + VisitCount(ps[1..])
  }

  /** `v` is the source or a step destination of `p`. */
  predicate Touches(p: Path, v: Value) {
    p.src.vid == v || exists j :: 0 <= j < |p.steps| && p.steps[j].dst.vid == v
  }

  lemma {:induction false} StepVidsSpec(steps: seq<Step>)
    ensures |StepVids(steps)| == |steps|
    ensures forall j :: 0 <= j < |steps| ==> StepVids(steps)[j] == steps[j].dst.vid
  {
    if steps != [] {
      StepVidsSpec(steps[..|steps| - 1]);
    }
  }

  lemma {:induction false} VisitCountSnoc(ps: seq<Path>, p: Path)
    ensures VisitCount(ps + [p]) == VisitCount(ps) + 1 + |p.steps|
  {
    if ps != [] {
      assert (ps + [p])[1..] == ps[1..] + [p];
      VisitCountSnoc(ps[1..], p);
    }
  }

  lemma {:induction false} TouchedVidsLength(ps: seq<Path>)
    ensures |TouchedVids(ps)| == VisitCount(ps)
  {
    if ps != [] {
      var init := ps[..|ps| - 1];
      TouchedVidsLength(init);
      StepVidsSpec(ps[|ps| - 1].steps);
      VisitCountSnoc(init, ps[|ps| - 1]);
      assert init + [ps[|ps| - 1]] == ps;
    }
  }

  lemma {:induction false} TouchedVidsMembers(ps: seq<Path>, v: Value)
    ensures v in TouchedVids(ps) <==> exists i :: 0 <= i < |ps| && Touches(ps[i], v)
  {
    if ps != [] {
      var n := |ps|;
      var init := ps[..n - 1];
      var p := ps[n - 1];
      TouchedVidsMembers(init, v);
      StepVidsSpec(p.steps);
      assert v in PathVids(p) <==> Touches(p, v) by {
        if Touches(p, v) && p.src.vid != v {
          var j :| 0 <= j < |p.steps| && p.steps[j].dst.vid == v;
          assert StepVids(p.steps)[j] == v;
        }
      }
      if exists i :: 0 <= i < n && Touches(ps[i], v) {
        var i :| 0 <= i < n && Touches(ps[i], v);
        if i < n - 1 {
          assert init[i] == ps[i];
        }
      }
      if exists i :: 0 <= i < n - 1 && Touches(init[i], v) {
        var i :| 0 <= i < n - 1 && Touches(init[i], v);
        assert ps[i] == init[i];
      }
    }
  }

  lemma StepVidsPrefix(steps: seq<Step>, j: nat)
    requires j < |steps|
    ensures StepVids(steps[..j + 1]) == StepVids(steps[..j]) + [steps[j].dst.vid]
  {
    assert steps[..j + 1][..j] == steps[..j];
  }

  lemma TouchedVidsPrefix(ps: seq<Path>, i: nat)
    requires i < |ps|
    ensures TouchedVids(ps[..i + 1]) == TouchedVids(ps[..i]) + [ps[i].src.vid] + StepVids(ps[i].steps)
  {
    assert ps[..i + 1][..i] == ps[..i];
  }

  /** The path builder's output lists each identifier the paths touch
      exactly once, and is no longer than the number of vertices listed. */
  lemma PathIdsExactlyOnce(ps: seq<Path>)
    ensures Distinct(Kept(TouchedVids(ps), AnyVid, true))
    ensures forall v :: v in Kept(TouchedVids(ps), AnyVid, true) <==> exists i :: 0 <= i < |ps| && Touches(ps[i], v)
    ensures |Kept(TouchedVids(ps), AnyVid, true)| <= VisitCount(ps)
  {
    var vals := TouchedVids(ps);
    KeptDistinct(vals, AnyVid);
    KeptOnlyValid(vals, AnyVid, true);
    KeptCovers(vals, AnyVid);
    KeptLength(vals, AnyVid, true);
    TouchedVidsLength(ps);
    forall v ensures v in Kept(vals, AnyVid, true) <==> exists i :: 0 <= i < |ps| && Touches(ps[i], v) {
      TouchedVidsMembers(ps, v);
      if v in vals {
        var i :| 0 <= i < |vals| && vals[i] == v;
      }
    }
  }
}
