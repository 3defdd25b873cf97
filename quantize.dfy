/** quantize.py: quantizing a topology that was built without quantization. The resolution is
    checked, a grid is chosen from the topology's bounding box (or given outright as a scale
    and translate), Point and MultiPoint objects are snapped to it, and every arc is snapped
    and delta-encoded. */
module Quantize {
  import opened Base
  import opened Geo
  import opened TopoJson
  import opened PointTransform
  import opened PointUntransform
  import opened Runs
  import Delta
  import TopoBBox
  import Commons

  /** The second argument: absent or None, a number of grid lines per axis, a dict with a
      "scale" (and "translate"), or some other iterable, which has no floor. */
  datatype Resolution = NoResolution | Count(n: real) | Scale(t: Transform) | Unscaled

  /** The quantized topology. Its "bbox" is None when the topology's own was None and a scale
      was given. */
  datatype Quantized = Quantized(bbox: Option<Box>, transform: Grid, objects: seq<Named<seq<int>>>, arcs: seq<seq<Pos>>)

  /** The scale of one axis for n grid lines over [a, b]: (b - a) / (n - 1), or exactly 1 when
      the axis is degenerate or nothing was seen. */
  function AxisScale(a: Ext, b: Ext, n: int): (k: real)
    requires n >= 2 && ((a.Fin? && b.Fin?) || (a == PosInf && b == NegInf))
    ensures k > 0.0
    ensures Lt(a, b) ==> k * ((n - 1) as real) == b.v - a.v
    ensures !Lt(a, b) ==> k == 1.0
  {
    if Lt(a, b) then (b.v - a.v) / ((n - 1) as real) else 1.0
  }

  /** The grid chosen for n lines over a box: the scales above, translated to its lower
      corner. */
  function GridFor(box: Box, n: int): (g: Grid)
    requires n >= 2 && Proper(box)
    ensures g.kx > 0.0 && g.ky > 0.0 && g.dx == box.x0 && g.dy == box.y0
  {
    Grid(AxisScale(box.x0, box.x1, n), AxisScale(box.y0, box.y1, n), box.x0, box.y0)
  }

  /** `quantize_geometry`: collections, points and multipoints are rebuilt with their "id",
      "bbox" and "properties" copied; every other object is returned as it is. */
  function QuantizeGeometry(round: real -> int, g: Grid, o: Geom<seq<int>>): (r: Result<Geom<seq<int>>>)
    ensures r.Ok? ==> r.value.id == o.id && r.value.bbox == o.bbox && r.value.properties == o.properties
    ensures !o.kind.GeometryCollection? && !o.kind.Point? && !o.kind.MultiPoint? ==> r == Ok(o)
    ensures r.Ok? && o.kind.Point? ==>
              Snap(round, g, o.kind.coordinates).Ok? && r.value.kind == Point(Snap(round, g, o.kind.coordinates).value)
    ensures r.Ok? && o.kind.MultiPoint? ==>
              SnapAll(round, g, o.kind.points).Ok? && r.value.kind == MultiPoint(SnapAll(round, g, o.kind.points).value)
    ensures r.Ok? && o.kind.GeometryCollection? ==>
              r.value.kind.GeometryCollection? && |r.value.kind.geometries| == |o.kind.geometries|
    decreases o
  {
    match o.kind
    case GeometryCollection(gs) =>
      var qs :- QuantizeGeometries(round, g, gs);
      Ok(Geom(GeometryCollection(qs), o.id, o.bbox, o.properties))
    case Point(p) =>
      var q :- Snap(round, g, p);
      Ok(Geom(Point(q), o.id, o.bbox, o.properties))
    case MultiPoint(ps) =>
      var qs :- SnapAll(round, g, ps);
      Ok(Geom(MultiPoint(qs), o.id, o.bbox, o.properties))
    case _ => Ok(o)
  }

  function QuantizeGeometries(round: real -> int, g: Grid, gs: seq<Geom<seq<int>>>): (r: Result<seq<Geom<seq<int>>>>)
    ensures r.Ok? ==> |r.value| == |gs|
    decreases gs
  {
    if gs == [] then Ok([])
    else
      var first :- QuantizeGeometry(round, g, gs[0]);
      var rest :- QuantizeGeometries(round, g, gs[1..]);
      Ok([first] + rest)
  }

  function QuantizeObjects(round: real -> int, g: Grid, objects: seq<Named<seq<int>>>): (r: Result<seq<Named<seq<int>>>>)
    ensures r.Ok? ==> |r.value| == |objects| && forall k :: 0 <= k < |objects| ==> r.value[k].name == objects[k].name
  {
    if objects == [] then Ok([])
    else
      var front :- QuantizeObjects(round, g, objects[..|objects| - 1]);
      var last :- QuantizeGeometry(round, g, objects[|objects| - 1].geom);
      Ok(front + [Named(objects[|objects| - 1].name, last)])
  }

  /** `quantize_arc`: the grid point of the first position, then each difference from the grid
      point before that is not [0, 0]; [0, 0] is added after the first when nothing else was
      kept, except that a one-position arc has no room for it. Reading the first position of
      an empty arc is IndexError. */
  function QuantizedArc(round: real -> int, g: Grid, ps: seq<Pos>): Result<seq<Pos>>
  {
    if ps == [] then Fail(IndexError)
    else
      var s :- SnapAll(round, g, ps);
      if |ps| == 1 then Ok(s) else Delta.DeltaArc(s)
  }

  function QuantizeArcs(round: real -> int, g: Grid, arcs: seq<seq<Pos>>): Result<seq<seq<Pos>>>
  {
    if arcs == [] then Ok([])
    else
      var front :- QuantizeArcs(round, g, arcs[..|arcs| - 1]);
      var last :- QuantizedArc(round, g, arcs[|arcs| - 1]);
      Ok(front + [last])
  }

  /** What `__call__` returns once the box and the grid are chosen: the objects first, then
      the arcs. */
  function Quantization(round: real -> int, topology: Topo, box: Option<Box>, g: Grid): Result<Quantized>
  {
    var objects :- QuantizeObjects(round, g, topology.objects);
    var arcs :- QuantizeArcs(round, g, topology.arcs);
    Ok(Quantized(box, g, objects, arcs))
  }

  // ---------------------------------------------------------------- what a quantized arc is

  /** A quantized arc starts with the grid point of the first position and is no longer than
      the arc. An arc of two or more positions gives at least two, with no [0, 0] after the
      first unless it is the single one that pads an arc whose grid points all coincide; and
      the running sums give back the grid points with runs collapsed, padded to two. */
  lemma QuantizedArcShape(round: real -> int, g: Grid, ps: seq<Pos>)
    requires QuantizedArc(round, g, ps).Ok?
    ensures var out := QuantizedArc(round, g, ps).value;
            var s := SnapAll(round, g, ps).value;
            && SnapAll(round, g, ps).Ok?
            && 1 <= |out| <= |ps| && out[0] == s[0]
            && (|ps| == 1 ==> out == s)
            && (|ps| >= 2 ==> |out| >= 2 && (|Compress(s)| == 1 ==> out == [s[0], Origin])
                                         && (|Compress(s)| > 1 ==> forall i :: 1 <= i < |out| ==> out[i] != Origin)
                                         && Delta.PrefixSums(out) == Pad(Compress(s), 2))
  {
    var s := SnapAll(round, g, ps).value;
    if |ps| >= 2 {
      Delta.DeltaArcShape(s);
      Delta.DeltaRoundTrip(s);
    }
  }

  /** Read back through the grid it was quantized to, a quantized arc of two or more
      positions lies on the grid points of its positions, runs collapsed. */
  lemma QuantizedArcDecodes(round: real -> int, g: Grid, ps: seq<Pos>)
    requires g.dx.Fin? && g.dy.Fin? && |ps| >= 2 && QuantizedArc(round, g, ps).Ok?
    ensures var t := Transform(g.kx, g.ky, g.dx.v, g.dy.v);
            DecodeArc(Some(t), QuantizedArc(round, g, ps).value) == ScaledAll(t, Pad(Compress(SnapAll(round, g, ps).value), 2))
  {
    DecodeDelta(Transform(g.kx, g.ky, g.dx.v, g.dy.v), SnapAll(round, g, ps).value);
  }

  lemma QuantizeObjectsStep(round: real -> int, g: Grid, objects: seq<Named<seq<int>>>, i: nat, out: seq<Named<seq<int>>>)
    requires i < |objects| && QuantizeObjects(round, g, objects[..i]) == Ok(out)
    ensures QuantizeObjects(round, g, objects[..i + 1]) ==
            match QuantizeGeometry(round, g, objects[i].geom)
            case Ok(q) => Ok(out + [Named(objects[i].name, q)])
            case Fail(e) => Fail(e)
  {
    assert objects[..i + 1][..i] == objects[..i];
  }

  /** Once a prefix fails, every longer prefix fails the same way. */
  lemma {:induction false} QuantizeObjectsFails(round: real -> int, g: Grid, objects: seq<Named<seq<int>>>, i: nat)
    requires i <= |objects| && QuantizeObjects(round, g, objects[..i]).Fail?
    ensures QuantizeObjects(round, g, objects) == QuantizeObjects(round, g, objects[..i])
    decreases |objects| - i
  {
    if i < |objects| {
      assert objects[..i + 1][..i] == objects[..i];
      QuantizeObjectsFails(round, g, objects, i + 1);
    } else {
      assert objects[..i] == objects;
    }
  }

  lemma QuantizeArcsStep(round: real -> int, g: Grid, arcs: seq<seq<Pos>>, i: nat, out: seq<seq<Pos>>)
    requires i < |arcs| && QuantizeArcs(round, g, arcs[..i]) == Ok(out)
    ensures QuantizeArcs(round, g, arcs[..i + 1]) ==
            match QuantizedArc(round, g, arcs[i])
            case Ok(q) => Ok(out + [q])
            case Fail(e) => Fail(e)
  {
    assert arcs[..i + 1][..i] == arcs[..i];
  }

  lemma {:induction false} QuantizeArcsFails(round: real -> int, g: Grid, arcs: seq<seq<Pos>>, i: nat)
    requires i <= |arcs| && QuantizeArcs(round, g, arcs[..i]).Fail?
    ensures QuantizeArcs(round, g, arcs) == QuantizeArcs(round, g, arcs[..i])
    decreases |arcs| - i
  {
    if i < |arcs| {
      assert arcs[..i + 1][..i] == arcs[..i];
      QuantizeArcsFails(round, g, arcs, i + 1);
    } else {
      assert arcs[..i] == arcs;
    }
  }

  /** Where the loop of `quantize_arc` stands after i grid points: they compress to `kept`,
      whose differences fill the front of `slots`. */
  ghost predicate KeptSoFar(s: seq<Pos>, i: nat, kept: seq<Pos>, slots: seq<Pos>)
  {
    1 <= i <= |s| == |slots| && kept == Compress(s[..i]) && |kept| <= i
    && kept[|kept| - 1] == s[i - 1] && slots[..|kept|] == Delta.Deltas(kept)
  }

  /** One more grid point, equal to the one before: its difference [0, 0] is dropped. */
  lemma KeptSkip(s: seq<Pos>, i: nat, kept: seq<Pos>, slots: seq<Pos>, d: Pos)
    requires KeptSoFar(s, i, kept, slots) && i < |s|
    requires d == Sub(s[i], s[i - 1]) && d.x == 0.0 && d.y == 0.0
    ensures KeptSoFar(s, i + 1, kept, slots)
  {
    CompressSnoc(s, i);
  }

  /** One more grid point, apart from the one before: its difference goes to the next slot. */
  lemma KeptKeep(s: seq<Pos>, i: nat, kept: seq<Pos>, before: seq<Pos>, after: seq<Pos>, d: Pos)
    requires KeptSoFar(s, i, kept, before) && i < |s|
    requires d == Sub(s[i], s[i - 1]) && (d.x != 0.0 || d.y != 0.0)
    requires after == before[|kept| := d]
    ensures KeptSoFar(s, i + 1, kept + [s[i]], after)
  {
    CompressSnoc(s, i);
    Delta.DeltasSnoc(kept, s[i]);
    var m := |kept|;
    assert after[..m] == before[..m];
    assert after[..m + 1] == after[..m] + [d];
  }

  /** The quantized arc, from the compressed grid points: their differences, or the first
      grid point and [0, 0] when everything collapsed into it, or the one grid point. */
  lemma ArcResult(round: real -> int, g: Grid, input: seq<Pos>, s: seq<Pos>, out: seq<Pos>)
    requires |input| >= 1 && SnapAll(round, g, input) == Ok(s)
    requires |Compress(s)| > 1 ==> out == Delta.Deltas(Compress(s))
    requires |Compress(s)| == 1 ==> out == if |input| == 1 then [Compress(s)[0]] else [Compress(s)[0], Origin]
    ensures QuantizedArc(round, g, input) == Ok(out)
  {
    CompressRuns(s);
    if |input| == 1 {
      assert s == [s[0]];
      assert Compress(s) == [s[0]];
    }
  }

  /** The slice `quantize_arc` returns: the first j slots, clamped to the array, after [0, 0]
      was written to slot 1 when only one position was kept. */
  lemma ArcSlice(before: seq<Pos>, after: seq<Pos>, kept: seq<Pos>, out: seq<Pos>)
    requires 1 <= |kept| <= |before| && before[..|kept|] == Delta.Deltas(kept)
    requires |kept| == 1 ==> if |before| >= 2 then after == before[1 := Origin] else after == before
    requires |kept| > 1 ==> after == before
    requires var j := if |kept| == 1 then 2 else |kept|;
             out == after[..if j < |before| then j else |before|]
    ensures |kept| > 1 ==> out == Delta.Deltas(kept)
    ensures |kept| == 1 ==> out == if |before| == 1 then [kept[0]] else [kept[0], Origin]
  {
    if |kept| == 1 {
      assert before[0] == Delta.Deltas(kept)[0];
    }
  }

  class Quantizer {
    const bbox: TopoBBox.BBox
    const untransform: Untransformer
    /** The point function of the latest call; None before the first. */
    var t: Option<PointFn>

    constructor (round: real -> int)
      ensures bbox.Valid() && bbox.seen == [] && untransform.round == round && t.None?
      ensures fresh(bbox) && fresh(bbox.transform) && fresh(untransform)
    {
      bbox := new TopoBBox.BBox();
      untransform := new Untransformer(round);
      t := None;
    }

    /** `quantize_arc`, which writes into a pessimistic `Array` of the arc's length and keeps
        its first j slots. */
    method QuantizeArc(input: seq<Pos>) returns (r: Result<seq<Pos>>)
      requires t == Some(Transforming)
      modifies untransform`x0, untransform`y0
      ensures r == QuantizedArc(untransform.round, untransform.Current(), input)
    {
      ghost var g := untransform.Current();
      ghost var round := untransform.round;
      var n := |input|;
      var output := new Commons.Array<Pos>(Some(n), Origin);
      if n == 0 {
        return Fail(IndexError);
      }
      var first := First(input, g);
      if first.Fail? {
        return Fail(first.error);
      }
      ghost var s := SnapAll(round, g, input).value;
      var _ := output.Put(0, first.value);
      var j := KeepLoop(input, output, s, g);
      ghost var kept := Compress(s);
      ghost var before := output.list[..];
      if j == 1 {
        var _ := output.Put(j, Origin);
        j := j + 1;
      }
      var out := output.Prefix(j);
      ArcSlice(before, output.list[..], kept, out);
      ArcResult(round, g, input, s, out);
      return Ok(out);
    }

    /** The loop of `quantize_arc`: each later position goes into the next slot when its
        difference from the previous grid point is not [0, 0]. The slots filled are the
        differences of the grid points with their runs collapsed. */
    method KeepLoop(input: seq<Pos>, output: Commons.Array<Pos>, ghost s: seq<Pos>, ghost g: Grid) returns (j: nat)
      requires t == Some(Transforming) && output.Valid() && output.size == |input| >= 1
      requires untransform.Current() == g
      requires |s| == |input| && forall k {:trigger input[k]} :: 0 <= k < |input| ==> Snap(untransform.round, g, input[k]) == Ok(s[k])
      requires untransform.Previous() == s[0] && output.list[..1] == [s[0]]
      modifies untransform`x0, untransform`y0, output.list
      ensures j == |Compress(s)| && output.list[..j] == Delta.Deltas(Compress(s))
    {
      ghost var n := |input|;
      assert s[..1] == [s[0]];
      ghost var kept := [s[0]];
      var i;
      i, j := 1, 1;
      while i < |input|
        invariant 1 <= j <= i <= n
        invariant untransform.Previous() == s[i - 1]
        invariant KeptSoFar(s, i, kept, output.list[..]) && |kept| == j
      {
        var p := Next(input, i, s, g);
        if p.value.x != 0.0 || p.value.y != 0.0 {
          ghost var before := output.list[..];
          var _ := output.Put(j, p.value);
          KeptKeep(s, i, kept, before, output.list[..], p.value);
          kept := kept + [s[i]];
          j := j + 1;
        } else {
          KeptSkip(s, i, kept, output.list[..], p.value);
        }
        i := i + 1;
      }
      assert s[..n] == s;
    }

    /** The point function applied at position 0: the grid point of the first position, or the
        failure that every position of the arc meets. */
    method First(input: seq<Pos>, ghost g: Grid) returns (p: Result<Pos>)
      requires t == Some(Transforming) && |input| >= 1 && untransform.Current() == g
      modifies untransform`x0, untransform`y0
      ensures SnapAll(untransform.round, g, input).Fail? ==> p == Fail(SnapAll(untransform.round, g, input).error)
      ensures SnapAll(untransform.round, g, input).Ok? ==>
                var s := SnapAll(untransform.round, g, input).value;
                p == Ok(s[0]) && untransform.Previous() == s[0]
    {
      SnapAllFails(untransform.round, g, input);
      p := untransform.Apply(t.value, input[0], Some(0));
    }

    /** The point function applied at a position i > 0 of an arc whose grid point is known:
        the difference from the grid point before it. */
    method Next(input: seq<Pos>, i: nat, ghost s: seq<Pos>, ghost g: Grid) returns (p: Result<Pos>)
      requires t == Some(Transforming) && 0 < i < |input| && untransform.Current() == g
      requires |s| == |input| && forall k {:trigger input[k]} :: 0 <= k < |input| ==> Snap(untransform.round, g, input[k]) == Ok(s[k])
      modifies untransform`x0, untransform`y0
      ensures p == Ok(Sub(s[i], old(untransform.Previous()))) && untransform.Previous() == s[i]
    {
      assert Snap(untransform.round, g, input[i]) == Ok(s[i]);
      p := untransform.Apply(t.value, input[i], Some(i));
    }

    /** The arcs, in order, as `map` applies `quantize_arc`. */
    method QuantizeAllArcs(arcs: seq<seq<Pos>>) returns (r: Result<seq<seq<Pos>>>)
      requires t == Some(Transforming)
      modifies untransform`x0, untransform`y0
      ensures r == QuantizeArcs(untransform.round, untransform.Current(), arcs)
    {
      ghost var g := untransform.Current();
      var out := [];
      for i := 0 to |arcs|
        invariant untransform.Current() == g
        invariant QuantizeArcs(untransform.round, g, arcs[..i]) == Ok(out)
      {
        var q := QuantizeArc(arcs[i]);
        QuantizeArcsStep(untransform.round, g, arcs, i, out);
        if q.Fail? {
          QuantizeArcsFails(untransform.round, g, arcs, i + 1);
          return Fail(q.error);
        }
        out := out + [q.value];
      }
      assert arcs[..|arcs|] == arcs;
      return Ok(out);
    }

    /** The objects loop of `__call__`. */
    method QuantizeAllObjects(objects: seq<Named<seq<int>>>) returns (r: Result<seq<Named<seq<int>>>>)
      ensures r == QuantizeObjects(untransform.round, untransform.Current(), objects)
    {
      var round, g := untransform.round, untransform.Current();
      var out := [];
      for i := 0 to |objects|
        invariant QuantizeObjects(round, g, objects[..i]) == Ok(out)
      {
        var q := QuantizeGeometry(round, g, objects[i].geom);
        QuantizeObjectsStep(round, g, objects, i, out);
        if q.Fail? {
          QuantizeObjectsFails(round, g, objects, i + 1);
          return Fail(q.error);
        }
        out := out + [Named(objects[i].name, q.value)];
      }
      assert objects[..|objects|] == objects;
      return Ok(out);
    }

    /** `__call__`. A topology that already has a transform is refused. Without a usable
        scale the resolution must be a number whose floor n is at least 2; the box is the
        topology's own "bbox" when it has a non-null one and is otherwise computed by the
        `BBox` instance, and the grid is the one for n lines over the box. With a scale, the
        grid is the one given and the box is whatever "bbox" holds. */
    method Call(topology: Topo, resolution: Resolution) returns (r: Result<Quantized>)
      requires bbox.Valid()
      modifies this, bbox, bbox.transform, untransform
      ensures bbox.Valid()
      ensures topology.transform.Some? ==> r == Fail(AlreadyQuantized)
      ensures topology.transform.None? && (resolution.NoResolution? || (resolution.Count? && resolution.n.Floor < 2)) ==>
                r == Fail(InvalidResolution)
      ensures topology.transform.None? && resolution.Unscaled? ==> r == Fail(TypeError)
      ensures topology.transform.None? && resolution.Count? && resolution.n.Floor >= 2 ==>
                var box := if topology.bbox.Present? then FinBox(topology.bbox.value)
                           else Box(bbox.x0, bbox.y0, bbox.x1, bbox.y1);
                && (topology.bbox.Present? ==> bbox.seen == old(bbox.seen))
                && (!topology.bbox.Present? ==> bbox.seen == old(bbox.seen) + TopoBBox.ArcsSeen(None, topology.arcs)
                                                                            + TopoBBox.ObjectsSeen(None, topology.objects))
                && Proper(box)
                && r == Quantization(untransform.round, topology, Some(box), GridFor(box, resolution.n.Floor))
      ensures topology.transform.None? && resolution.Scale? ==>
                if topology.bbox.Missing? then r == Fail(KeyError)
                else r == Quantization(untransform.round, topology,
                                       if topology.bbox.Null? then None else Some(FinBox(topology.bbox.value)),
                                       GridOf(resolution.t))
    {
      if topology.transform.Some? {
        return Fail(AlreadyQuantized);
      }
      var box: Option<Box>;
      var grid: Grid;
      match resolution {
      case NoResolution =>
        return Fail(InvalidResolution);
      case Unscaled =>
        return Fail(TypeError);
      case Count(x) =>
        if x.Floor < 2 {
          return Fail(InvalidResolution);
        }
        var n := x.Floor;
        var b: Box;
        if topology.bbox.Present? {
          b := FinBox(topology.bbox.value);
        } else {
          b := bbox.Call(topology);
        }
        box, grid := Some(b), GridFor(b, n);
      case Scale(tr) =>
        if topology.bbox.Missing? {
          return Fail(KeyError);
        }
        box := if topology.bbox.Null? then None else Some(FinBox(topology.bbox.value));
        grid := GridOf(tr);
      }
      var f := untransform.Call(Some(grid));
      t := Some(f);
      var objects := QuantizeAllObjects(topology.objects);
      if objects.Fail? {
        return Fail(objects.error);
      }
      var arcs := QuantizeAllArcs(topology.arcs);
      if arcs.Fail? {
        return Fail(arcs.error);
      }
      return Ok(Quantized(box, grid, objects.value, arcs.value));
    }
  }
}
