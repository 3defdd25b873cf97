/** prequantize.py: snapping every coordinate to an n-by-n integer grid over the bounding box,
    collapsing each run of equal snapped positions of a line or ring and padding short ones. */
module Prequantize {
  import opened Base
  import opened Geo
  import opened Runs

  /** The grid of one call: its origin (x0, y0) and its factors (kx, ky). Python's `round` of a
      float is a parameter throughout. */
  datatype Grid = Grid(x0: real, y0: real, kx: real, ky: real)

  /** The factor of one axis over [lo, hi]: (n - 1) / (hi - lo), or 1 on a degenerate axis. */
  function Factor(n: int, lo: real, hi: real): (k: real)
    ensures lo < hi ==> k * (hi - lo) == (n - 1) as real
    ensures !(lo < hi) ==> k == 1.0
    ensures lo < hi && n > 1 ==> k > 0.0
  {
    if lo < hi then (n - 1) as real / (hi - lo) else 1.0
  }

  /** `quantize_point`. */
  function Snap(q: Grid, round: real -> int, p: Pos): Pos
  {
    Pos(round((p.x - q.x0) * q.kx) as real, round((p.y - q.y0) * q.ky) as real)
  }

  /** `self.quantize_point` as a value: the one snapping every handler uses. The loop of
      `quantize_points` writes the same expression out inline. */
  function SnapOf(q: Grid, round: real -> int): Pos -> Pos
  {
    (p: Pos) => Snap(q, round, p)
  }

  function SnapAll(snap: Pos -> Pos, ps: seq<Pos>): (r: seq<Pos>)
    ensures |r| == |ps| && forall i :: 0 <= i < |ps| ==> r[i] == snap(ps[i])
  {
    seq(|ps|, i requires 0 <= i < |ps| => snap(ps[i]))
  }

  /** The snapped positions with every run of equal ones collapsed to its first. */
  function Kept(snap: Pos -> Pos, inp: seq<Pos>): (c: seq<Pos>)
    ensures |c| <= |inp| && (c == [] <==> inp == [])
    ensures inp != [] ==> c[0] == snap(inp[0])
    ensures forall k :: 0 <= k < |c| - 1 ==> c[k] != c[k + 1]
  {
    CompressRuns(SnapAll(snap, inp));
    Compress(SnapAll(snap, inp))
  }

  /** What `quantize_points(inp, m)` computes: the kept positions padded with copies of the
      first up to m. With an empty input and m > 0 the padding reads output[0] of an empty list:
      Python's IndexError. */
  function QuantizedPoints(snap: Pos -> Pos, inp: seq<Pos>, m: nat): (r: Result<seq<Pos>>)
    ensures r.Fail? <==> inp == [] && m > 0
    ensures r.Ok? ==> |r.value| >= m && |r.value| <= if |inp| < m then m else |inp|
    ensures r.Ok? ==> |Kept(snap, inp)| <= |r.value| && r.value[..|Kept(snap, inp)|] == Kept(snap, inp)
    ensures r.Ok? && inp != [] ==>
              forall k :: |Kept(snap, inp)| <= k < |r.value| ==> r.value[k] == snap(inp[0])
  {
    var c := Kept(snap, inp);
    if c == [] then (if m > 0 then Fail(IndexError) else Ok([]))
    else Ok(Pad(c, m))
  }

  /** `quantize_points`: the first loop keeps the snapped positions that differ from the one
      before, the second pads with copies of output[0] until there are m. */
  method QuantizePoints(snap: Pos -> Pos, inp: seq<Pos>, m: nat) returns (r: Result<seq<Pos>>)
    ensures r == QuantizedPoints(snap, inp, m)
  {
    var out := KeepRuns(snap, inp);
    var j := |out|;
    if j < m && j == 0 {
      return Fail(IndexError);
    }
    if j < m {
      out := PadFirst(out, m);
    }
    return Ok(out);
  }

  /** The first loop of `quantize_points`: each snapped position that differs from the last
      one written goes to output[j]; the result is output[:j]. */
  method KeepRuns(snap: Pos -> Pos, inp: seq<Pos>) returns (c: seq<Pos>)
    ensures c == Kept(snap, inp)
  {
    ghost var snapped := SnapAll(snap, inp);
    var i, j := 0, 0;
    var n := |inp|;
    var output := new Pos[n];
    var p: Option<Pos> := None;
    ghost var kept: seq<Pos> := [];
    while i < n
      invariant 0 <= j <= i <= n && |kept| == j
      invariant output[..j] == kept && kept == Compress(snapped[..i])
      invariant p == if j == 0 then None else Some(kept[j - 1])
    {
      var xy := snap(inp[i]);
      KeptStep(snapped, i, kept, xy);
      if p != Some(xy) {
        p := Some(xy);
        Write(output, j, xy);
        kept := kept + [xy];
        j := j + 1;
      }
      i := i + 1;
    }
    assert snapped[..n] == snapped;
    c := output[..j];
  }

  /** One write `output[j] = xy` of the first loop: the first j positions stay and xy follows. */
  method Write(output: array<Pos>, j: nat, xy: Pos)
    requires j < output.Length
    modifies output
    ensures output[..j + 1] == old(output[..j]) + [xy]
  {
    output[j] := xy;
    assert output[..j + 1] == old(output[..j]) + [xy];
  }

  /** What the first loop keeps of one more snapped position: nothing when it repeats the last
      one kept, and that position otherwise. */
  lemma KeptStep(s: seq<Pos>, i: nat, c: seq<Pos>, xy: Pos)
    requires i < |s| && c == Compress(s[..i]) && xy == s[i]
    ensures s[..i + 1][..i] == s[..i]
    ensures c != [] && c[|c| - 1] == xy ==> Compress(s[..i + 1]) == c
    ensures !(c != [] && c[|c| - 1] == xy) ==> Compress(s[..i + 1]) == c + [xy]
  {
    CompressSnoc(s, i);
  }

  /** The second loop of `quantize_points`: copies of output[0] appended until there are m. */
  method PadFirst(c: seq<Pos>, m: nat) returns (out: seq<Pos>)
    requires c != []
    ensures out == Pad(c, m)
  {
    out := c;
    var j := |out|;
    while j < m
      invariant |c| <= |out| == j
      invariant out[..|c|] == c
      invariant forall k :: |c| <= k < |out| ==> out[k] == c[0]
      invariant j <= |c| || j <= m
      decreases m - j
    {
      out := out + [Pos(out[0].x, out[0].y)];
      j := |out|;
    }
    assert out == Pad(c, m);
  }

  /** `quantize_line` and `quantize_ring`: lines keep at least two positions, rings four. */
  function QuantizeLine(snap: Pos -> Pos): seq<Pos> -> Result<seq<Pos>>
  {
    (l: seq<Pos>) => QuantizedPoints(snap, l, 2)
  }

  function QuantizeRing(snap: Pos -> Pos): seq<Pos> -> Result<seq<Pos>>
  {
    (l: seq<Pos>) => QuantizedPoints(snap, l, 4)
  }

  /** `quantize_geometry`: each type rewritten in place by its handler; Points and MultiPoints
      snapped one for one, collections recursed into, null and unknown types skipped. */
  function QuantizeGeometry(q: Grid, round: real -> int, g: Geom<seq<Pos>>): Result<Geom<seq<Pos>>>
  {
    MapGeom(g, SnapOf(q, round), QuantizeLine(SnapOf(q, round)), QuantizeRing(SnapOf(q, round)))
  }

  /** One named object of `__call__`, quantized under its name. */
  function QuantizeObject(q: Grid, round: real -> int): Named<seq<Pos>> -> Result<Named<seq<Pos>>>
  {
    (o: Named<seq<Pos>>) => var g :- QuantizeGeometry(q, round, o.geom); Ok(Named(o.name, g))
  }

  /** `__call__`: the grid from the bounding box and n, every object quantized in order, then
      the transform {"scale": [1/kx, 1/ky], "translate": [x0, y0]}; with n == 1 on a
      non-degenerate axis the factor is 0 and the reciprocal is Python's ZeroDivisionError. */
  method Prequantize(objects: seq<Named<seq<Pos>>>, bbox: (real, real, real, real), n: int, round: real -> int)
    returns (r: Result<(seq<Named<seq<Pos>>>, Transform)>)
    ensures var q := Grid(bbox.0, bbox.1, Factor(n, bbox.0, bbox.2), Factor(n, bbox.1, bbox.3));
            match MapAll(objects, QuantizeObject(q, round))
            case Fail(e) => r == Fail(e)
            case Ok(out) =>
              if q.kx == 0.0 || q.ky == 0.0 then r == Fail(ZeroDivision)
              else r == Ok((out, Transform(1.0 / q.kx, 1.0 / q.ky, bbox.0, bbox.1)))
    ensures r.Ok? ==> |r.value.0| == |objects| && forall i :: 0 <= i < |objects| ==> r.value.0[i].name == objects[i].name
  {
    var (x0, y0, x1, y1) := bbox;
    var kx := if x0 < x1 then (n - 1) as real / (x1 - x0) else 1.0;
    var ky := if y0 < y1 then (n - 1) as real / (y1 - y0) else 1.0;
    var q := Grid(x0, y0, kx, ky);
    assert q == Grid(bbox.0, bbox.1, Factor(n, bbox.0, bbox.2), Factor(n, bbox.1, bbox.3));
    var out: seq<Named<seq<Pos>>> := [];
    for i := 0 to |objects|
      invariant |out| == i
      invariant forall t :: 0 <= t < i ==> QuantizeObject(q, round)(objects[t]).Ok?
      invariant forall t :: 0 <= t < i ==> out[t] == QuantizeObject(q, round)(objects[t]).value
    {
      var o := QuantizeObject(q, round)(objects[i]);
      if o.Fail? {
        MapAllFirstFailure(objects, QuantizeObject(q, round), i);
        return Fail(o.error);
      }
      out := out + [o.value];
    }
    assert out == MapAll(objects, QuantizeObject(q, round)).value;
    if kx == 0.0 || ky == 0.0 {
      return Fail(ZeroDivision);
    }
    return Ok((out, Transform(1.0 / kx, 1.0 / ky, x0, y0)));
  }
}
