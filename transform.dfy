/** transform.py: the point function a topology's "transform" defines. Without a transform it
    is the identity; with one, a position is scaled and translated, and when it is read with
    its index in a delta-encoded arc it is first added to the positions since index 0. */
module PointTransform {
  import opened Base
  import Delta
  import Runs

  /** What `__call__` hands back: the identity function or the bound method `func`. */
  datatype PointFn = Identity | Transforming

  /** A position scaled and translated: p · scale + translate, axis by axis. */
  function Scaled(t: Transform, p: Pos): Pos
  {
    Pos(p.x * t.kx + t.dx, p.y * t.ky + t.dy)
  }

  /** The positions of an arc as a reader sees them: unchanged without a transform, and with
      one the running sums of the deltas, scaled and translated. */
  function DecodeArc(t: Option<Transform>, arc: seq<Pos>): (r: seq<Pos>)
    ensures |r| == |arc|
  {
    match t
    case None => arc
    case Some(tr) => ScaledAll(tr, Delta.PrefixSums(arc))
  }

  /** Every position of a list scaled and translated. */
  function ScaledAll(t: Transform, ps: seq<Pos>): (r: seq<Pos>)
    ensures |r| == |ps|
  {
    seq(|ps|, i requires 0 <= i < |ps| => Scaled(t, ps[i]))
  }

  /** A position outside any arc: read without an index, so never accumulated. */
  function DecodePoint(t: Option<Transform>, p: Pos): Pos
  {
    match t
    case None => p
    case Some(tr) => Scaled(tr, p)
  }

  /** Decoding an arc that `delta` encoded gives back the arc with its runs of equal positions
      collapsed (padded to two positions), scaled and translated. */
  lemma DecodeDelta(t: Transform, ps: seq<Pos>)
    requires Delta.DeltaArc(ps).Ok?
    ensures DecodeArc(Some(t), Delta.DeltaArc(ps).value) == ScaledAll(t, Runs.Pad(Runs.Compress(ps), 2))
  {
    Delta.DeltaRoundTrip(ps);
  }

  /** The running sums of an arc, one at a time: the sum up to i is the sum up to i - 1 plus
      arc[i]. */
  lemma PrefixSumsStep(arc: seq<Pos>, i: nat)
    requires i < |arc|
    ensures Delta.PrefixSums(arc)[i] == if i == 0 then arc[0] else Add(Delta.PrefixSums(arc)[i - 1], arc[i])
  {
    PrefixSumsPrefix(arc, i + 1);
    PrefixSumsPrefix(arc, 1);
    assert arc[..i + 1][..i] == arc[..i];
    PrefixSumsPrefix(arc[..i + 1], i);
  }

  /** The running sums of a prefix are the prefix of the running sums. */
  lemma {:induction false} PrefixSumsPrefix(arc: seq<Pos>, n: nat)
    requires n <= |arc|
    ensures Delta.PrefixSums(arc)[..n] == Delta.PrefixSums(arc[..n])
    decreases |arc|
  {
    if n < |arc| {
      var m := |arc| - 1;
      assert arc[..m][..n] == arc[..n];
      PrefixSumsPrefix(arc[..m], n);
    } else {
      assert arc[..n] == arc;
    }
  }

  /** Points decoded one by one without an index. */
  function DecodePoints(t: Option<Transform>, ps: seq<Pos>): (r: seq<Pos>)
    ensures |r| == |ps| && forall k :: 0 <= k < |ps| ==> r[k] == DecodePoint(t, ps[k])
  {
    if ps == [] then [] else DecodePoints(t, ps[..|ps| - 1]) + [DecodePoint(t, ps[|ps| - 1])]
  }

  lemma DecodePointsStep(s0: seq<Pos>, s1: seq<Pos>, s2: seq<Pos>, t: Option<Transform>, ps: seq<Pos>, i: nat)
    requires i < |ps| && s1 == s0 + DecodePoints(t, ps[..i]) && s2 == s1 + [DecodePoint(t, ps[i])]
    ensures s2 == s0 + DecodePoints(t, ps[..i + 1])
  {
    assert ps[..i + 1][..i] == ps[..i];
  }

  /** The position the arc scan decodes at index i, from the running sum before it. */
  lemma DecodeArcAt(t: Option<Transform>, arc: seq<Pos>, i: nat, acc: Pos, p: Pos)
    requires i < |arc|
    requires t.Some? && i > 0 ==> acc == Delta.PrefixSums(arc)[i - 1]
    requires t.None? ==> p == arc[i]
    requires t.Some? ==> p == Scaled(t.value, Add(if i == 0 then Origin else acc, arc[i]))
    ensures p == DecodeArc(t, arc)[i]
    ensures t.Some? ==> Add(if i == 0 then Origin else acc, arc[i]) == Delta.PrefixSums(arc)[i]
  {
    PrefixSumsStep(arc, i);
  }

  class Transformer {
    var x0: real
    var y0: real
    var kx: real
    var ky: real
    var dx: real
    var dy: real

    /** `__init__`: every field zero. */
    constructor ()
      ensures x0 == 0.0 && y0 == 0.0 && kx == 0.0 && ky == 0.0 && dx == 0.0 && dy == 0.0
    {
      x0, y0, kx, ky, dx, dy := 0.0, 0.0, 0.0, 0.0, 0.0, 0.0;
    }

    function Current(): Transform
      reads this
    {
      Transform(kx, ky, dx, dy)
    }

    /** `__call__`: the identity without a transform; otherwise scale and translate are taken
        from it and `func` is returned. The accumulator is left as it is. */
    method Call(t: Option<Transform>) returns (f: PointFn)
      modifies this`kx, this`ky, this`dx, this`dy
      ensures f == (if t.None? then Identity else Transforming)
      ensures t.Some? ==> Current() == t.value
      ensures t.None? ==> Current() == old(Current())
    {
      if t.None? {
        return Identity;
      }
      kx, ky := t.value.kx, t.value.ky;
      dx, dy := t.value.dx, t.value.dy;
      return Transforming;
    }

    /** `func`: restart the running sum at index 0 or without an index, add the input to it,
        and return the sum scaled and translated. The input is not changed. */
    method Func(input: Pos, i: Option<int>) returns (output: Pos)
      modifies this`x0, this`y0
      ensures var start := if i.None? || i == Some(0) then Origin else Pos(old(x0), old(y0));
              Pos(x0, y0) == Add(start, input) && output == Scaled(Current(), Pos(x0, y0))
    {
      if i.None? || i == Some(0) {
        x0, y0 := 0.0, 0.0;
      }
      x0 := x0 + input.x;
      y0 := y0 + input.y;
      output := Pos(x0 * kx + dx, y0 * ky + dy);
    }

    /** Calling what `__call__` returned. */
    method Apply(f: PointFn, input: Pos, i: Option<int>) returns (output: Pos)
      modifies this`x0, this`y0
      ensures f.Identity? ==> output == input && x0 == old(x0) && y0 == old(y0)
      ensures f.Transforming? ==> var start := if i.None? || i == Some(0) then Origin else Pos(old(x0), old(y0));
                          Pos(x0, y0) == Add(start, input) && output == Scaled(Current(), Pos(x0, y0))
    {
      if f.Identity? {
        return input;
      }
      output := Func(input, i);
    }
  }
}
