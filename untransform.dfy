/** untransform.py: the inverse of `transform`. A position is translated back, divided by the
    scale and rounded to the grid; read with its index in an arc, it comes out as the difference
    from the grid point before it. The rounding is a parameter. */
module PointUntransform {
  import opened Base
  import opened PointTransform
  import Delta

  /** The scale and translate being undone. The translate may be infinite: it is the corner of
      a bounding box, and the box of a topology without positions is [inf, inf, -inf, -inf]. */
  datatype Grid = Grid(kx: real, ky: real, dx: Ext, dy: Ext)

  function GridOf(t: Transform): Grid
  {
    Grid(t.kx, t.ky, Fin(t.dx), Fin(t.dy))
  }

  /** int(round((v - d) / k)) on one axis. Dividing by a zero scale is Python's
      ZeroDivisionError; an infinite translate makes the quotient infinite, and rounding that
      to an integer is OverflowError. */
  function SnapAxis(round: real -> int, v: real, k: real, d: Ext): Result<int>
  {
    if k == 0.0 then Fail(ZeroDivision)
    else if !d.Fin? then Fail(Overflow)
    else Ok(round((v - d.v) / k))
  }

  /** The grid point of a position, x first. */
  function Snap(round: real -> int, g: Grid, p: Pos): Result<Pos>
  {
    var x :- SnapAxis(round, p.x, g.kx, g.dx);
    var y :- SnapAxis(round, p.y, g.ky, g.dy);
    Ok(Pos(x as real, y as real))
  }

  /** Whether snapping fails, and how, depends on the grid alone, never on the position. */
  lemma SnapUniform(round: real -> int, g: Grid, p: Pos, q: Pos)
    ensures Snap(round, g, p).Ok? <==> Snap(round, g, q).Ok?
    ensures Snap(round, g, p).Fail? ==> Snap(round, g, p) == Snap(round, g, q)
    ensures Snap(round, g, p).Ok? <==> g.kx != 0.0 && g.ky != 0.0 && g.dx.Fin? && g.dy.Fin?
  {
  }

  /** Undoing a transform: when rounding leaves integers alone, the grid point of a transformed
      integer position is that position. */
  lemma SnapScaled(round: real -> int, t: Transform, p: Pos)
    requires t.kx != 0.0 && t.ky != 0.0
    requires p.x == p.x.Floor as real && p.y == p.y.Floor as real
    requires round(p.x) == p.x.Floor && round(p.y) == p.y.Floor
    ensures Snap(round, GridOf(t), Scaled(t, p)) == Ok(p)
  {
    var q := Scaled(t, p);
    assert (q.x - t.dx) / t.kx == p.x;
    assert (q.y - t.dy) / t.ky == p.y;
    assert SnapAxis(round, q.x, t.kx, Fin(t.dx)) == Ok(p.x.Floor);
    assert SnapAxis(round, q.y, t.ky, Fin(t.dy)) == Ok(p.y.Floor);
  }

  /** The grid points of a list of positions; the first failure wins. */
  function SnapAll(round: real -> int, g: Grid, ps: seq<Pos>): (r: Result<seq<Pos>>)
    ensures r.Ok? ==> |r.value| == |ps| && forall k :: 0 <= k < |ps| ==> Snap(round, g, ps[k]) == Ok(r.value[k])
  {
    if ps == [] then Ok([])
    else
      var front :- SnapAll(round, g, ps[..|ps| - 1]);
      var last :- Snap(round, g, ps[|ps| - 1]);
      Ok(front + [last])
  }

  /** SnapAll fails exactly when snapping fails, for a non-empty list, and then the same way. */
  lemma {:induction false} SnapAllFails(round: real -> int, g: Grid, ps: seq<Pos>)
    requires ps != []
    ensures SnapAll(round, g, ps).Fail? <==> Snap(round, g, ps[0]).Fail?
    ensures SnapAll(round, g, ps).Fail? ==> SnapAll(round, g, ps).error == Snap(round, g, ps[0]).error
    decreases |ps|
  {
    SnapUniform(round, g, ps[0], ps[|ps| - 1]);
    if |ps| > 1 {
      var front := ps[..|ps| - 1];
      assert front[0] == ps[0];
      SnapAllFails(round, g, front);
    }
  }

  /** The grid points of the prefix are the prefix of the grid points. */
  lemma {:induction false} SnapAllPrefix(round: real -> int, g: Grid, ps: seq<Pos>, n: nat)
    requires n <= |ps| && SnapAll(round, g, ps).Ok?
    ensures SnapAll(round, g, ps[..n]) == Ok(SnapAll(round, g, ps).value[..n])
    decreases |ps|
  {
    if n < |ps| {
      var m := |ps| - 1;
      var front := SnapAll(round, g, ps[..m]).value;
      assert SnapAll(round, g, ps).value == front + [SnapAll(round, g, ps).value[m]];
      assert SnapAll(round, g, ps).value[..n] == front[..n];
      assert ps[..m][..n] == ps[..n];
      SnapAllPrefix(round, g, ps[..m], n);
    } else {
      assert ps[..n] == ps;
      assert SnapAll(round, g, ps).value[..n] == SnapAll(round, g, ps).value;
    }
  }

  /** What untransforming an arc position by position with its indexes gives: the first grid
      point, then the difference of each grid point from the one before. */
  function EncodeArc(round: real -> int, g: Grid, ps: seq<Pos>): Result<seq<Pos>>
  {
    var s :- SnapAll(round, g, ps);
    Ok(Delta.Deltas(s))
  }

  /** The running sums of an untransformed arc are the grid points of its positions. */
  lemma EncodeArcSums(round: real -> int, g: Grid, ps: seq<Pos>)
    requires EncodeArc(round, g, ps).Ok?
    ensures Delta.PrefixSums(EncodeArc(round, g, ps).value) == SnapAll(round, g, ps).value
  {
    Delta.SumsOfDeltas(SnapAll(round, g, ps).value);
  }

  class Untransformer {
    /** Python's round() to an integer. */
    const round: real -> int
    var x0: int
    var y0: int
    var kx: real
    var ky: real
    var dx: Ext
    var dy: Ext

    /** `__init__`: every field zero. */
    constructor (round: real -> int)
      ensures this.round == round
      ensures x0 == 0 && y0 == 0 && Current() == Grid(0.0, 0.0, Fin(0.0), Fin(0.0))
    {
      this.round := round;
      x0, y0 := 0, 0;
      kx, ky, dx, dy := 0.0, 0.0, Fin(0.0), Fin(0.0);
    }

    function Current(): Grid
      reads this
    {
      Grid(kx, ky, dx, dy)
    }

    function Previous(): Pos
      reads this
    {
      Pos(x0 as real, y0 as real)
    }

    /** `__call__`: the identity without a transform; otherwise scale and translate are taken
        from it and `func` is returned. The previous point is left as it is. */
    method Call(t: Option<Grid>) returns (f: PointFn)
      modifies this`kx, this`ky, this`dx, this`dy
      ensures f == (if t.None? then Identity else Transforming)
      ensures t.Some? ==> Current() == t.value
      ensures t.None? ==> Current() == old(Current())
    {
      if t.None? {
        return Identity;
      }
      kx, ky := t.value.kx, t.value.ky;
      dx, dy := t.value.dx, t.value.dy;
      return Transforming;
    }

    /** `func`: forget the previous point at index 0 or without an index, snap the input, and
        return its difference from the previous point, which it then becomes. A failed snap
        leaves the previous point as the reset made it. */
    method Func(input: Pos, i: Option<int>) returns (r: Result<Pos>)
      modifies this`x0, this`y0
      ensures var start := if i.None? || i == Some(0) then Origin else Pos(old(x0) as real, old(y0) as real);
              match Snap(round, Current(), input)
              case Ok(s) => r == Ok(Sub(s, start)) && Previous() == s
              case Fail(e) => r == Fail(e) && Previous() == start
    {
      if i.None? || i == Some(0) {
        x0, y0 := 0, 0;
      }
      if kx == 0.0 {
        return Fail(ZeroDivision);
      }
      if !dx.Fin? {
        return Fail(Overflow);
      }
      var x1 := round((input.x - dx.v) / kx);
      if ky == 0.0 {
        return Fail(ZeroDivision);
      }
      if !dy.Fin? {
        return Fail(Overflow);
      }
      var y1 := round((input.y - dy.v) / ky);
      r := Ok(Pos((x1 - x0) as real, (y1 - y0) as real));
      x0, y0 := x1, y1;
    }

    /** Calling what `__call__` returned. */
    method Apply(f: PointFn, input: Pos, i: Option<int>) returns (r: Result<Pos>)
      modifies this`x0, this`y0
      ensures f.Identity? ==> r == Ok(input) && x0 == old(x0) && y0 == old(y0)
      ensures f.Transforming? ==>
                var start := if i.None? || i == Some(0) then Origin else Pos(old(x0) as real, old(y0) as real);
                match Snap(round, Current(), input)
                case Ok(s) => r == Ok(Sub(s, start)) && Previous() == s
                case Fail(e) => r == Fail(e) && Previous() == start
    {
      if f.Identity? {
        return Ok(input);
      }
      r := Func(input, i);
    }
  }
}
