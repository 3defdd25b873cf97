/** bbox.py: the bounding box of a topology, computed from its arcs, decoded through its
    transform with their indexes, and from its Point and MultiPoint objects, decoded without.
    Any "bbox" the topology already has is ignored. The four bounds start at +inf / -inf and
    are never reset, so one instance accumulates over every call. */
module TopoBBox {
  import opened Base
  import opened Geo
  import opened TopoJson
  import opened PointTransform
  import Delta
  import Bounds

  /** The positions `bbox_geometry` takes in: Point and MultiPoint coordinates, collections
      recursively; everything else contributes nothing. */
  function PointsOf(t: Option<Transform>, g: Geom<seq<int>>): seq<Pos>
    decreases g
  {
    match g.kind
    case Point(p) => [DecodePoint(t, p)]
    case MultiPoint(ps) => DecodePoints(t, ps)
    case GeometryCollection(gs) => PointsOfAll(t, gs)
    case _ => []
  }

  function PointsOfAll(t: Option<Transform>, gs: seq<Geom<seq<int>>>): seq<Pos>
    decreases gs
  {
    if gs == [] then [] else PointsOfAll(t, gs[..|gs| - 1]) + PointsOf(t, gs[|gs| - 1])
  }

  function ObjectsSeen(t: Option<Transform>, objects: seq<Named<seq<int>>>): seq<Pos>
  {
    if objects == [] then []
    else ObjectsSeen(t, objects[..|objects| - 1]) + PointsOf(t, objects[|objects| - 1].geom)
  }

  /** The decoded positions of every arc, arc by arc. */
  function ArcsSeen(t: Option<Transform>, arcs: seq<seq<Pos>>): seq<Pos>
  {
    if arcs == [] then [] else ArcsSeen(t, arcs[..|arcs| - 1]) + DecodeArc(t, arcs[|arcs| - 1])
  }

  lemma ArcsSeenStep(s0: seq<Pos>, s1: seq<Pos>, s2: seq<Pos>, t: Option<Transform>, arcs: seq<seq<Pos>>, i: nat)
    requires i < |arcs| && s1 == s0 + ArcsSeen(t, arcs[..i]) && s2 == s1 + DecodeArc(t, arcs[i])
    ensures s2 == s0 + ArcsSeen(t, arcs[..i + 1])
  {
    assert arcs[..i + 1][..i] == arcs[..i];
  }

  lemma PointsOfAllStep(s0: seq<Pos>, s1: seq<Pos>, s2: seq<Pos>, t: Option<Transform>, gs: seq<Geom<seq<int>>>, i: nat)
    requires i < |gs| && s1 == s0 + PointsOfAll(t, gs[..i]) && s2 == s1 + PointsOf(t, gs[i])
    ensures s2 == s0 + PointsOfAll(t, gs[..i + 1])
  {
    assert gs[..i + 1][..i] == gs[..i];
  }

  lemma ObjectsSeenStep(s0: seq<Pos>, s1: seq<Pos>, s2: seq<Pos>, t: Option<Transform>, objects: seq<Named<seq<int>>>, i: nat)
    requires i < |objects| && s1 == s0 + ObjectsSeen(t, objects[..i]) && s2 == s1 + PointsOf(t, objects[i].geom)
    ensures s2 == s0 + ObjectsSeen(t, objects[..i + 1])
  {
    assert objects[..i + 1][..i] == objects[..i];
  }

  class BBox {
    const transform: Transformer
    var x0: Ext
    var y0: Ext
    var x1: Ext
    var y1: Ext
    /** The point function of the latest call; None before the first. */
    var t: Option<PointFn>
    /** The transform the point function applies. */
    ghost var tr: Option<Transform>
    /** Every decoded position this instance has taken in, over all calls. */
    ghost var seen: seq<Pos>

    /** The four bounds are the extent of what was seen. */
    ghost predicate Valid()
      reads this
    {
      Bounds.IsExtent(seen, x0, y0, x1, y1)
    }

    /** The point function is the one for `tr`. */
    ghost predicate Ready()
      reads this, transform
    {
      t == Some(if tr.None? then Identity else Transforming) &&
      (tr.Some? ==> Transform(transform.kx, transform.ky, transform.dx, transform.dy) == tr.value)
    }

    constructor ()
      ensures Valid() && seen == [] && t.None? && fresh(transform)
      ensures x0 == PosInf && y0 == PosInf && x1 == NegInf && y1 == NegInf
    {
      transform := new Transformer();
      x0, y0 := PosInf, PosInf;
      x1, y1 := NegInf, NegInf;
      t := None;
      seen := [];
    }

    /** The four comparisons of `bbox_point` and of the arc scan: a bound moves to p only when
        p lies strictly beyond it. */
    method Take(p: Pos)
      requires Valid()
      modifies this`x0, this`y0, this`x1, this`y1, this`seen
      ensures Valid() && seen == old(seen) + [p]
      ensures x0 == (if Lt(Fin(p.x), old(x0)) then Fin(p.x) else old(x0))
      ensures x1 == (if Lt(old(x1), Fin(p.x)) then Fin(p.x) else old(x1))
      ensures y0 == (if Lt(Fin(p.y), old(y0)) then Fin(p.y) else old(y0))
      ensures y1 == (if Lt(old(y1), Fin(p.y)) then Fin(p.y) else old(y1))
    {
      if Lt(Fin(p.x), x0) {
        x0 := Fin(p.x);
      }
      if Lt(x1, Fin(p.x)) {
        x1 := Fin(p.x);
      }
      if Lt(Fin(p.y), y0) {
        y0 := Fin(p.y);
      }
      if Lt(y1, Fin(p.y)) {
        y1 := Fin(p.y);
      }
      seen := seen + [p];
    }

    /** `bbox_point`: the point decoded without an index, then taken in. */
    method BBoxPoint(p: Pos)
      requires Valid() && Ready()
      modifies this`x0, this`y0, this`x1, this`y1, this`seen, transform`x0, transform`y0
      ensures Valid() && Ready() && seen == old(seen) + [DecodePoint(tr, p)]
    {
      var q := transform.Apply(t.value, p, None);
      Take(q);
    }

    /** `bbox_geometry`. */
    method BBoxGeometry(g: Geom<seq<int>>)
      requires Valid() && Ready()
      modifies this`x0, this`y0, this`x1, this`y1, this`seen, transform`x0, transform`y0
      ensures Valid() && Ready() && seen == old(seen) + PointsOf(tr, g)
      decreases g, 1
    {
      match g.kind
      case GeometryCollection(gs) =>
        BBoxGeometries(gs);
      case Point(p) =>
        BBoxPoint(p);
      case MultiPoint(ps) =>
        BBoxPoints(ps);
      case _ =>
    }

    /** The members of a collection, in order. */
    method BBoxGeometries(gs: seq<Geom<seq<int>>>)
      requires Valid() && Ready()
      modifies this`x0, this`y0, this`x1, this`y1, this`seen, transform`x0, transform`y0
      ensures Valid() && Ready() && seen == old(seen) + PointsOfAll(tr, gs)
      decreases gs, 0
    {
      ghost var s0 := seen;
      for i := 0 to |gs|
        invariant Valid() && Ready() && seen == s0 + PointsOfAll(tr, gs[..i])
      {
        ghost var s1 := seen;
        BBoxGeometry(gs[i]);
        PointsOfAllStep(s0, s1, seen, tr, gs, i);
      }
      assert gs[..|gs|] == gs;
    }

    /** The coordinates of a MultiPoint, in order. */
    method BBoxPoints(ps: seq<Pos>)
      requires Valid() && Ready()
      modifies this`x0, this`y0, this`x1, this`y1, this`seen, transform`x0, transform`y0
      ensures Valid() && Ready() && seen == old(seen) + DecodePoints(tr, ps)
    {
      ghost var s0 := seen;
      for i := 0 to |ps|
        invariant Valid() && Ready() && seen == s0 + DecodePoints(tr, ps[..i])
      {
        ghost var s1 := seen;
        BBoxPoint(ps[i]);
        DecodePointsStep(s0, s1, seen, tr, ps, i);
      }
      assert ps[..|ps|] == ps;
    }

    /** The inner loop of the arc scan: each position of one arc decoded with its index and
        taken in. */
    method BBoxArc(arc: seq<Pos>)
      requires Valid() && Ready()
      modifies this`x0, this`y0, this`x1, this`y1, this`seen, transform`x0, transform`y0
      ensures Valid() && Ready() && seen == old(seen) + DecodeArc(tr, arc)
    {
      ghost var s0 := seen;
      ghost var dec := DecodeArc(tr, arc);
      var i, n := 0, |arc|;
      while i < n
        invariant 0 <= i <= n
        invariant Valid() && Ready() && seen == s0 + dec[..i]
        invariant tr.Some? && i > 0 ==> Pos(transform.x0, transform.y0) == Delta.PrefixSums(arc)[i - 1]
      {
        ghost var acc := Pos(transform.x0, transform.y0);
        var p := transform.Apply(t.value, arc[i], Some(i));
        DecodeArcAt(tr, arc, i, acc, p);
        ghost var s1 := seen;
        Take(p);
        PrefixStep(s0, s1, seen, dec, i);
        i := i + 1;
      }
      assert dec[..n] == dec;
    }

    /** The arc scan of `__call__`, arc by arc. */
    method BBoxArcs(arcs: seq<seq<Pos>>)
      requires Valid() && Ready()
      modifies this`x0, this`y0, this`x1, this`y1, this`seen, transform`x0, transform`y0
      ensures Valid() && Ready() && seen == old(seen) + ArcsSeen(tr, arcs)
    {
      ghost var s0 := seen;
      for a := 0 to |arcs|
        invariant Valid() && Ready() && seen == s0 + ArcsSeen(tr, arcs[..a])
      {
        ghost var s1 := seen;
        BBoxArc(arcs[a]);
        ArcsSeenStep(s0, s1, seen, tr, arcs, a);
      }
      assert arcs[..|arcs|] == arcs;
    }

    /** `__call__`: the point function is chosen from the topology's transform, then every arc
        position and every point object is taken in; the result is the four bounds. */
    method Call(topology: Topo) returns (r: Box)
      requires Valid()
      modifies this, transform`x0, transform`y0, transform`kx, transform`ky, transform`dx, transform`dy
      ensures Valid() && tr == topology.transform && Ready()
      ensures seen == old(seen) + ArcsSeen(tr, topology.arcs) + ObjectsSeen(tr, topology.objects)
      ensures r == Box(x0, y0, x1, y1) && Proper(r)
    {
      var f := transform.Call(topology.transform);
      t, tr := Some(f), topology.transform;
      ghost var start := seen;
      BBoxArcs(topology.arcs);
      ghost var s0 := seen;
      var objects := topology.objects;
      for k := 0 to |objects|
        invariant Valid() && Ready() && seen == s0 + ObjectsSeen(tr, objects[..k])
        invariant tr == topology.transform
      {
        ghost var s1 := seen;
        BBoxGeometry(objects[k].geom);
        ObjectsSeenStep(s0, s1, seen, tr, objects, k);
      }
      assert objects[..|objects|] == objects;
      assert seen == start + ArcsSeen(tr, topology.arcs) + ObjectsSeen(tr, objects);
      r := Box(x0, y0, x1, y1);
    }
  }
}
