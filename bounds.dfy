/** bounds.py: `BoundingBox`, the extent of the input coordinates before quantization. Its four
    bounds start at +inf / -inf and are never reset, so one instance accumulates over every
    call. */
module Bounds {
  import opened Base
  import opened Geo

  /** The coordinates `bound_geometry` visits, in visit order: Point and MultiPoint coordinates,
      line and ring vertices at any depth, collections recursively; null and unknown types
      contribute nothing. */
  function Visited(g: Geom<seq<Pos>>): seq<Pos>
    decreases g
  {
    match g.kind
    case Point(p) => [p]
    case MultiPoint(ps) => ps
    case LineString(l) => l
    case MultiLineString(ls) => Concat(ls)
    case Polygon(rs) => Concat(rs)
    case MultiPolygon(ps) => ConcatConcat(ps)
    case GeometryCollection(gs) => VisitedAll(gs)
    case _ => []
  }

  function VisitedAll(gs: seq<Geom<seq<Pos>>>): seq<Pos>
    decreases gs
  {
    if gs == [] then [] else Visited(gs[0]) + VisitedAll(gs[1..])
  }

  function VisitedObjects(objects: seq<Named<seq<Pos>>>): seq<Pos>
  {
    if objects == [] then [] else Visited(objects[0].geom) + VisitedObjects(objects[1..])
  }

  lemma VisitedObjectsStep(s0: seq<Pos>, s1: seq<Pos>, s2: seq<Pos>, objects: seq<Named<seq<Pos>>>, i: nat)
    requires i < |objects| && s1 == s0 + VisitedObjects(objects[..i]) && s2 == s1 + Visited(objects[i].geom)
    ensures s2 == s0 + VisitedObjects(objects[..i + 1])
  {
    VisitedObjectsSnoc(objects[..i], objects[i]);
    assert objects[..i + 1] == objects[..i] + [objects[i]];
  }

  lemma VisitedObjectsSnoc(objects: seq<Named<seq<Pos>>>, o: Named<seq<Pos>>)
    ensures VisitedObjects(objects + [o]) == VisitedObjects(objects) + Visited(o.geom)
  {
    if objects != [] {
      assert (objects + [o])[1..] == objects[1..] + [o];
    }
  }

  /** The four bounds are the extent of the positions: unbounded while there are none, and
      otherwise the least and greatest x and y, each attained by one of them. */
  ghost predicate IsExtent(ps: seq<Pos>, x0: Ext, y0: Ext, x1: Ext, y1: Ext)
  {
    if ps == [] then x0 == PosInf && y0 == PosInf && x1 == NegInf && y1 == NegInf
    else
      x0.Fin? && y0.Fin? && x1.Fin? && y1.Fin? &&
      (forall p :: p in ps ==> x0.v <= p.x <= x1.v && y0.v <= p.y <= y1.v) &&
      (exists p :: p in ps && p.x == x0.v) && (exists p :: p in ps && p.y == y0.v) &&
      (exists p :: p in ps && p.x == x1.v) && (exists p :: p in ps && p.y == y1.v)
  }

  class BoundingBox {
    var x0: Ext
    var y0: Ext
    var x1: Ext
    var y1: Ext
    /** Every coordinate this instance has bounded, over all calls. */
    ghost var seen: seq<Pos>

    ghost predicate Valid()
      reads this
    {
      IsExtent(seen, x0, y0, x1, y1)
    }

    constructor ()
      ensures Valid() && seen == []
      ensures x0 == PosInf && y0 == PosInf && x1 == NegInf && y1 == NegInf
    {
      x0, y0 := PosInf, PosInf;
      x1, y1 := NegInf, NegInf;
      seen := [];
    }

    /** `bound_point`: each bound moves only outwards, to take in p. */
    method BoundPoint(p: Pos)
      requires Valid()
      modifies this
      ensures Valid() && seen == old(seen) + [p]
      ensures x0 == MinE(p.x, old(x0)) && y0 == MinE(p.y, old(y0))
      ensures x1 == MaxE(p.x, old(x1)) && y1 == MaxE(p.y, old(y1))
      ensures Le(x0, old(x0)) && Le(y0, old(y0)) && Le(old(x1), x1) && Le(old(y1), y1)
    {
      x0 := MinE(p.x, x0);
      y0 := MinE(p.y, y0);
      x1 := MaxE(p.x, x1);
      y1 := MaxE(p.y, y1);
      seen := seen + [p];
    }

    /** `bound_line`. */
    method BoundLine(ps: seq<Pos>)
      requires Valid()
      modifies this
      ensures Valid() && seen == old(seen) + ps
    {
      ghost var s0 := seen;
      for i := 0 to |ps|
        invariant Valid() && seen == s0 + ps[..i]
      {
        ghost var s1 := seen;
        BoundPoint(ps[i]);
        PrefixStep(s0, s1, seen, ps, i);
      }
      assert ps[..|ps|] == ps;
    }

    /** `bound_multiline`, and the map over a polygon's rings. */
    method BoundMultiline(ls: seq<seq<Pos>>)
      requires Valid()
      modifies this
      ensures Valid() && seen == old(seen) + Concat(ls)
    {
      ghost var s0 := seen;
      for i := 0 to |ls|
        invariant Valid() && seen == s0 + Concat(ls[..i])
      {
        ghost var s1 := seen;
        BoundLine(ls[i]);
        ConcatStep(s0, s1, seen, ls, i);
      }
      assert ls[..|ls|] == ls;
    }

    /** The map over a MultiPolygon's polygons. */
    method BoundPolygons(ps: seq<seq<seq<Pos>>>)
      requires Valid()
      modifies this
      ensures Valid() && seen == old(seen) + ConcatConcat(ps)
    {
      ghost var s0 := seen;
      for i := 0 to |ps|
        invariant Valid() && seen == s0 + ConcatConcat(ps[..i])
      {
        ghost var s1 := seen;
        BoundMultiline(ps[i]);
        ConcatConcatStep(s0, s1, seen, ps, i);
      }
      assert ps[..|ps|] == ps;
    }

    /** `bound_geometry`: the bounds grow by the geometry's coordinates. */
    method BoundGeometry(g: Geom<seq<Pos>>)
      requires Valid()
      modifies this
      ensures Valid() && seen == old(seen) + Visited(g)
      decreases g, 1
    {
      match g.kind
      case Point(p) => BoundPoint(p);
      case MultiPoint(ps) => BoundLine(ps);
      case LineString(l) => BoundLine(l);
      case MultiLineString(ls) => BoundMultiline(ls);
      case Polygon(rs) => BoundMultiline(rs);
      case MultiPolygon(ps) => BoundPolygons(ps);
      case GeometryCollection(gs) => BoundAll(gs);
      case _ =>
    }

    method BoundAll(gs: seq<Geom<seq<Pos>>>)
      requires Valid()
      modifies this
      ensures Valid() && seen == old(seen) + VisitedAll(gs)
      decreases gs, 0
    {
      if gs != [] {
        ghost var before := seen;
        BoundGeometry(gs[0]);
        BoundAll(gs[1..]);
        assert seen == before + (Visited(gs[0]) + VisitedAll(gs[1..]));
      }
    }

    /** `__call__`: bound every object, then report [x0, y0, x1, y1], or None when the bounds
        are still unbounded (this instance has seen no coordinate at all). */
    method Call(objects: seq<Named<seq<Pos>>>) returns (r: Option<(real, real, real, real)>)
      requires Valid()
      modifies this
      ensures Valid() && seen == old(seen) + VisitedObjects(objects)
      ensures r.None? <==> seen == []
      ensures r.Some? ==> r.value == (x0.v, y0.v, x1.v, y1.v)
    {
      ghost var s0 := seen;
      for i := 0 to |objects|
        invariant Valid() && seen == s0 + VisitedObjects(objects[..i])
      {
        ghost var s1 := seen;
        BoundGeometry(objects[i].geom);
        VisitedObjectsStep(s0, s1, seen, objects, i);
      }
      assert objects[..|objects|] == objects;
      if Le(x0, x1) && Le(y0, y1) {
        r := Some((x0.v, y0.v, x1.v, y1.v));
      } else {
        r := None;
      }
    }
  }
}
