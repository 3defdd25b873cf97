/** feature.py: turning the objects of a topology back into GeoJSON. A line is the
    concatenation of its arcs, decoded through the topology's transform, where each arc after
    the first drops the last position gathered so far and a negative reference ~i reads arc i
    backwards; lines are padded to two positions and rings to four by repeating the first.
    The lists of positions are modelled as values. */
module Feature {
  import opened Base
  import opened Geo
  import opened TopoJson
  import opened PointTransform
  import Runs
  import Delta

  /** A decoded geometry: "type" with "coordinates", or a collection whose members are null
      when their type is unknown. */
  datatype Shape =
    | PointS(coordinates: Pos)
    | MultiPointS(points: seq<Pos>)
    | LineStringS(line: seq<Pos>)
    | MultiLineStringS(lines: seq<seq<Pos>>)
    | PolygonS(rings: seq<seq<Pos>>)
    | MultiPolygonS(polygons: seq<seq<seq<Pos>>>)
    | CollectionS(geometries: seq<Option<Shape>>)

  /** A GeoJSON Feature. An absent id or bbox is a member the dict does not have. */
  datatype FeatureOut = FeatureOut(id: Option<Json>, bbox: Option<Json>, properties: Json, geometry: Option<Shape>)

  /** What `Feature.__call__` returns. */
  datatype Output = FeatureCollection(features: seq<FeatureOut>) | Single(feature: FeatureOut)

  /** The object to convert: one named in the topology's "objects", or one given directly. */
  datatype Target = ByName(name: string) | Given(o: Geom<seq<int>>)

  // ---------------------------------------------------------------- reading arcs

  /** `arc(i, points)`: the last position gathered so far is dropped, then arc i (or arc ~i
      read backwards) follows, decoded position by position with its index. A reference past
      the arcs is Python's IndexError. */
  function ArcOf(t: Option<Transform>, arcs: seq<seq<Pos>>, i: int, points: seq<Pos>): Result<seq<Pos>>
  {
    var kept := if points == [] then [] else points[..|points| - 1];
    var idx := if i < 0 then Complement(i) else i;
    if idx >= |arcs| then Fail(IndexError)
    else
      var dec := DecodeArc(t, arcs[idx]);
      Ok(kept + if i < 0 then Reversed(dec) else dec)
  }

  /** The positions of a list of arc references, arc after arc. */
  function Joined(t: Option<Transform>, arcs: seq<seq<Pos>>, refs: seq<int>): Result<seq<Pos>>
  {
    if refs == [] then Ok([])
    else
      var front :- Joined(t, arcs, refs[..|refs| - 1]);
      ArcOf(t, arcs, refs[|refs| - 1], front)
  }

  /** `line(arcs)`: at least two positions, the first repeated if need be; no position at
      all is Python's IndexError at points[0]. */
  function LineOf(t: Option<Transform>, arcs: seq<seq<Pos>>, refs: seq<int>): Result<seq<Pos>>
  {
    var points :- Joined(t, arcs, refs);
    if |points| >= 2 then Ok(points)
    else if points == [] then Fail(IndexError)
    else Ok(points + [points[0]])
  }

  /** `ring(arcs)`: a line padded to at least four positions with its first. */
  function RingOf(t: Option<Transform>, arcs: seq<seq<Pos>>, refs: seq<int>): Result<seq<Pos>>
  {
    var points :- LineOf(t, arcs, refs);
    Ok(Runs.Pad(points, 4))
  }

  function LinesOf(t: Option<Transform>, arcs: seq<seq<Pos>>, ls: seq<seq<int>>): Result<seq<seq<Pos>>>
  {
    if ls == [] then Ok([])
    else
      var front :- LinesOf(t, arcs, ls[..|ls| - 1]);
      var last :- LineOf(t, arcs, ls[|ls| - 1]);
      Ok(front + [last])
  }

  /** `polygon(arcs)`: every ring. */
  function RingsOf(t: Option<Transform>, arcs: seq<seq<Pos>>, rs: seq<seq<int>>): Result<seq<seq<Pos>>>
  {
    if rs == [] then Ok([])
    else
      var front :- RingsOf(t, arcs, rs[..|rs| - 1]);
      var last :- RingOf(t, arcs, rs[|rs| - 1]);
      Ok(front + [last])
  }

  function PolygonsOf(t: Option<Transform>, arcs: seq<seq<Pos>>, ps: seq<seq<seq<int>>>): Result<seq<seq<seq<Pos>>>>
  {
    if ps == [] then Ok([])
    else
      var front :- PolygonsOf(t, arcs, ps[..|ps| - 1]);
      var last :- RingsOf(t, arcs, ps[|ps| - 1]);
      Ok(front + [last])
  }

  /** `geometry(o)`: the decoded shape, and nothing for a null or unknown type. */
  function GeometryOf(t: Option<Transform>, arcs: seq<seq<Pos>>, g: Geom<seq<int>>): Result<Option<Shape>>
    decreases g
  {
    match g.kind
    case NullType => Ok(None)
    case Other(_, _) => Ok(None)
    case Point(p) => Ok(Some(PointS(DecodePoint(t, p))))
    case MultiPoint(ps) => Ok(Some(MultiPointS(DecodePoints(t, ps))))
    case LineString(l) => (var r :- LineOf(t, arcs, l); Ok(Some(LineStringS(r))))
    case MultiLineString(ls) => (var r :- LinesOf(t, arcs, ls); Ok(Some(MultiLineStringS(r))))
    case Polygon(rs) => (var r :- RingsOf(t, arcs, rs); Ok(Some(PolygonS(r))))
    case MultiPolygon(ps) => (var r :- PolygonsOf(t, arcs, ps); Ok(Some(MultiPolygonS(r))))
    case GeometryCollection(gs) => (var r :- GeometriesOf(t, arcs, gs); Ok(Some(CollectionS(r))))
  }

  function GeometriesOf(t: Option<Transform>, arcs: seq<seq<Pos>>, gs: seq<Geom<seq<int>>>): Result<seq<Option<Shape>>>
    decreases gs
  {
    if gs == [] then Ok([])
    else
      var front :- GeometriesOf(t, arcs, gs[..|gs| - 1]);
      var last :- GeometryOf(t, arcs, gs[|gs| - 1]);
      Ok(front + [last])
  }

  /** A member the dict has, unless it is absent or null: `feat[k] is None` deletes it. */
  function Present(j: Option<Json>): Option<Json>
  {
    if j.Some? && j.value != JNull then j else None
  }

  /** `feature(topology, o)`: the id and bbox when present and not null, the properties or
      {} when there are none, and the decoded geometry. */
  function FeatureOf(topology: Topo, o: Geom<seq<int>>): Result<FeatureOut>
  {
    var geometry :- GeometryOf(topology.transform, topology.arcs, o);
    Ok(FeatureOut(Present(o.id), Present(o.bbox), if o.properties.Some? then o.properties.value else JDict([]), geometry))
  }

  function FeaturesOf(topology: Topo, gs: seq<Geom<seq<int>>>): Result<seq<FeatureOut>>
  {
    if gs == [] then Ok([])
    else
      var front :- FeaturesOf(topology, gs[..|gs| - 1]);
      var last :- FeatureOf(topology, gs[|gs| - 1]);
      Ok(front + [last])
  }

  /** topology["objects"][name]: the object of that name; none is Python's KeyError. */
  function ObjectNamed(objects: seq<Named<seq<int>>>, name: string): (r: Result<Geom<seq<int>>>)
    ensures r.Ok? <==> exists k :: 0 <= k < |objects| && objects[k].name == name
    ensures r.Ok? ==> exists k :: 0 <= k < |objects| && objects[k].name == name && objects[k].geom == r.value
    ensures r.Fail? ==> r.error == KeyError
  {
    if objects == [] then Fail(KeyError)
    else if objects[0].name == name then Ok(objects[0].geom)
    else
      var r := ObjectNamed(objects[1..], name);
      assert forall k :: 1 <= k < |objects| ==> objects[k] == objects[1..][k - 1];
      assert r.Ok? ==> var k :| 0 <= k < |objects[1..]| && objects[1..][k].name == name && objects[1..][k].geom == r.value;
                       objects[k + 1].name == name && objects[k + 1].geom == r.value;
      r
  }

  /** `Feature.__call__`: a collection becomes a FeatureCollection of its members, anything
      else one Feature. */
  function Features(topology: Topo, target: Target): Result<Output>
  {
    var o :- match target
      case ByName(name) => ObjectNamed(topology.objects, name)
      case Given(o) => Ok(o);
    if o.kind.GeometryCollection? then
      var fs :- FeaturesOf(topology, o.kind.geometries);
      Ok(FeatureCollection(fs))
    else
      var f :- FeatureOf(topology, o);
      Ok(Single(f))
  }

  // ---------------------------------------------------------------- properties

  /** The decoded length of the arcs a list refers to, references past the arcs counting 0. */
  function ArcLengths(arcs: seq<seq<Pos>>, refs: seq<int>): nat
  {
    if refs == [] then 0
    else
      var i := refs[|refs| - 1];
      var idx := if i < 0 then Complement(i) else i;
      ArcLengths(arcs, refs[..|refs| - 1]) + if idx < |arcs| then |arcs[idx]| else 0
  }

  /** Each arc after the first shares a position with the one before: k arcs that are all
      non-empty give their total length less k - 1 positions. */
  lemma {:induction false} JoinedLength(t: Option<Transform>, arcs: seq<seq<Pos>>, refs: seq<int>)
    requires Joined(t, arcs, refs).Ok? && refs != []
    requires forall k :: 0 <= k < |refs| ==> refs[k] < |arcs| && Complement(refs[k]) < |arcs|
    requires forall k :: 0 <= k < |refs| ==> arcs[if refs[k] < 0 then Complement(refs[k]) else refs[k]] != []
    ensures |Joined(t, arcs, refs).value| == ArcLengths(arcs, refs) - (|refs| - 1)
    ensures Joined(t, arcs, refs).value != []
  {
    var n := |refs| - 1;
    var front := refs[..n];
    assert forall k :: 0 <= k < |front| ==> front[k] == refs[k];
    if n > 0 {
      JoinedLength(t, arcs, front);
    }
  }

  /** A reference and its complement read the same arc in opposite directions. */
  lemma ArcBackward(t: Option<Transform>, arcs: seq<seq<Pos>>, i: nat, points: seq<Pos>)
    requires i < |arcs|
    ensures ArcOf(t, arcs, i, points).Ok? && ArcOf(t, arcs, Complement(i), points).Ok?
    ensures var kept := if points == [] then [] else points[..|points| - 1];
            var fwd := ArcOf(t, arcs, i, points).value;
            var bwd := ArcOf(t, arcs, Complement(i), points).value;
            |fwd| == |bwd| && fwd[..|kept|] == bwd[..|kept|] == kept &&
            bwd[|kept|..] == Reversed(fwd[|kept|..]) && Reversed(bwd[|kept|..]) == fwd[|kept|..]
  {
    var kept := if points == [] then [] else points[..|points| - 1];
    var dec := DecodeArc(t, arcs[i]);
    assert (kept + dec)[|kept|..] == dec;
    assert (kept + Reversed(dec))[|kept|..] == Reversed(dec);
    ReversedTwice(dec);
  }

  /** `line` has at least two positions: the joined ones, then copies of the first. */
  lemma LineShape(t: Option<Transform>, arcs: seq<seq<Pos>>, refs: seq<int>)
    ensures LineOf(t, arcs, refs).Ok? <==> Joined(t, arcs, refs).Ok? && Joined(t, arcs, refs).value != []
    ensures LineOf(t, arcs, refs).Fail? ==> LineOf(t, arcs, refs).error == IndexError || Joined(t, arcs, refs).Fail?
    ensures LineOf(t, arcs, refs).Ok? ==>
              var l := LineOf(t, arcs, refs).value;
              var p := Joined(t, arcs, refs).value;
              |l| >= 2 && |l| == (if |p| < 2 then 2 else |p|) && l[..|p|] == p &&
              forall k :: |p| <= k < |l| ==> l[k] == p[0]
  {
  }

  /** `ring` has at least four positions: the line, then copies of its first. */
  lemma RingShape(t: Option<Transform>, arcs: seq<seq<Pos>>, refs: seq<int>)
    ensures RingOf(t, arcs, refs).Ok? <==> LineOf(t, arcs, refs).Ok?
    ensures RingOf(t, arcs, refs).Ok? ==>
              var r := RingOf(t, arcs, refs).value;
              var l := LineOf(t, arcs, refs).value;
              |r| >= 4 && |r| == (if |l| < 4 then 4 else |l|) && r[..|l|] == l &&
              forall k :: |l| <= k < |r| ==> r[k] == l[0]
  {
    LineShape(t, arcs, refs);
  }

  /** A Feature keeps the object's id and bbox unless absent or null, its properties or {},
      and has no geometry exactly for a null or unknown type. */
  lemma FeatureMembers(topology: Topo, o: Geom<seq<int>>)
    requires FeatureOf(topology, o).Ok?
    ensures var f := FeatureOf(topology, o).value;
            && (f.id.Some? <==> o.id.Some? && o.id.value != JNull)
            && (f.id.Some? ==> f.id == o.id)
            && (f.bbox.Some? <==> o.bbox.Some? && o.bbox.value != JNull)
            && (f.bbox.Some? ==> f.bbox == o.bbox)
            && (o.properties.None? ==> f.properties == JDict([]))
            && (o.properties.Some? ==> f.properties == o.properties.value)
            && (f.geometry.None? <==> o.kind.NullType? || o.kind.Other?)
  {
  }

  /** A collection becomes one Feature per member, in order. */
  lemma {:induction false} FeaturesOfEach(topology: Topo, gs: seq<Geom<seq<int>>>)
    ensures FeaturesOf(topology, gs).Ok? <==> forall k :: 0 <= k < |gs| ==> FeatureOf(topology, gs[k]).Ok?
    ensures FeaturesOf(topology, gs).Ok? ==>
              |FeaturesOf(topology, gs).value| == |gs| &&
              forall k :: 0 <= k < |gs| ==> FeaturesOf(topology, gs).value[k] == FeatureOf(topology, gs[k]).value
  {
    if gs != [] {
      var n := |gs| - 1;
      FeaturesOfEach(topology, gs[..n]);
      assert forall k :: 0 <= k < n ==> gs[..n][k] == gs[k];
    }
  }

  // ---------------------------------------------------------------- the loops, step by step

  lemma JoinedStep(t: Option<Transform>, arcs: seq<seq<Pos>>, refs: seq<int>, k: nat, points: seq<Pos>)
    requires k < |refs| && Joined(t, arcs, refs[..k]) == Ok(points)
    ensures Joined(t, arcs, refs[..k + 1]) == ArcOf(t, arcs, refs[k], points)
  {
    assert refs[..k + 1][..k] == refs[..k];
  }

  /** Once a prefix of the references fails, the whole list fails the same way. */
  lemma {:induction false} JoinedFails(t: Option<Transform>, arcs: seq<seq<Pos>>, refs: seq<int>, k: nat)
    requires k <= |refs| && Joined(t, arcs, refs[..k]).Fail?
    ensures Joined(t, arcs, refs) == Fail(Joined(t, arcs, refs[..k]).error)
    decreases |refs|
  {
    if k < |refs| {
      var n := |refs| - 1;
      assert refs[..n][..k] == refs[..k];
      JoinedFails(t, arcs, refs[..n], k);
    } else {
      assert refs[..k] == refs;
    }
  }

  lemma LinesStep(t: Option<Transform>, arcs: seq<seq<Pos>>, ls: seq<seq<int>>, k: nat, out: seq<seq<Pos>>)
    requires k < |ls| && LinesOf(t, arcs, ls[..k]) == Ok(out)
    ensures LinesOf(t, arcs, ls[..k + 1]) == match LineOf(t, arcs, ls[k])
                                             case Ok(l) => Ok(out + [l])
                                             case Fail(e) => Fail(e)
  {
    assert ls[..k + 1][..k] == ls[..k];
  }

  lemma {:induction false} LinesFails(t: Option<Transform>, arcs: seq<seq<Pos>>, ls: seq<seq<int>>, k: nat)
    requires k <= |ls| && LinesOf(t, arcs, ls[..k]).Fail?
    ensures LinesOf(t, arcs, ls) == Fail(LinesOf(t, arcs, ls[..k]).error)
    decreases |ls|
  {
    if k < |ls| {
      var n := |ls| - 1;
      assert ls[..n][..k] == ls[..k];
      LinesFails(t, arcs, ls[..n], k);
    } else {
      assert ls[..k] == ls;
    }
  }

  lemma RingsStep(t: Option<Transform>, arcs: seq<seq<Pos>>, rs: seq<seq<int>>, k: nat, out: seq<seq<Pos>>)
    requires k < |rs| && RingsOf(t, arcs, rs[..k]) == Ok(out)
    ensures RingsOf(t, arcs, rs[..k + 1]) == match RingOf(t, arcs, rs[k])
                                             case Ok(r) => Ok(out + [r])
                                             case Fail(e) => Fail(e)
  {
    assert rs[..k + 1][..k] == rs[..k];
  }

  lemma {:induction false} RingsFails(t: Option<Transform>, arcs: seq<seq<Pos>>, rs: seq<seq<int>>, k: nat)
    requires k <= |rs| && RingsOf(t, arcs, rs[..k]).Fail?
    ensures RingsOf(t, arcs, rs) == Fail(RingsOf(t, arcs, rs[..k]).error)
    decreases |rs|
  {
    if k < |rs| {
      var n := |rs| - 1;
      assert rs[..n][..k] == rs[..k];
      RingsFails(t, arcs, rs[..n], k);
    } else {
      assert rs[..k] == rs;
    }
  }

  lemma PolygonsStep(t: Option<Transform>, arcs: seq<seq<Pos>>, ps: seq<seq<seq<int>>>, k: nat, out: seq<seq<seq<Pos>>>)
    requires k < |ps| && PolygonsOf(t, arcs, ps[..k]) == Ok(out)
    ensures PolygonsOf(t, arcs, ps[..k + 1]) == match RingsOf(t, arcs, ps[k])
                                                case Ok(r) => Ok(out + [r])
                                                case Fail(e) => Fail(e)
  {
    assert ps[..k + 1][..k] == ps[..k];
  }

  lemma {:induction false} PolygonsFails(t: Option<Transform>, arcs: seq<seq<Pos>>, ps: seq<seq<seq<int>>>, k: nat)
    requires k <= |ps| && PolygonsOf(t, arcs, ps[..k]).Fail?
    ensures PolygonsOf(t, arcs, ps) == Fail(PolygonsOf(t, arcs, ps[..k]).error)
    decreases |ps|
  {
    if k < |ps| {
      var n := |ps| - 1;
      assert ps[..n][..k] == ps[..k];
      PolygonsFails(t, arcs, ps[..n], k);
    } else {
      assert ps[..k] == ps;
    }
  }

  lemma GeometriesStep(t: Option<Transform>, arcs: seq<seq<Pos>>, gs: seq<Geom<seq<int>>>, k: nat, out: seq<Option<Shape>>)
    requires k < |gs| && GeometriesOf(t, arcs, gs[..k]) == Ok(out)
    ensures GeometriesOf(t, arcs, gs[..k + 1]) == match GeometryOf(t, arcs, gs[k])
                                                  case Ok(s) => Ok(out + [s])
                                                  case Fail(e) => Fail(e)
  {
    assert gs[..k + 1][..k] == gs[..k];
  }

  lemma {:induction false} GeometriesFails(t: Option<Transform>, arcs: seq<seq<Pos>>, gs: seq<Geom<seq<int>>>, k: nat)
    requires k <= |gs| && GeometriesOf(t, arcs, gs[..k]).Fail?
    ensures GeometriesOf(t, arcs, gs) == Fail(GeometriesOf(t, arcs, gs[..k]).error)
    decreases |gs|
  {
    if k < |gs| {
      var n := |gs| - 1;
      assert gs[..n][..k] == gs[..k];
      GeometriesFails(t, arcs, gs[..n], k);
    } else {
      assert gs[..k] == gs;
    }
  }

  lemma FeaturesStep(topology: Topo, gs: seq<Geom<seq<int>>>, k: nat, out: seq<FeatureOut>)
    requires k < |gs| && FeaturesOf(topology, gs[..k]) == Ok(out)
    ensures FeaturesOf(topology, gs[..k + 1]) == match FeatureOf(topology, gs[k])
                                                 case Ok(f) => Ok(out + [f])
                                                 case Fail(e) => Fail(e)
  {
    assert gs[..k + 1][..k] == gs[..k];
  }

  lemma {:induction false} FeaturesFails(topology: Topo, gs: seq<Geom<seq<int>>>, k: nat)
    requires k <= |gs| && FeaturesOf(topology, gs[..k]).Fail?
    ensures FeaturesOf(topology, gs) == Fail(FeaturesOf(topology, gs[..k]).error)
    decreases |gs|
  {
    if k < |gs| {
      var n := |gs| - 1;
      assert gs[..n][..k] == gs[..k];
      FeaturesFails(topology, gs[..n], k);
    } else {
      assert gs[..k] == gs;
    }
  }

  // ---------------------------------------------------------------- the objects

  /** `Reverse.__call__`: the last n positions reversed in place by swapping from both ends;
      the ones before them stay. */
  method Reverse(points: seq<Pos>, n: nat) returns (r: seq<Pos>)
    requires n <= |points|
    ensures r == points[..|points| - n] + Reversed(points[|points| - n..])
  {
    ghost var lo := |points| - n;
    ghost var hi := |points| - 1;
    r := points;
    var j: int := |r|;
    var i: int := j - n;
    j := j - 1;
    while i < j
      invariant lo <= i <= j + 1 && j <= hi && i + j == lo + hi && |r| == |points|
      invariant forall k :: 0 <= k < lo ==> r[k] == points[k]
      invariant forall k {:trigger r[k]} :: lo <= k < i ==> r[k] == points[lo + hi - k]
      invariant forall k :: i <= k <= j ==> r[k] == points[k]
      invariant forall k {:trigger r[k]} :: j < k <= hi ==> r[k] == points[lo + hi - k]
    {
      r := r[i := r[j]][j := r[i]];
      i := i + 1;
      j := j - 1;
    }
    ReversedTail(points, r, lo);
  }

  /** A list that keeps the first lo points and holds the rest backwards is the reversal of
      that tail. */
  lemma ReversedTail(points: seq<Pos>, r: seq<Pos>, lo: nat)
    requires lo <= |points| == |r|
    requires forall k :: 0 <= k < lo ==> r[k] == points[k]
    requires forall k {:trigger r[k]} :: lo <= k < |points| ==> r[k] == points[lo + |points| - 1 - k]
    ensures r == points[..lo] + Reversed(points[lo..])
  {
    var t := points[..lo] + Reversed(points[lo..]);
    forall k | 0 <= k < |r|
      ensures r[k] == t[k]
    {
      if lo <= k {
        ReversedAt(points[lo..], k - lo);
      }
    }
  }

  /** `Object`: the point function and the arcs of the topology being read. */
  class ObjectDecoder {
    const transform: Transformer
    /** The point function of the latest call; None before the first. */
    var transformPoint: Option<PointFn>
    /** The topology's arcs (None in Python before the first call). */
    var arcs: seq<seq<Pos>>
    /** The transform the point function applies. */
    ghost var tr: Option<Transform>

    ghost predicate Ready()
      reads this, transform
    {
      transformPoint == Some(if tr.None? then Identity else Transforming) &&
      (tr.Some? ==> transform.Current() == tr.value)
    }

    constructor ()
      ensures transformPoint.None? && arcs == [] && fresh(transform)
    {
      transform := new Transformer();
      transformPoint := None;
      arcs := [];
    }

    /** `arc(i, points)`. */
    method Arc(i: int, points: seq<Pos>) returns (r: Result<seq<Pos>>)
      requires Ready()
      modifies transform`x0, transform`y0
      ensures Ready() && r == ArcOf(tr, arcs, i, points)
    {
      var pts := points;
      if pts != [] {
        pts := pts[..|pts| - 1];
      }
      var idx := if i < 0 then Complement(i) else i;
      if idx >= |arcs| {
        return Fail(IndexError);
      }
      var a := arcs[idx];
      ghost var p0 := pts;
      ghost var dec := DecodeArc(tr, a);
      pts := Decoded(a, pts);
      if i < 0 {
        pts := Reverse(pts, |a|);
        assert pts[..|p0|] == p0 && pts[|p0|..] == Reversed(dec);
      }
      return Ok(pts);
    }

    /** The loop of `arc`: each position of the arc decoded with its index and appended. */
    method Decoded(a: seq<Pos>, points: seq<Pos>) returns (r: seq<Pos>)
      requires Ready()
      modifies transform`x0, transform`y0
      ensures Ready() && r == points + DecodeArc(tr, a)
    {
      ghost var dec := DecodeArc(tr, a);
      r := points;
      var k := 0;
      while k < |a|
        invariant 0 <= k <= |a| && Ready()
        invariant r == points + dec[..k]
        invariant tr.Some? && k > 0 ==> Pos(transform.x0, transform.y0) == Delta.PrefixSums(a)[k - 1]
      {
        ghost var acc := Pos(transform.x0, transform.y0);
        var p := transform.Apply(transformPoint.value, a[k], Some(k));
        DecodeArcAt(tr, a, k, acc, p);
        ghost var r0 := r;
        r := r + [p];
        PrefixStep(points, r0, r, dec, k);
        k := k + 1;
      }
      assert dec[..|a|] == dec;
    }

    /** `point(p)`: decoded without an index. */
    method Point(p: Pos) returns (q: Pos)
      requires Ready()
      modifies transform`x0, transform`y0
      ensures Ready() && q == DecodePoint(tr, p)
    {
      q := transform.Apply(transformPoint.value, p, None);
    }

    /** `line(arcs)`. */
    method Line(refs: seq<int>) returns (r: Result<seq<Pos>>)
      requires Ready()
      modifies transform`x0, transform`y0
      ensures Ready() && r == LineOf(tr, arcs, refs)
    {
      var points: seq<Pos> := [];
      for k := 0 to |refs|
        invariant Ready() && Joined(tr, arcs, refs[..k]) == Ok(points)
      {
        var next := Arc(refs[k], points);
        JoinedStep(tr, arcs, refs, k, points);
        if next.Fail? {
          JoinedFails(tr, arcs, refs, k + 1);
          return Fail(next.error);
        }
        points := next.value;
      }
      assert refs[..|refs|] == refs;
      if |points| < 2 {
        if points == [] {
          return Fail(IndexError);
        }
        points := points + [points[0]];
      }
      return Ok(points);
    }

    /** `ring(arcs)`: the line, then its first position until there are four. */
    method Ring(refs: seq<int>) returns (r: Result<seq<Pos>>)
      requires Ready()
      modifies transform`x0, transform`y0
      ensures Ready() && r == RingOf(tr, arcs, refs)
    {
      var line := Line(refs);
      if line.Fail? {
        return Fail(line.error);
      }
      var l := line.value;
      LineShape(tr, arcs, refs);
      var points := l;
      while |points| < 4
        invariant Ready() && |l| <= |points| <= (if |l| < 4 then 4 else |l|)
        invariant points[..|l|] == l && forall k :: |l| <= k < |points| ==> points[k] == l[0]
      {
        points := points + [points[0]];
      }
      var padded := Runs.Pad(l, 4);
      assert |points| == |padded|;
      forall k | 0 <= k < |points|
        ensures points[k] == padded[k]
      {
        if k < |l| {
          assert points[k] == points[..|l|][k] && padded[k] == padded[..|l|][k];
        }
      }
      assert points == padded;
      assert RingOf(tr, arcs, refs) == Ok(padded);
      return Ok(points);
    }

    /** `polygon(arcs)`: every ring, in order. */
    method Polygon(rs: seq<seq<int>>) returns (r: Result<seq<seq<Pos>>>)
      requires Ready()
      modifies transform`x0, transform`y0
      ensures Ready() && r == RingsOf(tr, arcs, rs)
    {
      var out: seq<seq<Pos>> := [];
      for k := 0 to |rs|
        invariant Ready() && RingsOf(tr, arcs, rs[..k]) == Ok(out)
      {
        var ring := Ring(rs[k]);
        RingsStep(tr, arcs, rs, k, out);
        if ring.Fail? {
          RingsFails(tr, arcs, rs, k + 1);
          return Fail(ring.error);
        }
        out := out + [ring.value];
      }
      assert rs[..|rs|] == rs;
      return Ok(out);
    }

    method Lines(ls: seq<seq<int>>) returns (r: Result<seq<seq<Pos>>>)
      requires Ready()
      modifies transform`x0, transform`y0
      ensures Ready() && r == LinesOf(tr, arcs, ls)
    {
      var out: seq<seq<Pos>> := [];
      for k := 0 to |ls|
        invariant Ready() && LinesOf(tr, arcs, ls[..k]) == Ok(out)
      {
        var line := Line(ls[k]);
        LinesStep(tr, arcs, ls, k, out);
        if line.Fail? {
          LinesFails(tr, arcs, ls, k + 1);
          return Fail(line.error);
        }
        out := out + [line.value];
      }
      assert ls[..|ls|] == ls;
      return Ok(out);
    }

    method Polygons(ps: seq<seq<seq<int>>>) returns (r: Result<seq<seq<seq<Pos>>>>)
      requires Ready()
      modifies transform`x0, transform`y0
      ensures Ready() && r == PolygonsOf(tr, arcs, ps)
    {
      var out: seq<seq<seq<Pos>>> := [];
      for k := 0 to |ps|
        invariant Ready() && PolygonsOf(tr, arcs, ps[..k]) == Ok(out)
      {
        var polygon := Polygon(ps[k]);
        PolygonsStep(tr, arcs, ps, k, out);
        if polygon.Fail? {
          PolygonsFails(tr, arcs, ps, k + 1);
          return Fail(polygon.error);
        }
        out := out + [polygon.value];
      }
      assert ps[..|ps|] == ps;
      return Ok(out);
    }

    method Points(ps: seq<Pos>) returns (r: seq<Pos>)
      requires Ready()
      modifies transform`x0, transform`y0
      ensures Ready() && r == DecodePoints(tr, ps)
    {
      r := [];
      for k := 0 to |ps|
        invariant Ready() && r == DecodePoints(tr, ps[..k])
      {
        var q := Point(ps[k]);
        ghost var r0 := r;
        r := r + [q];
        DecodePointsStep([], r0, r, tr, ps, k);
      }
      assert ps[..|ps|] == ps;
    }

    /** `geometry(o)`. */
    method Geometry(o: Geom<seq<int>>) returns (r: Result<Option<Shape>>)
      requires Ready()
      modifies transform`x0, transform`y0
      ensures Ready() && r == GeometryOf(tr, arcs, o)
      decreases o, 1
    {
      match o.kind {
        case NullType => return Ok(None);
        case Other(_, _) => return Ok(None);
        case Point(p) =>
          var q := Point(p);
          return Ok(Some(PointS(q)));
        case MultiPoint(ps) =>
          var qs := Points(ps);
          return Ok(Some(MultiPointS(qs)));
        case LineString(l) =>
          var line := Line(l);
          if line.Fail? {
            return Fail(line.error);
          }
          return Ok(Some(LineStringS(line.value)));
        case MultiLineString(ls) =>
          var lines := Lines(ls);
          if lines.Fail? {
            return Fail(lines.error);
          }
          return Ok(Some(MultiLineStringS(lines.value)));
        case Polygon(rs) =>
          var rings := Polygon(rs);
          if rings.Fail? {
            return Fail(rings.error);
          }
          return Ok(Some(PolygonS(rings.value)));
        case MultiPolygon(ps) =>
          var polygons := Polygons(ps);
          if polygons.Fail? {
            return Fail(polygons.error);
          }
          return Ok(Some(MultiPolygonS(polygons.value)));
        case GeometryCollection(gs) =>
          var geometries := Geometries(gs);
          if geometries.Fail? {
            return Fail(geometries.error);
          }
          return Ok(Some(CollectionS(geometries.value)));
      }
    }

    /** The members of a collection, in order. */
    method Geometries(gs: seq<Geom<seq<int>>>) returns (r: Result<seq<Option<Shape>>>)
      requires Ready()
      modifies transform`x0, transform`y0
      ensures Ready() && r == GeometriesOf(tr, arcs, gs)
      decreases gs, 0
    {
      var out: seq<Option<Shape>> := [];
      for k := 0 to |gs|
        invariant Ready() && GeometriesOf(tr, arcs, gs[..k]) == Ok(out)
      {
        var g := Geometry(gs[k]);
        GeometriesStep(tr, arcs, gs, k, out);
        if g.Fail? {
          GeometriesFails(tr, arcs, gs, k + 1);
          return Fail(g.error);
        }
        out := out + [g.value];
      }
      assert gs[..|gs|] == gs;
      return Ok(out);
    }

    /** `__call__`: the point function from the topology's transform, its arcs, then the
        geometry. */
    method Call(topology: Topo, o: Geom<seq<int>>) returns (r: Result<Option<Shape>>)
      modifies this, transform`x0, transform`y0, transform`kx, transform`ky, transform`dx, transform`dy
      ensures Ready() && tr == topology.transform && arcs == topology.arcs
      ensures r == GeometryOf(topology.transform, topology.arcs, o)
    {
      var f := transform.Call(topology.transform);
      transformPoint := Some(f);
      tr := topology.transform;
      arcs := topology.arcs;
      r := Geometry(o);
    }
  }

  /** `Feature`. */
  class FeatureDecoder {
    const decoder: ObjectDecoder

    constructor ()
      ensures fresh(decoder) && fresh(decoder.transform)
    {
      decoder := new ObjectDecoder();
    }

    /** `feature(topology, o)`. */
    method Feature(topology: Topo, o: Geom<seq<int>>) returns (r: Result<FeatureOut>)
      modifies decoder, decoder.transform
      ensures r == FeatureOf(topology, o)
    {
      var geometry := decoder.Call(topology, o);
      if geometry.Fail? {
        return Fail(geometry.error);
      }
      var id := if o.id.Some? && o.id.value != JNull then o.id else None;
      var bbox := if o.bbox.Some? && o.bbox.value != JNull then o.bbox else None;
      var properties := if o.properties.Some? then o.properties.value else JDict([]);
      return Ok(FeatureOut(id, bbox, properties, geometry.value));
    }

    /** `__call__`. */
    method Call(topology: Topo, target: Target) returns (r: Result<Output>)
      modifies decoder, decoder.transform
      ensures r == Features(topology, target)
    {
      var o: Geom<seq<int>>;
      match target {
        case ByName(name) =>
          var found := ObjectNamed(topology.objects, name);
          if found.Fail? {
            return Fail(found.error);
          }
          o := found.value;
        case Given(g) =>
          o := g;
      }
      if o.kind.GeometryCollection? {
        var gs := o.kind.geometries;
        var out: seq<FeatureOut> := [];
        for k := 0 to |gs|
          invariant FeaturesOf(topology, gs[..k]) == Ok(out)
        {
          var f := Feature(topology, gs[k]);
          FeaturesStep(topology, gs, k, out);
          if f.Fail? {
            FeaturesFails(topology, gs, k + 1);
            return Fail(f.error);
          }
          out := out + [f.value];
        }
        assert gs[..|gs|] == gs;
        return Ok(FeatureCollection(out));
      }
      var f := Feature(topology, o);
      if f.Fail? {
        return Fail(f.error);
      }
      return Ok(Single(f.value));
    }
  }
}
