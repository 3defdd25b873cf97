/** extract.py: every line and ring of the input is copied into one shared coordinate buffer
    and replaced by an inclusive [start, end] range into it; the ranges are also listed, in
    construction order, under "lines" and "rings". */
module Extract {
  import opened Base
  import opened Geo

  /** The buffer positions a range stands for: start..end inclusive. */
  function Slice(c: seq<Pos>, r: Range): seq<Pos>
  {
    if 0 <= r.start <= r.end + 1 <= |c| then c[r.start..r.end + 1] else []
  }

  /** A range that lies in a buffer of n positions. */
  predicate Within(r: Range, n: int)
  {
    0 <= r.start <= r.end + 1 <= n
  }

  /** The positions a line or ring reference stands for. */
  function Resolve(c: seq<Pos>, lines: seq<Range>, rings: seq<Range>, a: Ref): seq<Pos>
  {
    match a
    case LineRef(k) => if k < |lines| then Slice(c, lines[k]) else []
    case RingRef(k) => if k < |rings| then Slice(c, rings[k]) else []
  }

  function ResolveAll(c: seq<Pos>, lines: seq<Range>, rings: seq<Range>, xs: seq<Ref>): (r: seq<seq<Pos>>)
    ensures |r| == |xs| && forall i :: 0 <= i < |xs| ==> r[i] == Resolve(c, lines, rings, xs[i])
  {
    seq(|xs|, i requires 0 <= i < |xs| => Resolve(c, lines, rings, xs[i]))
  }

  function ResolvePolys(c: seq<Pos>, lines: seq<Range>, rings: seq<Range>, ps: seq<seq<Ref>>): (r: seq<seq<seq<Pos>>>)
    ensures |r| == |ps| && forall i :: 0 <= i < |ps| ==> r[i] == ResolveAll(c, lines, rings, ps[i])
  {
    seq(|ps|, i requires 0 <= i < |ps| => ResolveAll(c, lines, rings, ps[i]))
  }

  /** The geometry an extracted geometry stands for: every reference read back from the buffer.
      This is the partner of `ExtractGeometry`. */
  function Restore(c: seq<Pos>, lines: seq<Range>, rings: seq<Range>, g: Geom<Ref>): Geom<seq<Pos>>
    decreases g
  {
    var kind := match g.kind
      case NullType => NullType
      case Other(t, p) => Other(t, p)
      case Point(p) => Point(p)
      case MultiPoint(ps) => MultiPoint(ps)
      case LineString(a) => LineString(Resolve(c, lines, rings, a))
      case MultiLineString(xs) => MultiLineString(ResolveAll(c, lines, rings, xs))
      case Polygon(xs) => Polygon(ResolveAll(c, lines, rings, xs))
      case MultiPolygon(ps) => MultiPolygon(ResolvePolys(c, lines, rings, ps))
      case GeometryCollection(gs) => GeometryCollection(RestoreAll(c, lines, rings, gs));
    Geom(kind, g.id, g.bbox, g.properties)
  }

  function RestoreAll(c: seq<Pos>, lines: seq<Range>, rings: seq<Range>, gs: seq<Geom<Ref>>): seq<Geom<seq<Pos>>>
    decreases gs
  {
    seq(|gs|, i requires 0 <= i < |gs| => Restore(c, lines, rings, gs[i]))
  }

  /** A reference to one of the first nl lines or nr rings. */
  predicate RefBelow(a: Ref, nl: nat, nr: nat)
  {
    match a
    case LineRef(k) => k < nl
    case RingRef(k) => k < nr
  }

  predicate AllBelow(xs: seq<Ref>, nl: nat, nr: nat)
  {
    forall i :: 0 <= i < |xs| ==> RefBelow(xs[i], nl, nr)
  }

  predicate PolysBelow(ps: seq<seq<Ref>>, nl: nat, nr: nat)
  {
    forall i :: 0 <= i < |ps| ==> AllBelow(ps[i], nl, nr)
  }

  predicate RefsBelow(g: Geom<Ref>, nl: nat, nr: nat)
    decreases g
  {
    match g.kind
    case LineString(a) => RefBelow(a, nl, nr)
    case MultiLineString(xs) => AllBelow(xs, nl, nr)
    case Polygon(xs) => AllBelow(xs, nl, nr)
    case MultiPolygon(ps) => PolysBelow(ps, nl, nr)
    case GeometryCollection(gs) => forall i :: 0 <= i < |gs| ==> RefsBelow(gs[i], nl, nr)
    case _ => true
  }

  /** The positions `extract` copies out of a geometry, in visit order: every line and ring at
      any depth; points, null and unknown types copy nothing. */
  function Flat(g: Geom<seq<Pos>>): seq<Pos>
    decreases g
  {
    match g.kind
    case LineString(l) => l
    case MultiLineString(ls) => Concat(ls)
    case Polygon(rs) => Concat(rs)
    case MultiPolygon(ps) => ConcatConcat(ps)
    case GeometryCollection(gs) => FlatAll(gs)
    case _ => []
  }

  function FlatAll(gs: seq<Geom<seq<Pos>>>): seq<Pos>
    decreases gs
  {
    if gs == [] then [] else Flat(gs[0]) + FlatAll(gs[1..])
  }

  function FlatObjects(objects: seq<Named<seq<Pos>>>): seq<Pos>
  {
    if objects == [] then [] else Flat(objects[0].geom) + FlatObjects(objects[1..])
  }

  /** The buffer after one more object: the objects' positions so far, then its own. */
  lemma FlatObjectsStep(c1: seq<Pos>, c2: seq<Pos>, objects: seq<Named<seq<Pos>>>, i: nat)
    requires i < |objects| && c1 == FlatObjects(objects[..i]) && c2 == c1 + Flat(objects[i].geom)
    ensures c2 == FlatObjects(objects[..i + 1])
  {
    FlatObjectsSnoc(objects[..i], objects[i]);
    assert objects[..i + 1] == objects[..i] + [objects[i]];
  }

  lemma FlatObjectsSnoc(objects: seq<Named<seq<Pos>>>, o: Named<seq<Pos>>)
    ensures FlatObjects(objects + [o]) == FlatObjects(objects) + Flat(o.geom)
  {
    if objects != [] {
      assert (objects + [o])[1..] == objects[1..] + [o];
    }
  }

  /** The ranges `extract` records for the lists ls when the first is copied to buffer
      position at: each list its own [start, end], one after the other. */
  function Spans(ls: seq<seq<Pos>>, at: int): seq<Range>
  {
    if ls == [] then [] else [Range(at, at + |ls[0]| - 1)] + Spans(ls[1..], at + |ls[0]|)
  }

  /** The same for the rings of a list of polygons. */
  function SpansAll(ps: seq<seq<seq<Pos>>>, at: int): seq<Range>
  {
    if ps == [] then [] else Spans(ps[0], at) + SpansAll(ps[1..], at + |Concat(ps[0])|)
  }

  /** The ranges recorded under "lines" and under "rings" for a geometry whose first position
      is copied to buffer position at, in visit order. */
  function LinesIn(g: Geom<seq<Pos>>, at: int): seq<Range>
    decreases g
  {
    match g.kind
    case LineString(l) => [Range(at, at + |l| - 1)]
    case MultiLineString(ls) => Spans(ls, at)
    case GeometryCollection(gs) => LinesInAll(gs, at)
    case _ => []
  }

  function LinesInAll(gs: seq<Geom<seq<Pos>>>, at: int): seq<Range>
    decreases gs
  {
    if gs == [] then [] else LinesIn(gs[0], at) + LinesInAll(gs[1..], at + |Flat(gs[0])|)
  }

  function RingsIn(g: Geom<seq<Pos>>, at: int): seq<Range>
    decreases g
  {
    match g.kind
    case Polygon(rs) => Spans(rs, at)
    case MultiPolygon(ps) => SpansAll(ps, at)
    case GeometryCollection(gs) => RingsInAll(gs, at)
    case _ => []
  }

  function RingsInAll(gs: seq<Geom<seq<Pos>>>, at: int): seq<Range>
    decreases gs
  {
    if gs == [] then [] else RingsIn(gs[0], at) + RingsInAll(gs[1..], at + |Flat(gs[0])|)
  }

  /** "lines" and "rings" after extracting the objects in order from an empty buffer. */
  function LinesOf(objects: seq<Named<seq<Pos>>>): seq<Range>
  {
    if objects == [] then []
    else
      var front := objects[..|objects| - 1];
      LinesOf(front) + LinesIn(objects[|objects| - 1].geom, |FlatObjects(front)|)
  }

  function RingsOf(objects: seq<Named<seq<Pos>>>): seq<Range>
  {
    if objects == [] then []
    else
      var front := objects[..|objects| - 1];
      RingsOf(front) + RingsIn(objects[|objects| - 1].geom, |FlatObjects(front)|)
  }

  /** The ranges of consecutive lists are contiguous and as long as their lists: the first
      starts at at, each one starts right after the one before, and the last ends right before
      the position after the copied lists. */
  lemma {:induction false} SpansContiguous(ls: seq<seq<Pos>>, at: int)
    ensures |Spans(ls, at)| == |ls|
    ensures forall k :: 0 <= k < |ls| ==> Spans(ls, at)[k].end - Spans(ls, at)[k].start + 1 == |ls[k]|
    ensures |ls| > 0 ==> Spans(ls, at)[0].start == at && Spans(ls, at)[|ls| - 1].end == at + |Concat(ls)| - 1
    ensures forall k :: 0 < k < |ls| ==> Spans(ls, at)[k].start == Spans(ls, at)[k - 1].end + 1
  {
    if ls != [] {
      var rest := Spans(ls[1..], at + |ls[0]|);
      SpansContiguous(ls[1..], at + |ls[0]|);
      assert Spans(ls, at) == [Range(at, at + |ls[0]| - 1)] + rest;
      assert forall k :: 0 < k < |ls| ==> Spans(ls, at)[k] == rest[k - 1];
    }
  }

  lemma {:induction false} SpansSnoc(ls: seq<seq<Pos>>, l: seq<Pos>, at: int)
    ensures Spans(ls + [l], at) == Spans(ls, at) + [Range(at + |Concat(ls)|, at + |Concat(ls)| + |l| - 1)]
  {
    if ls != [] {
      assert (ls + [l])[1..] == ls[1..] + [l];
      SpansSnoc(ls[1..], l, at + |ls[0]|);
    }
  }

  lemma {:induction false} SpansAllSnoc(ps: seq<seq<seq<Pos>>>, p: seq<seq<Pos>>, at: int)
    ensures SpansAll(ps + [p], at) == SpansAll(ps, at) + Spans(p, at + |ConcatConcat(ps)|)
  {
    if ps != [] {
      assert (ps + [p])[1..] == ps[1..] + [p];
      SpansAllSnoc(ps[1..], p, at + |Concat(ps[0])|);
    }
  }

  /** The lists after ranges were added to "rings" (toRings) or to "lines", the other left as it was. */
  predicate Added(toRings: bool, l0: seq<Range>, r0: seq<Range>, l: seq<Range>, r: seq<Range>, added: seq<Range>)
  {
    if toRings then r == r0 + added && l == l0 else l == l0 + added && r == r0
  }

  /** The ranges of a collection's first member, then those of the rest. */
  lemma InAllStep(gs: seq<Geom<seq<Pos>>>, at: int, n: int, l0: seq<Range>, l1: seq<Range>, l2: seq<Range>,
                  r0: seq<Range>, r1: seq<Range>, r2: seq<Range>)
    requires gs != [] && n == at + |Flat(gs[0])|
    requires l1 == l0 + LinesIn(gs[0], at) && l2 == l1 + LinesInAll(gs[1..], n)
    requires r1 == r0 + RingsIn(gs[0], at) && r2 == r1 + RingsInAll(gs[1..], n)
    ensures l2 == l0 + LinesInAll(gs, at) && r2 == r0 + RingsInAll(gs, at)
  {
    assert LinesInAll(gs, at) == LinesIn(gs[0], at) + LinesInAll(gs[1..], n);
    assert RingsInAll(gs, at) == RingsIn(gs[0], at) + RingsInAll(gs[1..], n);
  }

  /** One more list, polygon or object extends the recorded ranges by its own. */
  lemma SpansStep(ls: seq<seq<Pos>>, at: int, i: nat)
    requires i < |ls|
    ensures Spans(ls[..i + 1], at) == Spans(ls[..i], at) + [Range(at + |Concat(ls[..i])|, at + |Concat(ls[..i])| + |ls[i]| - 1)]
  {
    assert ls[..i + 1] == ls[..i] + [ls[i]];
    SpansSnoc(ls[..i], ls[i], at);
  }

  lemma SpansAllStep(ps: seq<seq<seq<Pos>>>, at: int, i: nat, r0: seq<Range>, r1: seq<Range>, r2: seq<Range>, n: int)
    requires i < |ps| && n == at + |ConcatConcat(ps[..i])|
    requires r1 == r0 + SpansAll(ps[..i], at) && r2 == r1 + Spans(ps[i], n)
    ensures r2 == r0 + SpansAll(ps[..i + 1], at)
  {
    assert ps[..i + 1] == ps[..i] + [ps[i]];
    SpansAllSnoc(ps[..i], ps[i], at);
  }

  /** The same for "lines" or "rings", whichever a list of lines or rings goes to. */
  lemma AddedStep(toRings: bool, l0: seq<Range>, r0: seq<Range>, l1: seq<Range>, r1: seq<Range>,
                  l2: seq<Range>, r2: seq<Range>, ls: seq<seq<Pos>>, at: int, i: nat, n: int)
    requires i < |ls| && n == at + |Concat(ls[..i])|
    requires Added(toRings, l0, r0, l1, r1, Spans(ls[..i], at))
    requires Added(toRings, l1, r1, l2, r2, [Range(n, n + |ls[i]| - 1)])
    ensures Added(toRings, l0, r0, l2, r2, Spans(ls[..i + 1], at))
  {
    SpansStep(ls, at, i);
  }

  lemma OfStep(objects: seq<Named<seq<Pos>>>, i: nat)
    requires i < |objects|
    ensures LinesOf(objects[..i + 1]) == LinesOf(objects[..i]) + LinesIn(objects[i].geom, |FlatObjects(objects[..i])|)
    ensures RingsOf(objects[..i + 1]) == RingsOf(objects[..i]) + RingsIn(objects[i].geom, |FlatObjects(objects[..i])|)
  {
    assert objects[..i + 1][..i] == objects[..i];
  }

  /** A list of references that reads back the first i lines, with one more reference that
      reads back line i, reads back the first i + 1; the same for polygons. */
  lemma ArcsReadBack(c: seq<Pos>, lines: seq<Range>, rings: seq<Range>, out: seq<Ref>, a: Ref, ls: seq<seq<Pos>>, i: nat)
    requires i < |ls| && ResolveAll(c, lines, rings, out) == ls[..i] && Resolve(c, lines, rings, a) == ls[i]
    ensures ResolveAll(c, lines, rings, out + [a]) == ls[..i + 1]
  {
    assert ResolveAll(c, lines, rings, out + [a]) == ResolveAll(c, lines, rings, out) + [ls[i]];
    assert ls[..i + 1] == ls[..i] + [ls[i]];
  }

  lemma PolysReadBack(c: seq<Pos>, lines: seq<Range>, rings: seq<Range>, out: seq<seq<Ref>>, refs: seq<Ref>,
                      ps: seq<seq<seq<Pos>>>, i: nat)
    requires i < |ps| && ResolvePolys(c, lines, rings, out) == ps[..i] && ResolveAll(c, lines, rings, refs) == ps[i]
    ensures ResolvePolys(c, lines, rings, out + [refs]) == ps[..i + 1]
  {
    assert ResolvePolys(c, lines, rings, out + [refs]) == ResolvePolys(c, lines, rings, out) + [ps[i]];
    assert ps[..i + 1] == ps[..i] + [ps[i]];
  }

  /** The tables of one extraction: the buffer and the ranges in it. */
  ghost predicate Tables(c: seq<Pos>, lines: seq<Range>, rings: seq<Range>)
  {
    (forall t :: 0 <= t < |lines| ==> Within(lines[t], |c|)) &&
    (forall t :: 0 <= t < |rings| ==> Within(rings[t], |c|))
  }

  /** Appending to the buffer and to the range lists leaves every earlier reference reading
      the same positions. */
  lemma ResolveGrows(c: seq<Pos>, lines: seq<Range>, rings: seq<Range>,
                     c': seq<Pos>, lines': seq<Range>, rings': seq<Range>, a: Ref)
    requires c <= c' && lines <= lines' && rings <= rings' && Tables(c, lines, rings)
    requires RefBelow(a, |lines|, |rings|)
    ensures Resolve(c', lines', rings', a) == Resolve(c, lines, rings, a)
    ensures RefBelow(a, |lines'|, |rings'|)
  {
    var r := if a.LineRef? then lines[a.k] else rings[a.k];
    assert Within(r, |c|);
    assert c'[r.start..r.end + 1] == c[r.start..r.end + 1];
  }

  lemma ResolveAllGrows(c: seq<Pos>, lines: seq<Range>, rings: seq<Range>,
                        c': seq<Pos>, lines': seq<Range>, rings': seq<Range>, xs: seq<Ref>)
    requires c <= c' && lines <= lines' && rings <= rings' && Tables(c, lines, rings)
    requires AllBelow(xs, |lines|, |rings|)
    ensures ResolveAll(c', lines', rings', xs) == ResolveAll(c, lines, rings, xs)
    ensures AllBelow(xs, |lines'|, |rings'|)
  {
    forall i | 0 <= i < |xs| ensures Resolve(c', lines', rings', xs[i]) == Resolve(c, lines, rings, xs[i]) {
      ResolveGrows(c, lines, rings, c', lines', rings', xs[i]);
    }
  }

  lemma ResolvePolysGrows(c: seq<Pos>, lines: seq<Range>, rings: seq<Range>,
                          c': seq<Pos>, lines': seq<Range>, rings': seq<Range>, ps: seq<seq<Ref>>)
    requires c <= c' && lines <= lines' && rings <= rings' && Tables(c, lines, rings)
    requires PolysBelow(ps, |lines|, |rings|)
    ensures ResolvePolys(c', lines', rings', ps) == ResolvePolys(c, lines, rings, ps)
    ensures PolysBelow(ps, |lines'|, |rings'|)
  {
    forall i | 0 <= i < |ps|
      ensures ResolveAll(c', lines', rings', ps[i]) == ResolveAll(c, lines, rings, ps[i])
      ensures AllBelow(ps[i], |lines'|, |rings'|)
    {
      ResolveAllGrows(c, lines, rings, c', lines', rings', ps[i]);
    }
  }

  lemma {:induction false} RestoreGrows(c: seq<Pos>, lines: seq<Range>, rings: seq<Range>,
                                        c': seq<Pos>, lines': seq<Range>, rings': seq<Range>, g: Geom<Ref>)
    requires c <= c' && lines <= lines' && rings <= rings' && Tables(c, lines, rings)
    requires RefsBelow(g, |lines|, |rings|)
    ensures Restore(c', lines', rings', g) == Restore(c, lines, rings, g)
    ensures RefsBelow(g, |lines'|, |rings'|)
    decreases g
  {
    match g.kind
    case LineString(a) => ResolveGrows(c, lines, rings, c', lines', rings', a);
    case MultiLineString(xs) => ResolveAllGrows(c, lines, rings, c', lines', rings', xs);
    case Polygon(xs) => ResolveAllGrows(c, lines, rings, c', lines', rings', xs);
    case MultiPolygon(ps) => ResolvePolysGrows(c, lines, rings, c', lines', rings', ps);
    case GeometryCollection(gs) =>
      forall i | 0 <= i < |gs|
        ensures Restore(c', lines', rings', gs[i]) == Restore(c, lines, rings, gs[i])
        ensures RefsBelow(gs[i], |lines'|, |rings'|)
      {
        RestoreGrows(c, lines, rings, c', lines', rings', gs[i]);
      }
      assert RestoreAll(c', lines', rings', gs) == RestoreAll(c, lines, rings, gs);
    case _ =>
  }

  /** A collection's first member read back before the rest was extracted, and the rest read
      back after: all of them read back at the end. */
  lemma RestoreCons(c: seq<Pos>, lines: seq<Range>, rings: seq<Range>,
                    c': seq<Pos>, lines': seq<Range>, rings': seq<Range>,
                    first: Geom<Ref>, rest: seq<Geom<Ref>>, gs: seq<Geom<seq<Pos>>>)
    requires c <= c' && lines <= lines' && rings <= rings' && Tables(c, lines, rings)
    requires gs != [] && |rest| == |gs| - 1
    requires RefsBelow(first, |lines|, |rings|) && Restore(c, lines, rings, first) == gs[0]
    requires forall t :: 0 <= t < |rest| ==> RefsBelow(rest[t], |lines'|, |rings'|)
    requires forall t :: 0 <= t < |rest| ==> Restore(c', lines', rings', rest[t]) == gs[1..][t]
    ensures forall t :: 0 <= t < |gs| ==> RefsBelow(([first] + rest)[t], |lines'|, |rings'|)
    ensures forall t :: 0 <= t < |gs| ==> Restore(c', lines', rings', ([first] + rest)[t]) == gs[t]
  {
    RestoreGrows(c, lines, rings, c', lines', rings', first);
  }

  class Extract {
    var index: int
    var coordinates: seq<Pos>
    var lines: seq<Range>
    var rings: seq<Range>

    ghost predicate Valid()
      reads this
    {
      index == |coordinates| && Tables(coordinates, lines, rings)
    }

    constructor ()
      ensures Valid() && coordinates == [] && lines == [] && rings == []
    {
      index := 0;
      coordinates := [];
      lines := [];
      rings := [];
    }

    /** `extract`: copy the positions to the end of the buffer and record the range
        [index - n, index - 1] on "rings" or "lines". */
    method ExtractArc(geometry: seq<Pos>, toRings: bool) returns (arc: Range)
      requires Valid()
      modifies this
      ensures Valid()
      ensures coordinates == old(coordinates) + geometry
      ensures arc == Range(old(index), index - 1) && Slice(coordinates, arc) == geometry
      ensures Added(toRings, old(lines), old(rings), lines, rings, [arc])
    {
      var i := 0;
      var n := |geometry|;
      while i < n
        invariant 0 <= i <= n && index == |coordinates|
        invariant coordinates == old(coordinates) + geometry[..i]
        invariant lines == old(lines) && rings == old(rings)
      {
        coordinates := coordinates + [geometry[i]];
        index := index + 1;
        i := i + 1;
        assert geometry[..i] == geometry[..i - 1] + [geometry[i - 1]];
      }
      assert geometry[..n] == geometry;
      arc := Range(index - n, index - 1);
      assert coordinates[arc.start..arc.end + 1] == geometry;
      if toRings {
        rings := rings + [arc];
      } else {
        lines := lines + [arc];
      }
    }

    /** `list(map(self.extract_line, ...))` and `list(map(self.extract_ring, ...))`. */
    method ExtractArcs(ls: seq<seq<Pos>>, toRings: bool) returns (out: seq<Ref>)
      requires Valid()
      modifies this
      ensures Valid()
      ensures coordinates == old(coordinates) + Concat(ls)
      ensures old(lines) <= lines && old(rings) <= rings
      ensures Added(toRings, old(lines), old(rings), lines, rings, Spans(ls, |old(coordinates)|))
      ensures AllBelow(out, |lines|, |rings|)
      ensures ResolveAll(coordinates, lines, rings, out) == ls
    {
      out := [];
      ghost var c0 := coordinates;
      for i := 0 to |ls|
        invariant Valid()
        invariant coordinates == c0 + Concat(ls[..i])
        invariant old(lines) <= lines && old(rings) <= rings
        invariant Added(toRings, old(lines), old(rings), lines, rings, Spans(ls[..i], |c0|))
        invariant AllBelow(out, |lines|, |rings|)
        invariant ResolveAll(coordinates, lines, rings, out) == ls[..i]
      {
        ghost var (c1, l1, r1) := (coordinates, lines, rings);
        out := AppendArc(c0, ls, i, toRings, out);
        AddedStep(toRings, old(lines), old(rings), l1, r1, lines, rings, ls, |c0|, i, |c1|);
      }
      assert ls[..|ls|] == ls;
    }

    /** One turn of that map: extract line or ring i and add its reference to the list made so
        far, whose references keep reading what they read. */
    method AppendArc(ghost c0: seq<Pos>, ls: seq<seq<Pos>>, i: nat, toRings: bool, out: seq<Ref>) returns (out': seq<Ref>)
      requires Valid() && i < |ls| && AllBelow(out, |lines|, |rings|)
      requires coordinates == c0 + Concat(ls[..i]) && ResolveAll(coordinates, lines, rings, out) == ls[..i]
      modifies this
      ensures Valid()
      ensures coordinates == c0 + Concat(ls[..i + 1])
      ensures old(lines) <= lines && old(rings) <= rings
      ensures Added(toRings, old(lines), old(rings), lines, rings, [Range(|old(coordinates)|, |old(coordinates)| + |ls[i]| - 1)])
      ensures AllBelow(out', |lines|, |rings|)
      ensures ResolveAll(coordinates, lines, rings, out') == ls[..i + 1]
    {
      ghost var (c1, l1, r1) := (coordinates, lines, rings);
      var arc := ExtractArc(ls[i], toRings);
      assert arc == Range(|c1|, |c1| + |ls[i]| - 1);
      ConcatStep(c0, c1, coordinates, ls, i);
      var a := if toRings then RingRef(|rings| - 1) else LineRef(|lines| - 1);
      assert Resolve(coordinates, lines, rings, a) == ls[i];
      ResolveAllGrows(c1, l1, r1, coordinates, lines, rings, out);
      ArcsReadBack(coordinates, lines, rings, out, a, ls, i);
      out' := out + [a];
    }

    /** `list(map(self.extract_multi_ring, ...))`: each polygon's rings, in order. */
    method ExtractPolygons(ps: seq<seq<seq<Pos>>>) returns (out: seq<seq<Ref>>)
      requires Valid()
      modifies this
      ensures Valid()
      ensures coordinates == old(coordinates) + ConcatConcat(ps)
      ensures old(lines) <= lines && old(rings) <= rings
      ensures rings == old(rings) + SpansAll(ps, |old(coordinates)|) && lines == old(lines)
      ensures PolysBelow(out, |lines|, |rings|)
      ensures ResolvePolys(coordinates, lines, rings, out) == ps
    {
      out := [];
      ghost var c0 := coordinates;
      for i := 0 to |ps|
        invariant Valid()
        invariant coordinates == c0 + ConcatConcat(ps[..i])
        invariant old(lines) <= lines && old(rings) <= rings
        invariant rings == old(rings) + SpansAll(ps[..i], |c0|) && lines == old(lines)
        invariant PolysBelow(out, |lines|, |rings|)
        invariant ResolvePolys(coordinates, lines, rings, out) == ps[..i]
      {
        ghost var (c1, r1) := (coordinates, rings);
        out := AppendPolygon(c0, ps, i, out);
        SpansAllStep(ps, |c0|, i, old(rings), r1, rings, |c1|);
      }
      assert ps[..|ps|] == ps;
    }

    /** One turn of that map. */
    method AppendPolygon(ghost c0: seq<Pos>, ps: seq<seq<seq<Pos>>>, i: nat, out: seq<seq<Ref>>) returns (out': seq<seq<Ref>>)
      requires Valid() && i < |ps| && PolysBelow(out, |lines|, |rings|)
      requires coordinates == c0 + ConcatConcat(ps[..i]) && ResolvePolys(coordinates, lines, rings, out) == ps[..i]
      modifies this
      ensures Valid()
      ensures coordinates == c0 + ConcatConcat(ps[..i + 1])
      ensures old(lines) <= lines && old(rings) <= rings
      ensures rings == old(rings) + Spans(ps[i], |old(coordinates)|) && lines == old(lines)
      ensures PolysBelow(out', |lines|, |rings|)
      ensures ResolvePolys(coordinates, lines, rings, out') == ps[..i + 1]
    {
      ghost var (c1, l1, r1) := (coordinates, lines, rings);
      var refs := ExtractArcs(ps[i], true);
      ConcatConcatStep(c0, c1, coordinates, ps, i);
      ResolvePolysGrows(c1, l1, r1, coordinates, lines, rings, out);
      PolysReadBack(coordinates, lines, rings, out, refs, ps, i);
      out' := out + [refs];
    }

    /** `extract_geometry`: lines and rings at any depth become references, the rest stays. */
    method ExtractGeometry(g: Geom<seq<Pos>>) returns (r: Geom<Ref>)
      requires Valid()
      modifies this
      ensures Valid()
      ensures coordinates == old(coordinates) + Flat(g)
      ensures old(lines) <= lines && old(rings) <= rings
      ensures lines == old(lines) + LinesIn(g, |old(coordinates)|)
      ensures rings == old(rings) + RingsIn(g, |old(coordinates)|)
      ensures RefsBelow(r, |lines|, |rings|)
      ensures Restore(coordinates, lines, rings, r) == g
      decreases g, 1
    {
      ghost var at := |coordinates|;
      match g.kind
      case LineString(l) =>
        var arc := ExtractArc(l, false);
        r := Geom(LineString(LineRef(|lines| - 1)), g.id, g.bbox, g.properties);
        assert Flat(g) == l && LinesIn(g, at) == [arc] && RingsIn(g, at) == [];
      case MultiLineString(ls) =>
        var out := ExtractArcs(ls, false);
        r := Geom(MultiLineString(out), g.id, g.bbox, g.properties);
        assert Flat(g) == Concat(ls) && LinesIn(g, at) == Spans(ls, at) && RingsIn(g, at) == [];
      case Polygon(rs) =>
        var out := ExtractArcs(rs, true);
        r := Geom(Polygon(out), g.id, g.bbox, g.properties);
        assert Flat(g) == Concat(rs) && LinesIn(g, at) == [] && RingsIn(g, at) == Spans(rs, at);
      case MultiPolygon(ps) =>
        var out := ExtractPolygons(ps);
        r := Geom(MultiPolygon(out), g.id, g.bbox, g.properties);
        assert Flat(g) == ConcatConcat(ps) && LinesIn(g, at) == [] && RingsIn(g, at) == SpansAll(ps, at);
      case GeometryCollection(gs) =>
        var out := ExtractAll(gs);
        r := Geom(GeometryCollection(out), g.id, g.bbox, g.properties);
        assert Flat(g) == FlatAll(gs) && LinesIn(g, at) == LinesInAll(gs, at) && RingsIn(g, at) == RingsInAll(gs, at);
        assert RestoreAll(coordinates, lines, rings, out) == gs;
      case Point(p) =>
        r := Geom(Point(p), g.id, g.bbox, g.properties);
      case MultiPoint(ps) =>
        r := Geom(MultiPoint(ps), g.id, g.bbox, g.properties);
      case NullType =>
        r := Geom(NullType, g.id, g.bbox, g.properties);
      case Other(t, c) =>
        r := Geom(Other(t, c), g.id, g.bbox, g.properties);
    }

    /** The members of a GeometryCollection, in order. */
    method ExtractAll(gs: seq<Geom<seq<Pos>>>) returns (out: seq<Geom<Ref>>)
      requires Valid()
      modifies this
      ensures Valid()
      ensures coordinates == old(coordinates) + FlatAll(gs)
      ensures old(lines) <= lines && old(rings) <= rings
      ensures lines == old(lines) + LinesInAll(gs, |old(coordinates)|)
      ensures rings == old(rings) + RingsInAll(gs, |old(coordinates)|)
      ensures |out| == |gs|
      ensures forall t :: 0 <= t < |gs| ==> RefsBelow(out[t], |lines|, |rings|)
      ensures forall t :: 0 <= t < |gs| ==> Restore(coordinates, lines, rings, out[t]) == gs[t]
      decreases gs, 0
    {
      if gs == [] {
        return [];
      }
      ghost var before := coordinates;
      var first := ExtractGeometry(gs[0]);
      ghost var (c0, l0, r0) := (coordinates, lines, rings);
      var rest := ExtractAll(gs[1..]);
      out := [first] + rest;
      RestoreCons(c0, l0, r0, coordinates, lines, rings, first, rest, gs);
      assert coordinates == before + (Flat(gs[0]) + FlatAll(gs[1..]));
      InAllStep(gs, |before|, |c0|, old(lines), l0, lines, old(rings), r0, rings);
    }

    /** `__call__`: a fresh buffer and fresh range lists, every object extracted in order; the
        result is the buffer, the two lists and the rewritten objects. */
    method Call(objects: seq<Named<seq<Pos>>>) returns (out: seq<Named<Ref>>)
      modifies this
      ensures Valid()
      ensures coordinates == FlatObjects(objects)
      ensures lines == LinesOf(objects) && rings == RingsOf(objects)
      ensures |out| == |objects|
      ensures forall t :: 0 <= t < |objects| ==> out[t].name == objects[t].name
      ensures forall t :: 0 <= t < |objects| ==> RefsBelow(out[t].geom, |lines|, |rings|)
      ensures forall t :: 0 <= t < |objects| ==> Restore(coordinates, lines, rings, out[t].geom) == objects[t].geom
    {
      index := 0;
      lines := [];
      rings := [];
      coordinates := [];
      out := [];
      for i := 0 to |objects|
        invariant Valid()
        invariant coordinates == FlatObjects(objects[..i])
        invariant lines == LinesOf(objects[..i]) && rings == RingsOf(objects[..i])
        invariant |out| == i
        invariant forall t :: 0 <= t < i ==> out[t].name == objects[t].name
        invariant forall t :: 0 <= t < i ==> RefsBelow(out[t].geom, |lines|, |rings|)
        invariant forall t :: 0 <= t < i ==> Restore(coordinates, lines, rings, out[t].geom) == objects[t].geom
      {
        out := AppendObject(objects, i, out);
        OfStep(objects, i);
      }
      assert objects[..|objects|] == objects;
    }

    /** One turn of the loop of `__call__`: extract object i's geometry and add it under its
        name; the objects made so far keep reading what they read. */
    method AppendObject(objects: seq<Named<seq<Pos>>>, i: nat, out: seq<Named<Ref>>) returns (out': seq<Named<Ref>>)
      requires Valid() && i < |objects| && |out| == i && coordinates == FlatObjects(objects[..i])
      requires forall t :: 0 <= t < i ==> RefsBelow(out[t].geom, |lines|, |rings|)
      requires forall t :: 0 <= t < i ==> Restore(coordinates, lines, rings, out[t].geom) == objects[t].geom
      modifies this
      ensures Valid()
      ensures coordinates == FlatObjects(objects[..i + 1])
      ensures lines == old(lines) + LinesIn(objects[i].geom, |old(coordinates)|)
      ensures rings == old(rings) + RingsIn(objects[i].geom, |old(coordinates)|)
      ensures |out'| == i + 1 && out'[..i] == out && out'[i].name == objects[i].name
      ensures forall t :: 0 <= t < i + 1 ==> RefsBelow(out'[t].geom, |lines|, |rings|)
      ensures forall t :: 0 <= t < i + 1 ==> Restore(coordinates, lines, rings, out'[t].geom) == objects[t].geom
    {
      ghost var (c1, l1, r1) := (coordinates, lines, rings);
      var g := ExtractGeometry(objects[i].geom);
      FlatObjectsStep(c1, coordinates, objects, i);
      forall t | 0 <= t < i
        ensures RefsBelow(out[t].geom, |lines|, |rings|)
        ensures Restore(coordinates, lines, rings, out[t].geom) == objects[t].geom
      {
        RestoreGrows(c1, l1, r1, coordinates, lines, rings, out[t].geom);
      }
      out' := out + [Named(objects[i].name, g)];
    }
  }
}
