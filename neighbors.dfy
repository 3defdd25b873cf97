/** neighbors.py: which objects of a topology share an arc. Every arc reference of every object
    is recorded under the arc it names, object by object; then for each arc, every pair of the
    objects recorded under it is inserted into each other's neighbour list, kept sorted and
    without duplicates by a lower-bound search. An object that names one arc twice is recorded
    twice under it, and so becomes its own neighbour (`SelfNeighbor`). */
module Neighbors {
  import opened Base
  import opened Geo
  import Bisect

  /** `indexes_by_arc`: a dict from arc to the objects that reference it, in insertion order. */
  type Index = seq<(nat, seq<nat>)>

  /** The position of an arc in the index. */
  function Find(index: Index, a: nat): (r: Option<nat>)
    ensures r.Some? ==> r.value < |index| && index[r.value].0 == a
    ensures r.None? ==> forall e :: 0 <= e < |index| ==> index[e].0 != a
  {
    if index == [] then None
    else if index[|index| - 1].0 == a then Some(|index| - 1)
    else Find(index[..|index| - 1], a)
  }

  /** `line(arcs, i)` for one reference: object i appended under arc a, or a new entry. */
  function Record(index: Index, v: (nat, nat)): Index
  {
    match Find(index, v.1)
    case Some(e) => index[e := (v.1, index[e].1 + [v.0])]
    case None => index + [(v.1, [v.0])]
  }

  /** The index after recording each (object, arc) visit in turn. */
  function RecordAll(index: Index, vs: seq<(nat, nat)>): Index
  {
    if vs == [] then index else Record(RecordAll(index, vs[..|vs| - 1]), vs[|vs| - 1])
  }

  function Flat(ls: seq<seq<int>>): seq<int>
  {
    if ls == [] then [] else Flat(ls[..|ls| - 1]) + ls[|ls| - 1]
  }

  function FlatFlat(ps: seq<seq<seq<int>>>): seq<int>
  {
    if ps == [] then [] else FlatFlat(ps[..|ps| - 1]) + Flat(ps[|ps| - 1])
  }

  /** The arc references `geometry(o, i)` visits, in order: a LineString's list, every list of a
      MultiLineString or Polygon, every list of every polygon of a MultiPolygon, the members of a
      collection; nothing for any other type. */
  function Refs(g: Geom<seq<int>>): seq<int>
    decreases g
  {
    match g.kind
    case LineString(l) => l
    case MultiLineString(ls) => Flat(ls)
    case Polygon(rs) => Flat(rs)
    case MultiPolygon(ps) => FlatFlat(ps)
    case GeometryCollection(gs) => RefsAll(gs)
    case _ => []
  }

  function RefsAll(gs: seq<Geom<seq<int>>>): seq<int>
    decreases gs
  {
    if gs == [] then [] else RefsAll(gs[..|gs| - 1]) + Refs(gs[|gs| - 1])
  }

  /** The visits of object i: one (i, arc) per reference. */
  function VisitsOf(i: nat, refs: seq<int>): (r: seq<(nat, nat)>)
    ensures |r| == |refs| && forall k :: 0 <= k < |refs| ==> r[k] == (i, ArcIndex(refs[k]))
  {
    seq(|refs|, k requires 0 <= k < |refs| => (i, ArcIndex(refs[k])))
  }

  /** Every visit of the first n objects, object by object. */
  function Visits(objects: seq<Geom<seq<int>>>, n: nat): seq<(nat, nat)>
    requires n <= |objects|
  {
    if n == 0 then [] else Visits(objects, n - 1) + VisitsOf(n - 1, Refs(objects[n - 1]))
  }

  /** The objects visited at arc a, in visit order and with repetitions. */
  function Owners(vs: seq<(nat, nat)>, a: nat): seq<nat>
  {
    if vs == [] then []
    else Owners(vs[..|vs| - 1], a) + if vs[|vs| - 1].1 == a then [vs[|vs| - 1].0] else []
  }

  /** What the index says: its arcs are distinct, they are exactly the arcs visited, and each
      lists the objects visited there. */
  ghost predicate Describes(index: Index, vs: seq<(nat, nat)>)
  {
    && (forall e, f :: 0 <= e < f < |index| ==> index[e].0 != index[f].0)
    && (forall e :: 0 <= e < |index| ==> index[e].1 == Owners(vs, index[e].0))
    && (forall v :: v in vs ==> Find(index, v.1).Some?)
  }

  lemma OwnersMember(vs: seq<(nat, nat)>, a: nat, i: nat)
    ensures i in Owners(vs, a) <==> (i, a) in vs
  {
    if vs != [] {
      OwnersMember(vs[..|vs| - 1], a, i);
      assert vs == vs[..|vs| - 1] + [vs[|vs| - 1]];
    }
  }

  lemma OwnersNone(vs: seq<(nat, nat)>, a: nat)
    requires forall v :: v in vs ==> v.1 != a
    ensures Owners(vs, a) == []
  {
    if Owners(vs, a) != [] {
      OwnersMember(vs, a, Owners(vs, a)[0]);
    }
  }

  lemma {:induction false} RecordAllDescribes(vs: seq<(nat, nat)>)
    ensures Describes(RecordAll([], vs), vs)
  {
    if vs != [] {
      var front := vs[..|vs| - 1];
      var v := vs[|vs| - 1];
      var index := RecordAll([], front);
      RecordAllDescribes(front);
      assert vs == front + [v];
      var r := Record(index, v);
      assert forall a :: Owners(vs, a) == Owners(front, a) + if v.1 == a then [v.0] else [];
      forall e | 0 <= e < |r|
        ensures r[e].1 == Owners(vs, r[e].0)
      {
        if e == |index| {
          OwnersNone(front, v.1);
        }
      }
      forall w | w in vs
        ensures Find(r, w.1).Some?
      {
        if w != v {
          assert w in front;
          var e := Find(index, w.1).value;
          assert r[e].0 == w.1;
        } else {
          var e := if Find(index, v.1).Some? then Find(index, v.1).value else |index|;
          assert r[e].0 == v.1;
        }
      }
    }
  }

  /** The visits recorded under an arc of the index are exactly the objects that reference it. */
  lemma IndexMembers(objects: seq<Geom<seq<int>>>, e: nat, i: nat)
    requires e < |RecordAll([], Visits(objects, |objects|))|
    ensures var entry := RecordAll([], Visits(objects, |objects|))[e];
            i in entry.1 <==> i < |objects| && exists k :: 0 <= k < |Refs(objects[i])| && ArcIndex(Refs(objects[i])[k]) == entry.0
  {
    var vs := Visits(objects, |objects|);
    RecordAllDescribes(vs);
    var entry := RecordAll([], vs)[e];
    OwnersMember(vs, entry.0, i);
    VisitsMember(objects, |objects|, i, entry.0);
  }

  lemma {:induction false} VisitsMember(objects: seq<Geom<seq<int>>>, n: nat, i: nat, a: nat)
    requires n <= |objects|
    ensures (i, a) in Visits(objects, n) <==> i < n && exists k :: 0 <= k < |Refs(objects[i])| && ArcIndex(Refs(objects[i])[k]) == a
  {
    if n > 0 {
      VisitsMember(objects, n - 1, i, a);
      var last := VisitsOf(n - 1, Refs(objects[n - 1]));
      if (i, a) in last {
        var k :| 0 <= k < |last| && last[k] == (i, a);
        assert ArcIndex(Refs(objects[i])[k]) == a;
      }
    }
  }

  /** Every object index in the visits is below n. */
  lemma {:induction false} VisitsBounded(objects: seq<Geom<seq<int>>>, n: nat)
    requires n <= |objects|
    ensures forall v :: v in Visits(objects, n) ==> v.0 < n
  {
    if n > 0 {
      VisitsBounded(objects, n - 1);
    }
  }

  // ---------------------------------------------------------------- pairs

  /** The pairs (l[j], l[k]) for k > j, in the order the inner loop takes them. */
  function Fan(l: seq<nat>, j: nat): (r: seq<(nat, nat)>)
    requires j < |l|
    ensures |r| == |l| - j - 1 && forall m :: 0 <= m < |r| ==> r[m] == (l[j], l[j + 1 + m])
  {
    seq(|l| - j - 1, m requires 0 <= m < |l| - j - 1 => (l[j], l[j + 1 + m]))
  }

  /** The pairs of the first j rounds of the outer loop. */
  function PairsUpTo(l: seq<nat>, j: nat): seq<(nat, nat)>
    requires j <= |l|
  {
    if j == 0 then [] else PairsUpTo(l, j - 1) + Fan(l, j - 1)
  }

  /** Every pair of the index, entry by entry. */
  function AllPairs(index: Index): seq<(nat, nat)>
  {
    if index == [] then [] else AllPairs(index[..|index| - 1]) + PairsUpTo(index[|index| - 1].1, |index[|index| - 1].1|)
  }

  lemma {:induction false} PairsUpToMember(l: seq<nat>, j: nat, a: nat, b: nat)
    requires j <= |l|
    ensures (a, b) in PairsUpTo(l, j) <==> exists p, q :: 0 <= p < j && p < q < |l| && l[p] == a && l[q] == b
  {
    if j > 0 {
      PairsUpToMember(l, j - 1, a, b);
      var f := Fan(l, j - 1);
      if (a, b) in f {
        var m :| 0 <= m < |f| && f[m] == (a, b);
        assert l[j - 1] == a && l[j + m] == b;
      }
      if exists p, q :: 0 <= p < j && p < q < |l| && l[p] == a && l[q] == b {
        var p, q :| 0 <= p < j && p < q < |l| && l[p] == a && l[q] == b;
        if p == j - 1 {
          assert f[q - j] == (a, b);
        }
      }
    }
  }

  lemma {:induction false} AllPairsMember(index: Index, a: nat, b: nat)
    ensures (a, b) in AllPairs(index) <==> exists e :: 0 <= e < |index| && (a, b) in PairsUpTo(index[e].1, |index[e].1|)
  {
    if index != [] {
      var n := |index| - 1;
      var init := index[..n];
      var last := PairsUpTo(index[n].1, |index[n].1|);
      AllPairsMember(init, a, b);
      assert AllPairs(index) == AllPairs(init) + last;
      if (a, b) in AllPairs(index) && (a, b) !in last {
        var e :| 0 <= e < |init| && (a, b) in PairsUpTo(init[e].1, |init[e].1|);
        assert init[e] == index[e];
      }
      if exists e :: 0 <= e < |index| && (a, b) in PairsUpTo(index[e].1, |index[e].1|) {
        var e :| 0 <= e < |index| && (a, b) in PairsUpTo(index[e].1, |index[e].1|);
        if e < n {
          assert init[e] == index[e];
        }
      }
    }
  }

  /** Two different objects are paired under an entry exactly when both are recorded there. */
  lemma PairedIff(l: seq<nat>, a: nat, b: nat)
    requires a != b
    ensures ((a, b) in PairsUpTo(l, |l|) || (b, a) in PairsUpTo(l, |l|)) <==> a in l && b in l
  {
    PairsUpToMember(l, |l|, a, b);
    PairsUpToMember(l, |l|, b, a);
    if a in l && b in l {
      var p :| 0 <= p < |l| && l[p] == a;
      var q :| 0 <= q < |l| && l[q] == b;
      if p < q {
        assert (a, b) in PairsUpTo(l, |l|);
      } else {
        assert (b, a) in PairsUpTo(l, |l|);
      }
    }
  }

  // ---------------------------------------------------------------- neighbour lists

  ghost predicate Strict(n: seq<int>)
  {
    forall p, q :: 0 <= p < q < |n| ==> n[p] < n[q]
  }

  /** The neighbour lists after the pairs `done`: each strictly increasing, and y is in the list
      of a exactly when a pair joins a and y. */
  ghost predicate Linked(nbrs: seq<seq<int>>, done: seq<(nat, nat)>)
  {
    forall a :: 0 <= a < |nbrs| ==>
      Strict(nbrs[a]) && forall y :: y in nbrs[a] <==> y >= 0 && ((a, y) in done || (y, a) in done)
  }

  /** A sorted list with x inserted where the lower-bound search puts it, unless it is there. */
  method Insert(n: seq<int>, x: int) returns (r: seq<int>)
    ensures Strict(n) ==> Strict(r)
    ensures forall y :: y in r <==> y in n || y == x
  {
    var i := Bisect.Bisect(n, x);
    if i >= |n| || n[i] != x {
      r := n[..i] + [x] + n[i..];
      Spliced(n, i, x);
    } else {
      r := n;
    }
  }

  /** x placed at i, between what is below it and what is above it. */
  lemma Spliced(n: seq<int>, i: nat, x: int)
    requires i <= |n| && (i > 0 ==> n[i - 1] < x) && (i < |n| ==> n[i] > x)
    ensures Strict(n) ==> Strict(n[..i] + [x] + n[i..])
    ensures forall y :: y in n[..i] + [x] + n[i..] <==> y in n || y == x
  {
    var r := n[..i] + [x] + n[i..];
    assert n == n[..i] + n[i..];
    assert forall y :: y in r <==> y in n[..i] || y == x || y in n[i..];
    if Strict(n) {
      SplicedStrict(n, i, x);
    }
  }

  /** The splice of x keeps a strictly increasing list strictly increasing. */
  lemma SplicedStrict(n: seq<int>, i: nat, x: int)
    requires i <= |n| && (i > 0 ==> n[i - 1] < x) && (i < |n| ==> n[i] > x) && Strict(n)
    ensures Strict(n[..i] + [x] + n[i..])
  {
    var r := n[..i] + [x] + n[i..];
    assert forall k :: 0 <= k < i ==> r[k] == n[k];
    assert forall k :: i < k < |r| ==> r[k] == n[k - 1];
    forall p, q | 0 <= p < q < |r|
      ensures r[p] < r[q]
    {
      if q == i {
        assert p == i - 1 || n[p] < n[i - 1];
      } else if p == i {
        assert q == i + 1 || n[i] < n[q - 1];
      }
    }
  }

  lemma LinkStep(nbrs: seq<seq<int>>, done: seq<(nat, nat)>, ij: nat, ik: nat, mid: seq<seq<int>>, after: seq<seq<int>>)
    requires Linked(nbrs, done) && ij < |nbrs| && ik < |nbrs|
    requires |mid| == |nbrs| && Strict(mid[ij]) && (forall y :: y in mid[ij] <==> y in nbrs[ij] || y == ik)
    requires forall a :: 0 <= a < |nbrs| && a != ij ==> mid[a] == nbrs[a]
    requires |after| == |mid| && Strict(after[ik]) && (forall y :: y in after[ik] <==> y in mid[ik] || y == ij)
    requires forall a :: 0 <= a < |mid| && a != ik ==> after[a] == mid[a]
    ensures Linked(after, done + [(ij, ik)])
  {
  }

  class Neighbors {
    var indexesByArc: Index
    var neighbors: seq<seq<int>>

    constructor ()
      ensures indexesByArc == [] && neighbors == []
    {
      indexesByArc := [];
      neighbors := [];
    }

    /** `line(arcs, i)`. */
    method Line(arcs: seq<int>, i: nat)
      modifies this`indexesByArc
      ensures indexesByArc == RecordAll(old(indexesByArc), VisitsOf(i, arcs))
    {
      ghost var start := indexesByArc;
      for k := 0 to |arcs|
        invariant indexesByArc == RecordAll(start, VisitsOf(i, arcs)[..k])
      {
        var a := arcs[k];
        if a < 0 {
          a := Complement(a);
        }
        var e := Find(indexesByArc, a);
        if e.Some? {
          indexesByArc := indexesByArc[e.value := (a, indexesByArc[e.value].1 + [i])];
        } else {
          indexesByArc := indexesByArc + [(a, [i])];
        }
        assert VisitsOf(i, arcs)[..k + 1][..k] == VisitsOf(i, arcs)[..k];
      }
      assert VisitsOf(i, arcs)[..|arcs|] == VisitsOf(i, arcs);
    }

    /** `polygon(arcs, i)`: every list of references, also used for a MultiLineString. */
    method Polygon(arcs: seq<seq<int>>, i: nat)
      modifies this`indexesByArc
      ensures indexesByArc == RecordAll(old(indexesByArc), VisitsOf(i, Flat(arcs)))
    {
      ghost var start := indexesByArc;
      for k := 0 to |arcs|
        invariant indexesByArc == RecordAll(start, VisitsOf(i, Flat(arcs[..k])))
      {
        ghost var before := indexesByArc;
        Line(arcs[k], i);
        assert arcs[..k + 1][..k] == arcs[..k];
        VisitsOfAppend(i, Flat(arcs[..k]), arcs[k]);
        RecordAllAppend(start, VisitsOf(i, Flat(arcs[..k])), VisitsOf(i, arcs[k]));
      }
      assert arcs[..|arcs|] == arcs;
    }

    /** `multipolygon(arcs, i)`. */
    method Multipolygon(arcs: seq<seq<seq<int>>>, i: nat)
      modifies this`indexesByArc
      ensures indexesByArc == RecordAll(old(indexesByArc), VisitsOf(i, FlatFlat(arcs)))
    {
      ghost var start := indexesByArc;
      for k := 0 to |arcs|
        invariant indexesByArc == RecordAll(start, VisitsOf(i, FlatFlat(arcs[..k])))
      {
        Polygon(arcs[k], i);
        assert arcs[..k + 1][..k] == arcs[..k];
        VisitsOfAppend(i, FlatFlat(arcs[..k]), Flat(arcs[k]));
        RecordAllAppend(start, VisitsOf(i, FlatFlat(arcs[..k])), VisitsOf(i, Flat(arcs[k])));
      }
      assert arcs[..|arcs|] == arcs;
    }

    /** `geometry(o, i)`: dispatch on the type, collections member by member. */
    method Geometry(o: Geom<seq<int>>, i: nat)
      modifies this`indexesByArc
      ensures indexesByArc == RecordAll(old(indexesByArc), VisitsOf(i, Refs(o)))
      decreases o, 1
    {
      match o.kind
      case GeometryCollection(gs) =>
        Geometries(gs, i);
      case LineString(l) =>
        Line(l, i);
      case MultiLineString(ls) =>
        Polygon(ls, i);
      case Polygon(rs) =>
        Polygon(rs, i);
      case MultiPolygon(ps) =>
        Multipolygon(ps, i);
      case _ =>
    }

    method Geometries(gs: seq<Geom<seq<int>>>, i: nat)
      modifies this`indexesByArc
      ensures indexesByArc == RecordAll(old(indexesByArc), VisitsOf(i, RefsAll(gs)))
      decreases gs, 0
    {
      ghost var start := indexesByArc;
      for k := 0 to |gs|
        invariant indexesByArc == RecordAll(start, VisitsOf(i, RefsAll(gs[..k])))
      {
        Geometry(gs[k], i);
        assert gs[..k + 1][..k] == gs[..k];
        VisitsOfAppend(i, RefsAll(gs[..k]), Refs(gs[k]));
        RecordAllAppend(start, VisitsOf(i, RefsAll(gs[..k])), VisitsOf(i, Refs(gs[k])));
      }
      assert gs[..|gs|] == gs;
    }

    /** The pairs of one entry of the index, in loop order. */
    method LinkEntry(indexes: seq<nat>, ghost done: seq<(nat, nat)>)
      requires Linked(neighbors, done) && forall k :: 0 <= k < |indexes| ==> indexes[k] < |neighbors|
      modifies this`neighbors
      ensures |neighbors| == old(|neighbors|) && Linked(neighbors, done + PairsUpTo(indexes, |indexes|))
    {
      for j := 0 to |indexes|
        invariant |neighbors| == old(|neighbors|) && Linked(neighbors, done + PairsUpTo(indexes, j))
      {
        LinkFan(indexes, j, done + PairsUpTo(indexes, j));
        assert done + PairsUpTo(indexes, j + 1) == done + PairsUpTo(indexes, j) + Fan(indexes, j);
      }
    }

    /** The inner loop: indexes[j] paired with every later one. */
    method LinkFan(indexes: seq<nat>, j: nat, ghost done: seq<(nat, nat)>)
      requires j < |indexes| && Linked(neighbors, done) && forall k :: 0 <= k < |indexes| ==> indexes[k] < |neighbors|
      modifies this`neighbors
      ensures |neighbors| == old(|neighbors|) && Linked(neighbors, done + Fan(indexes, j))
    {
      ghost var fan := Fan(indexes, j);
      for k := j + 1 to |indexes|
        invariant |neighbors| == old(|neighbors|) && Linked(neighbors, done + fan[..k - j - 1])
      {
        var ij := indexes[j];
        var ik := indexes[k];
        ghost var before := neighbors;
        var n := Insert(neighbors[ij], ik);
        neighbors := neighbors[ij := n];
        ghost var mid := neighbors;
        n := Insert(neighbors[ik], ij);
        neighbors := neighbors[ik := n];
        LinkStep(before, done + fan[..k - j - 1], ij, ik, mid, neighbors);
        assert fan[..k - j] == fan[..k - j - 1] + [(ij, ik)];
      }
      assert fan[..|indexes| - j - 1] == fan;
    }

    /** `__call__`: one list per object; y is a neighbour of x exactly when some arc has both
        recorded under it at two different visits. */
    method Call(objects: seq<Geom<seq<int>>>) returns (r: seq<seq<int>>)
      modifies this
      ensures indexesByArc == RecordAll([], Visits(objects, |objects|))
      ensures r == neighbors && |r| == |objects|
      ensures Linked(r, AllPairs(indexesByArc))
    {
      indexesByArc := [];
      neighbors := seq(|objects|, _ => []);
      ghost var empty := neighbors;
      for idx := 0 to |objects|
        invariant indexesByArc == RecordAll([], Visits(objects, idx))
        invariant neighbors == empty
      {
        Geometry(objects[idx], idx);
        RecordAllAppend([], Visits(objects, idx), VisitsOf(idx, Refs(objects[idx])));
      }
      ghost var index := indexesByArc;
      assert index[..0] == [];
      VisitsBounded(objects, |objects|);
      RecordAllDescribes(Visits(objects, |objects|));
      IndexBounded(index, Visits(objects, |objects|), |objects|);
      ghost var done: seq<(nat, nat)> := [];
      for e := 0 to |indexesByArc|
        invariant indexesByArc == index && |neighbors| == |objects|
        invariant Linked(neighbors, done) && done == AllPairs(index[..e])
      {
        LinkEntry(indexesByArc[e].1, done);
        done := done + PairsUpTo(index[e].1, |index[e].1|);
        assert index[..e + 1][..e] == index[..e];
      }
      assert index[..|index|] == index;
      r := neighbors;
    }
  }

  lemma VisitsOfAppend(i: nat, a: seq<int>, b: seq<int>)
    ensures VisitsOf(i, a + b) == VisitsOf(i, a) + VisitsOf(i, b)
  {
  }

  lemma {:induction false} RecordAllAppend(index: Index, vs: seq<(nat, nat)>, ws: seq<(nat, nat)>)
    ensures RecordAll(index, vs + ws) == RecordAll(RecordAll(index, vs), ws)
    decreases |ws|
  {
    if ws == [] {
      assert vs + ws == vs;
    } else {
      var n := |ws| - 1;
      assert (vs + ws)[..|vs + ws| - 1] == vs + ws[..n];
      RecordAllAppend(index, vs, ws[..n]);
    }
  }

  /** The objects recorded in the index are all below n, so every neighbour list exists. */
  lemma IndexBounded(index: Index, vs: seq<(nat, nat)>, n: nat)
    requires Describes(index, vs) && forall v :: v in vs ==> v.0 < n
    ensures forall e, k :: 0 <= e < |index| && 0 <= k < |index[e].1| ==> index[e].1[k] < n
  {
    forall e, k | 0 <= e < |index| && 0 <= k < |index[e].1|
      ensures index[e].1[k] < n
    {
      OwnersMember(vs, index[e].0, index[e].1[k]);
    }
  }

  /** Two different objects are neighbours exactly when some arc is referenced by both. */
  lemma NeighborsIff(objects: seq<Geom<seq<int>>>, r: seq<seq<int>>, a: nat, b: nat)
    requires |r| == |objects| && Linked(r, AllPairs(RecordAll([], Visits(objects, |objects|))))
    requires a < |objects| && b < |objects| && a != b
    ensures b in r[a] <==> exists x :: Shares(objects, a, x) && Shares(objects, b, x)
  {
    var vs := Visits(objects, |objects|);
    var index := RecordAll([], vs);
    RecordAllDescribes(vs);
    AllPairsMember(index, a, b);
    AllPairsMember(index, b, a);
    if b in r[a] {
      var e :| 0 <= e < |index| && ((a, b) in PairsUpTo(index[e].1, |index[e].1|) || (b, a) in PairsUpTo(index[e].1, |index[e].1|));
      PairedIff(index[e].1, a, b);
      IndexMembers(objects, e, a);
      IndexMembers(objects, e, b);
      assert Shares(objects, a, index[e].0) && Shares(objects, b, index[e].0);
    }
    if exists x :: Shares(objects, a, x) && Shares(objects, b, x) {
      var x :| Shares(objects, a, x) && Shares(objects, b, x);
      var k :| 0 <= k < |Refs(objects[a])| && ArcIndex(Refs(objects[a])[k]) == x;
      VisitsMember(objects, |objects|, a, x);
      var e := Find(index, x).value;
      IndexMembers(objects, e, a);
      IndexMembers(objects, e, b);
      PairedIff(index[e].1, a, b);
    }
  }

  /** Object i references arc x, in either direction. */
  ghost predicate Shares(objects: seq<Geom<seq<int>>>, i: nat, x: nat)
  {
    i < |objects| && exists k :: 0 <= k < |Refs(objects[i])| && ArcIndex(Refs(objects[i])[k]) == x
  }

  /** Value v occurs at two places of s. */
  ghost predicate Twice<T>(s: seq<T>, v: T)
  {
    exists p, q :: 0 <= p < q < |s| && s[p] == v && s[q] == v
  }

  /** A value occurs twice in a concatenation when it does in either part, or once in each. */
  lemma TwiceAppend<T>(s: seq<T>, t: seq<T>, v: T)
    ensures Twice(s + t, v) <==> Twice(s, v) || Twice(t, v) || (v in s && v in t)
  {
    var st := s + t;
    if Twice(st, v) {
      var p, q :| 0 <= p < q < |st| && st[p] == v && st[q] == v;
      if q < |s| {
        assert s[p] == v && s[q] == v;
      } else if p >= |s| {
        assert t[p - |s|] == v && t[q - |s|] == v;
      } else {
        assert s[p] == v && t[q - |s|] == v;
      }
    }
    if Twice(s, v) {
      var p, q :| 0 <= p < q < |s| && s[p] == v && s[q] == v;
      assert st[p] == v && st[q] == v;
    }
    if Twice(t, v) {
      var p, q :| 0 <= p < q < |t| && t[p] == v && t[q] == v;
      assert st[|s| + p] == v && st[|s| + q] == v;
    }
    if v in s && v in t {
      var p :| 0 <= p < |s| && s[p] == v;
      var q :| 0 <= q < |t| && t[q] == v;
      assert st[p] == v && st[|s| + q] == v;
    }
  }

  /** Object i is recorded twice under arc a exactly when the visit (i, a) happens twice. */
  lemma {:induction false} OwnersTwice(vs: seq<(nat, nat)>, a: nat, i: nat)
    ensures Twice(Owners(vs, a), i) <==> Twice(vs, (i, a))
  {
    if vs != [] {
      var front, v := vs[..|vs| - 1], vs[|vs| - 1];
      assert vs == front + [v];
      OwnersTwice(front, a, i);
      OwnersMember(front, a, i);
      var tail: seq<nat> := if v.1 == a then [v.0] else [];
      TwiceAppend(Owners(front, a), tail, i);
      TwiceAppend(front, [v], (i, a));
      assert !Twice(tail, i) && !Twice([v], (i, a));
    }
  }

  /** The visit (i, a) happens twice exactly when object i names arc a at two of its
      references. */
  lemma {:induction false} VisitsTwice(objects: seq<Geom<seq<int>>>, n: nat, i: nat, a: nat)
    requires n <= |objects|
    ensures Twice(Visits(objects, n), (i, a)) <==>
            i < n && exists p, q :: 0 <= p < q < |Refs(objects[i])| &&
                                    ArcIndex(Refs(objects[i])[p]) == a && ArcIndex(Refs(objects[i])[q]) == a
  {
    if n > 0 {
      var front, last := Visits(objects, n - 1), VisitsOf(n - 1, Refs(objects[n - 1]));
      VisitsTwice(objects, n - 1, i, a);
      TwiceAppend(front, last, (i, a));
      if i == n - 1 {
        VisitsBounded(objects, n - 1);
        assert (i, a) !in front;
        if Twice(last, (i, a)) {
          var p, q :| 0 <= p < q < |last| && last[p] == (i, a) && last[q] == (i, a);
          assert ArcIndex(Refs(objects[i])[p]) == a && ArcIndex(Refs(objects[i])[q]) == a;
        }
        if exists p, q :: 0 <= p < q < |Refs(objects[i])| &&
                          ArcIndex(Refs(objects[i])[p]) == a && ArcIndex(Refs(objects[i])[q]) == a {
          var p, q :| 0 <= p < q < |Refs(objects[i])| &&
                      ArcIndex(Refs(objects[i])[p]) == a && ArcIndex(Refs(objects[i])[q]) == a;
          assert last[p] == (i, a) && last[q] == (i, a);
        }
      } else {
        assert (i, a) !in last;
      }
    }
  }

  /** An object is its own neighbour exactly when it names one arc at two of its references,
      in either direction: it is then recorded twice under that arc and paired with itself. */
  lemma SelfNeighbor(objects: seq<Geom<seq<int>>>, r: seq<seq<int>>, a: nat)
    requires |r| == |objects| && Linked(r, AllPairs(RecordAll([], Visits(objects, |objects|))))
    requires a < |objects|
    ensures a in r[a] <==> exists p, q :: 0 <= p < q < |Refs(objects[a])| &&
                                          ArcIndex(Refs(objects[a])[p]) == ArcIndex(Refs(objects[a])[q])
  {
    var vs := Visits(objects, |objects|);
    var index := RecordAll([], vs);
    RecordAllDescribes(vs);
    AllPairsMember(index, a, a);
    if a in r[a] {
      var e :| 0 <= e < |index| && (a, a) in PairsUpTo(index[e].1, |index[e].1|);
      PairsUpToMember(index[e].1, |index[e].1|, a, a);
      OwnersTwice(vs, index[e].0, a);
      VisitsTwice(objects, |objects|, a, index[e].0);
    }
    if exists p, q :: 0 <= p < q < |Refs(objects[a])| &&
                      ArcIndex(Refs(objects[a])[p]) == ArcIndex(Refs(objects[a])[q]) {
      var p, q :| 0 <= p < q < |Refs(objects[a])| &&
                  ArcIndex(Refs(objects[a])[p]) == ArcIndex(Refs(objects[a])[q]);
      var x := ArcIndex(Refs(objects[a])[p]);
      VisitsTwice(objects, |objects|, a, x);
      assert (a, x) in vs;
      var e := Find(index, x).value;
      OwnersTwice(vs, x, a);
      PairsUpToMember(index[e].1, |index[e].1|, a, a);
    }
  }

  /** Adjacency is symmetric, and the neighbours are object indexes. */
  lemma Symmetric(r: seq<seq<int>>, done: seq<(nat, nat)>, a: nat, b: nat)
    requires Linked(r, done) && a < |r| && b < |r|
    ensures b in r[a] <==> a in r[b]
  {
  }
}
