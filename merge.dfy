/** merge.py: the polygons of some objects merged into one MultiPolygon. Polygons are grouped
    into the connected components of the relation "shares an arc"; each group is reduced to
    the arcs that only one polygon entry uses, those are stitched into rings, and the ring of
    greatest area is moved to the front. */
module Merge {
  import opened Base
  import opened Geo
  import opened TopoJson
  import opened Feature
  import Stitch

  // ---------------------------------------------------------------- planar_ring_area

  /** The term `planar_ring_area` adds for the pair (a, b). */
  function Cross(a: Pos, b: Pos): real
  {
    a.x * b.y - a.y * b.x
  }

  function Abs(v: real): real
  {
    if v < 0.0 then -v else v
  }

  /** The sum after k steps of `planar_ring_area`: a runs one position behind b, starting at
      the last position. */
  function Shoelace(ring: seq<Pos>, k: nat): real
    requires ring != [] && k <= |ring|
  {
    if k == 0 then 0.0
    else Shoelace(ring, k - 1) + Cross(if k == 1 then ring[|ring| - 1] else ring[k - 2], ring[k - 1])
  }

  /** `planar_ring_area(ring)`: twice the area the ring encloses. An empty ring has no
      ring[n - 1]: IndexError. */
  function RingArea(ring: seq<Pos>): (r: Result<real>)
    ensures r.Fail? <==> ring == []
    ensures r.Ok? ==> r.value >= 0.0
  {
    if ring == [] then Fail(IndexError) else Ok(Abs(Shoelace(ring, |ring|)))
  }

  /** The terms of an open chain of positions, without the closing pair. */
  function Chain(s: seq<Pos>): real
  {
    if |s| <= 1 then 0.0 else Chain(s[..|s| - 1]) + Cross(s[|s| - 2], s[|s| - 1])
  }

  /** The closed sum is the closing pair (last, first) plus the open chain. */
  lemma {:induction false} ShoelaceChain(ring: seq<Pos>, k: nat)
    requires 1 <= k <= |ring|
    ensures Shoelace(ring, k) == Cross(ring[|ring| - 1], ring[0]) + Chain(ring[..k])
  {
    if k > 1 {
      ShoelaceChain(ring, k - 1);
      assert ring[..k][..k - 1] == ring[..k - 1];
    }
  }

  /** A chain split after its first pair. */
  lemma {:induction false} ChainFront(s: seq<Pos>)
    requires |s| >= 2
    ensures Chain(s) == Cross(s[0], s[1]) + Chain(s[1..])
  {
    var m := |s| - 1;
    if |s| > 2 {
      ChainFront(s[..m]);
      assert s[..m][1..] == s[1..][..m - 1];
    }
  }

  /** A chain read backwards sums to the negated chain. */
  lemma {:induction false} ChainReversed(s: seq<Pos>)
    ensures Chain(Reversed(s)) == -Chain(s)
  {
    if |s| >= 2 {
      ChainReversed(s[1..]);
      var r := Reversed(s[1..]);
      ReversedAt(s[1..], |s| - 2);
      ChainSnoc(r, s[0]);
      ChainFront(s);
      CrossSwap(s[0], s[1]);
    }
  }

  /** A chain extended by one position gains one pair. */
  lemma ChainSnoc(r: seq<Pos>, p: Pos)
    requires r != []
    ensures Chain(r + [p]) == Chain(r) + Cross(r[|r| - 1], p)
  {
    assert (r + [p])[..|r|] == r;
  }

  /** The area does not depend on the position the ring starts at. */
  lemma RingAreaRotated(ring: seq<Pos>)
    requires ring != []
    ensures RingArea(ring[1..] + [ring[0]]) == RingArea(ring)
  {
    var n := |ring|;
    if n >= 2 {
      var rot := ring[1..] + [ring[0]];
      ShoelaceChain(ring, n);
      ShoelaceChain(rot, n);
      assert ring[..n] == ring && rot[..n] == rot;
      assert rot[..n - 1] == ring[1..];
      ChainFront(ring);
    } else {
      assert ring[1..] + [ring[0]] == ring;
    }
  }

  /** Nor on the direction it runs in. */
  lemma RingAreaReversed(ring: seq<Pos>)
    requires ring != []
    ensures RingArea(Reversed(ring)) == RingArea(ring)
  {
    var n := |ring|;
    var r := Reversed(ring);
    ShoelaceChain(ring, n);
    ShoelaceChain(r, n);
    assert ring[..n] == ring && r[..n] == r;
    ReversedAt(ring, 0);
    ReversedAt(ring, n - 1);
    ChainReversed(ring);
    CrossSwap(ring[n - 1], ring[0]);
    assert Shoelace(r, n) == -Shoelace(ring, n);
  }

  lemma CrossSwap(a: Pos, b: Pos)
    ensures Cross(b, a) == -Cross(a, b)
  {
  }

  /** An axis-aligned rectangle, corner by corner: twice its area. */
  lemma RectangleArea(x0: real, y0: real, x1: real, y1: real)
    ensures RingArea([Pos(x0, y0), Pos(x1, y0), Pos(x1, y1), Pos(x0, y1)]) == Ok(Abs(2.0 * (x1 - x0) * (y1 - y0)))
  {
    var q := [Pos(x0, y0), Pos(x1, y0), Pos(x1, y1), Pos(x0, y1)];
    var c0, c1, c2, c3 := Cross(q[3], q[0]), Cross(q[0], q[1]), Cross(q[1], q[2]), Cross(q[2], q[3]);
    assert Shoelace(q, 1) == c0;
    assert Shoelace(q, 2) == c0 + c1;
    assert Shoelace(q, 3) == c0 + c1 + c2;
    assert Shoelace(q, 4) == c0 + c1 + c2 + c3;
    assert c0 == x0 * y0 - y1 * x0;
    assert c1 == x0 * y0 - y0 * x1;
    assert c2 == x1 * y1 - y0 * x1;
    assert c3 == x1 * y1 - y1 * x0;
    assert 2.0 * (x1 - x0) * (y1 - y0) == 2.0 * x1 * y1 - 2.0 * x1 * y0 - 2.0 * x0 * y1 + 2.0 * x0 * y0;
  }

  /** `planar_ring_area`: the loop. */
  method PlanarRingArea(ring: seq<Pos>) returns (r: Result<real>)
    ensures r == RingArea(ring)
  {
    var n := |ring|;
    if n == 0 {
      return Fail(IndexError);
    }
    var i := 0;
    var b := ring[n - 1];
    var area := 0.0;
    while i < n
      invariant 0 <= i <= n && area == Shoelace(ring, i)
      invariant b == if i == 0 then ring[n - 1] else ring[i - 1]
    {
      var a := b;
      b := ring[i];
      area := area + (a.x * b.y - a.y * b.x);
      i := i + 1;
    }
    return Ok(if area < 0.0 then -area else area);
  }

  // ---------------------------------------------------------------- the arc index

  /** The arcs the rings of a polygon name, sign dropped. */
  function PolyArcs(rings: seq<seq<int>>): (r: set<nat>)
    ensures forall i :: 0 <= i < |rings| ==> Stitch.ArcSet(rings[i]) <= r
    ensures forall a :: a in r ==> exists i :: 0 <= i < |rings| && a in Stitch.ArcSet(rings[i])
  {
    if rings == [] then {} else PolyArcs(rings[..|rings| - 1]) + Stitch.ArcSet(rings[|rings| - 1])
  }

  /** `polygons_by_arc`: for every arc, the polygon dicts (by number) that name it, once per
      reference. */
  type ByArcMap = map<nat, seq<nat>>

  /** The registration of `extract` for one ring of polygon `id`. */
  function Register(m: ByArcMap, refs: seq<int>, id: nat): ByArcMap
  {
    if refs == [] then m
    else
      var m' := Register(m, refs[..|refs| - 1], id);
      var a := ArcIndex(refs[|refs| - 1]);
      m'[a := (if a in m' then m'[a] else []) + [id]]
  }

  function RegisterRings(m: ByArcMap, rings: seq<seq<int>>, id: nat): ByArcMap
  {
    if rings == [] then m else Register(RegisterRings(m, rings[..|rings| - 1], id), rings[|rings| - 1], id)
  }

  /** `polygons_by_arc` once the polygons ps have been extracted, in order. */
  function ByArc(ps: seq<seq<seq<int>>>): ByArcMap
  {
    if ps == [] then map[] else RegisterRings(ByArc(ps[..|ps| - 1]), ps[|ps| - 1], |ps| - 1)
  }

  /** One more reference adds its arc to the arcs of a ring. */
  lemma ArcSetStep(refs: seq<int>, k: nat)
    requires k < |refs|
    ensures Stitch.ArcSet(refs[..k + 1]) == Stitch.ArcSet(refs[..k]) + {ArcIndex(refs[k])}
  {
    assert forall q :: 0 <= q < k ==> refs[..k + 1][q] == refs[..k][q];
    assert refs[..k + 1][k] == refs[k];
  }

  lemma {:induction false} RegisterMembers(m: ByArcMap, refs: seq<int>, id: nat, a: nat, j: nat)
    ensures a in Register(m, refs, id) <==> a in m || a in Stitch.ArcSet(refs)
    ensures a in Register(m, refs, id) ==>
              (j in Register(m, refs, id)[a] <==> (a in m && j in m[a]) || (j == id && a in Stitch.ArcSet(refs)))
  {
    if refs != [] {
      var n := |refs| - 1;
      RegisterMembers(m, refs[..n], id, a, j);
      ArcSetStep(refs, n);
      assert refs[..n + 1] == refs;
    }
  }

  lemma {:induction false} RegisterRingsMembers(m: ByArcMap, rings: seq<seq<int>>, id: nat, a: nat, j: nat)
    ensures a in RegisterRings(m, rings, id) <==> a in m || a in PolyArcs(rings)
    ensures a in RegisterRings(m, rings, id) ==>
              (j in RegisterRings(m, rings, id)[a] <==> (a in m && j in m[a]) || (j == id && a in PolyArcs(rings)))
  {
    if rings != [] {
      var n := |rings| - 1;
      RegisterRingsMembers(m, rings[..n], id, a, j);
      RegisterMembers(RegisterRings(m, rings[..n], id), rings[n], id, a, j);
    }
  }

  /** Polygon j is listed under arc a exactly when one of its rings names a, and an arc is a
      key exactly when some polygon names it. */
  lemma {:induction false} ByArcMembers(ps: seq<seq<seq<int>>>, a: nat, j: nat)
    ensures a in ByArc(ps) <==> exists i :: 0 <= i < |ps| && a in PolyArcs(ps[i])
    ensures a in ByArc(ps) ==> (j in ByArc(ps)[a] <==> j < |ps| && a in PolyArcs(ps[j]))
  {
    if ps != [] {
      var n := |ps| - 1;
      ByArcMembers(ps[..n], a, j);
      RegisterRingsMembers(ByArc(ps[..n]), ps[n], n, a, j);
      assert forall i :: 0 <= i < n ==> ps[..n][i] == ps[i];
      if a in PolyArcs(ps[n]) {
        assert exists i :: 0 <= i < |ps| && a in PolyArcs(ps[i]);
      }
    }
  }

  /** How often the polygons ps name arc a, over all their rings. */
  function Uses(ps: seq<seq<seq<int>>>, a: nat): nat
  {
    if ps == [] then 0 else Uses(ps[..|ps| - 1], a) + RingsUses(ps[|ps| - 1], a)
  }

  function RingsUses(rings: seq<seq<int>>, a: nat): nat
  {
    if rings == [] then 0 else RingsUses(rings[..|rings| - 1], a) + RefUses(rings[|rings| - 1], a)
  }

  function RefUses(refs: seq<int>, a: nat): nat
  {
    if refs == [] then 0 else RefUses(refs[..|refs| - 1], a) + if ArcIndex(refs[|refs| - 1]) == a then 1 else 0
  }

  function Len(m: ByArcMap, a: nat): nat
  {
    if a in m then |m[a]| else 0
  }

  lemma {:induction false} RegisterCount(m: ByArcMap, refs: seq<int>, id: nat, a: nat)
    ensures Len(Register(m, refs, id), a) == Len(m, a) + RefUses(refs, a)
  {
    if refs != [] {
      RegisterCount(m, refs[..|refs| - 1], id, a);
    }
  }

  lemma {:induction false} RegisterRingsCount(m: ByArcMap, rings: seq<seq<int>>, id: nat, a: nat)
    ensures Len(RegisterRings(m, rings, id), a) == Len(m, a) + RingsUses(rings, a)
  {
    if rings != [] {
      var n := |rings| - 1;
      RegisterRingsCount(m, rings[..n], id, a);
      RegisterCount(RegisterRings(m, rings[..n], id), rings[n], id, a);
    }
  }

  /** The list under an arc has one entry per reference to the arc. */
  lemma {:induction false} ByArcCount(ps: seq<seq<seq<int>>>, a: nat)
    ensures Len(ByArc(ps), a) == Uses(ps, a)
  {
    if ps != [] {
      var n := |ps| - 1;
      ByArcCount(ps[..n], a);
      RegisterRingsCount(ByArc(ps[..n]), ps[n], n, a);
    }
  }

  // ---------------------------------------------------------------- components

  /** Polygons i and j name a common arc. */
  ghost predicate Shares(ps: seq<seq<seq<int>>>, i: nat, j: nat)
  {
    i < |ps| && j < |ps| && PolyArcs(ps[i]) * PolyArcs(ps[j]) != {}
  }

  ghost function Nbrs(ps: seq<seq<seq<int>>>, q: nat): set<nat>
  {
    set j | 0 <= j < |ps| && Shares(ps, q, j)
  }

  /** A chain of polygons, each sharing an arc with the next, avoiding the set m. */
  ghost predicate Path(ps: seq<seq<seq<int>>>, m: set<nat>, p: seq<nat>)
  {
    |p| > 0 && (forall k :: 0 <= k < |p| ==> p[k] < |ps| && p[k] !in m) &&
    forall k :: 0 < k < |p| ==> Shares(ps, p[k - 1], p[k])
  }

  /** x can be reached from r by such a chain. */
  ghost predicate Reach(ps: seq<seq<seq<int>>>, m: set<nat>, r: nat, x: nat)
  {
    exists p: seq<nat> :: Path(ps, m, p) && p[0] == r && p[|p| - 1] == x
  }

  /** Polygons connected through shared arcs, directly or transitively. */
  ghost predicate Connected(ps: seq<seq<seq<int>>>, r: nat, x: nat)
  {
    Reach(ps, {}, r, x)
  }

  lemma ReachRoot(ps: seq<seq<seq<int>>>, m: set<nat>, r: nat)
    requires r < |ps| && r !in m
    ensures Reach(ps, m, r, r)
  {
    assert Path(ps, m, [r]);
  }

  lemma PathSnoc(ps: seq<seq<seq<int>>>, m: set<nat>, p: seq<nat>, x: nat)
    requires Path(ps, m, p) && Shares(ps, p[|p| - 1], x) && x !in m
    ensures Path(ps, m, p + [x])
  {
    var p' := p + [x];
    assert forall k :: 0 <= k < |p| ==> p'[k] == p[k];
  }

  lemma PathEnds(ps: seq<seq<seq<int>>>, m: set<nat>, p: seq<nat>, r: nat, x: nat)
    requires Path(ps, m, p) && p[0] == r && p[|p| - 1] == x
    ensures Reach(ps, m, r, x)
  {
  }

  lemma ReachExtend(ps: seq<seq<seq<int>>>, m: set<nat>, r: nat, q: nat, x: nat)
    requires Reach(ps, m, r, q) && Shares(ps, q, x) && x !in m
    ensures Reach(ps, m, r, x)
  {
    var p: seq<nat> :| Path(ps, m, p) && p[0] == r && p[|p| - 1] == q;
    PathSnoc(ps, m, p, x);
    var p' := p + [x];
    assert p'[0] == r && p'[|p'| - 1] == x;
    PathEnds(ps, m, p', r, x);
  }

  /** A set closed under sharing (up to m) holds every polygon a chain from inside it reaches. */
  lemma {:induction false} PathInside(ps: seq<seq<seq<int>>>, m: set<nat>, s: set<nat>, p: seq<nat>)
    requires Path(ps, m, p) && p[0] in s
    requires forall q :: q in s ==> Nbrs(ps, q) <= m + s
    ensures p[|p| - 1] in s
  {
    if |p| > 1 {
      var n := |p| - 1;
      assert Path(ps, m, p[..n]);
      PathInside(ps, m, s, p[..n]);
      assert p[n] in Nbrs(ps, p[n - 1]);
    }
  }

  lemma ReachInside(ps: seq<seq<seq<int>>>, m: set<nat>, s: set<nat>, r: nat, x: nat)
    requires r in s && Reach(ps, m, r, x)
    requires forall q :: q in s ==> Nbrs(ps, q) <= m + s
    ensures x in s
  {
    var p: seq<nat> :| Path(ps, m, p) && p[0] == r && p[|p| - 1] == x;
    PathInside(ps, m, s, p);
  }

  /** Sharing is symmetric. */
  lemma SharesSymmetric(ps: seq<seq<seq<int>>>, i: nat, j: nat)
    requires Shares(ps, i, j)
    ensures Shares(ps, j, i)
  {
  }

  /** A chain that starts outside a set closed under sharing (up to m) never enters it. */
  lemma {:induction false} PathOutside(ps: seq<seq<seq<int>>>, m: set<nat>, s: set<nat>, p: seq<nat>)
    requires Path(ps, m, p) && p[0] !in s
    requires forall q :: q in s ==> Nbrs(ps, q) <= m + s
    ensures p[|p| - 1] !in s
  {
    if |p| > 1 {
      var n := |p| - 1;
      assert Path(ps, m, p[..n]);
      PathOutside(ps, m, s, p[..n]);
      SharesSymmetric(ps, p[n - 1], p[n]);
      assert p[n] in s ==> p[n - 1] in Nbrs(ps, p[n]);
    }
  }

  /** Avoiding a closed set as well changes nothing for a chain that starts outside it. */
  lemma ReachWiden(ps: seq<seq<seq<int>>>, m: set<nat>, s: set<nat>, r: nat, x: nat)
    requires r !in s
    requires forall q :: q in s ==> Nbrs(ps, q) <= m + s
    ensures Reach(ps, m + s, r, x) <==> Reach(ps, m, r, x)
  {
    if Reach(ps, m, r, x) {
      var p: seq<nat> :| Path(ps, m, p) && p[0] == r && p[|p| - 1] == x;
      forall k | 0 <= k < |p|
        ensures p[k] !in s
      {
        assert Path(ps, m, p[..k + 1]);
        PathOutside(ps, m, s, p[..k + 1]);
      }
      assert Path(ps, m + s, p);
    }
    if Reach(ps, m + s, r, x) {
      var p: seq<nat> :| Path(ps, m + s, p) && p[0] == r && p[|p| - 1] == x;
      assert Path(ps, m, p);
    }
  }

  /** Connection is symmetric and transitive. */
  lemma ConnectedSymmetric(ps: seq<seq<seq<int>>>, r: nat, x: nat)
    requires Connected(ps, r, x)
    ensures Connected(ps, x, r)
  {
    var p: seq<nat> :| Path(ps, {}, p) && p[0] == r && p[|p| - 1] == x;
    var q := Reversed(p);
    forall k | 0 <= k < |q|
      ensures q[k] == p[|p| - 1 - k]
    {
      ReversedAt(p, k);
    }
    forall k | 0 < k < |q|
      ensures Shares(ps, q[k - 1], q[k])
    {
      SharesSymmetric(ps, p[|p| - 1 - k], p[|p| - k]);
    }
    assert Path(ps, {}, q);
  }

  lemma ConnectedTransitive(ps: seq<seq<seq<int>>>, r: nat, x: nat, y: nat)
    requires Connected(ps, r, x) && Connected(ps, x, y)
    ensures Connected(ps, r, y)
  {
    var p: seq<nat> :| Path(ps, {}, p) && p[0] == r && p[|p| - 1] == x;
    var q: seq<nat> :| Path(ps, {}, q) && q[0] == x && q[|q| - 1] == y;
    var pq := p + q[1..];
    assert forall k :: 0 <= k < |p| ==> pq[k] == p[k];
    assert forall k :: |p| <= k < |pq| ==> pq[k] == q[k - |p| + 1];
    assert Path(ps, {}, pq);
  }

  // ---------------------------------------------------------------- the worklist

  function Elems(s: seq<nat>): set<nat>
  {
    set x | x in s
  }

  predicate NoDup(s: seq<nat>)
  {
    forall i, j :: 0 <= i < j < |s| ==> s[i] != s[j]
  }

  /** d lists, once each, the members of a that were not yet in m. */
  ghost predicate Pushed(d: seq<nat>, a: set<nat>, m: set<nat>)
  {
    NoDup(d) && forall x :: x in d <==> x in a && x !in m
  }

  lemma PushedNone(a: set<nat>, m: set<nat>)
    requires a <= m
    ensures Pushed([], a, m)
  {
  }

  lemma PushedOne(d: seq<nat>, a: set<nat>, m: set<nat>, x: nat)
    requires Pushed(d, a, m)
    ensures x !in m + a ==> Pushed(d + [x], a + {x}, m)
    ensures x in m + a ==> Pushed(d, a + {x}, m)
  {
  }

  lemma PushedConcat(d1: seq<nat>, d2: seq<nat>, a: set<nat>, b: set<nat>, m: set<nat>)
    requires Pushed(d1, a, m) && Pushed(d2, b, m + a)
    ensures Pushed(d1 + d2, a + b, m)
  {
    forall i, j | 0 <= i < j < |d1 + d2|
      ensures (d1 + d2)[i] != (d1 + d2)[j]
    {
      if i < |d1| && j >= |d1| {
        assert (d1 + d2)[i] in d1 && (d1 + d2)[j] == d2[j - |d1|];
      }
    }
  }

  /** The polygons listed under the arcs of a. */
  function Owners(m: ByArcMap, a: set<nat>): set<nat>
  {
    set j, b | b in a && b in m && j in m[b] :: j
  }

  lemma OwnersStep(m: ByArcMap, a: set<nat>, b: nat)
    requires b in m
    ensures Owners(m, a + {b}) == Owners(m, a) + Elems(m[b])
  {
  }

  lemma OwnersUnion(m: ByArcMap, a: set<nat>, b: set<nat>)
    ensures Owners(m, a + b) == Owners(m, a) + Owners(m, b)
  {
  }

  /** The polygons listed under the arcs of polygon q are the polygons sharing an arc with q. */
  lemma OwnersShare(ps: seq<seq<seq<int>>>, q: nat)
    requires q < |ps|
    ensures Owners(ByArc(ps), PolyArcs(ps[q])) == Nbrs(ps, q)
  {
    var m := ByArc(ps);
    forall j: nat | j in Owners(m, PolyArcs(ps[q]))
      ensures j in Nbrs(ps, q)
    {
      var b :| b in PolyArcs(ps[q]) && b in m && j in m[b];
      OwnerShares(ps, q, j, b);
    }
    forall j: nat | j in Nbrs(ps, q)
      ensures j in Owners(m, PolyArcs(ps[q]))
    {
      SharerOwns(ps, q, j);
    }
  }

  lemma OwnerShares(ps: seq<seq<seq<int>>>, q: nat, j: nat, b: nat)
    requires q < |ps| && b in PolyArcs(ps[q]) && b in ByArc(ps) && j in ByArc(ps)[b]
    ensures j in Nbrs(ps, q)
  {
    ByArcMembers(ps, b, j);
    assert b in PolyArcs(ps[q]) * PolyArcs(ps[j]);
  }

  lemma SharerOwns(ps: seq<seq<seq<int>>>, q: nat, j: nat)
    requires q < |ps| && j in Nbrs(ps, q)
    ensures j in Owners(ByArc(ps), PolyArcs(ps[q]))
  {
    var b :| b in PolyArcs(ps[q]) * PolyArcs(ps[j]);
    ByArcMembers(ps, b, j);
    OwnerOf(ByArc(ps), PolyArcs(ps[q]), b, j);
  }

  lemma OwnerOf(m: ByArcMap, a: set<nat>, b: nat, j: nat)
    requires b in a && b in m && j in m[b]
    ensures j in Owners(m, a)
  {
  }

  /** Every polygon listed under an arc of a. */
  function AllOwners(m: ByArcMap): set<nat>
  {
    Owners(m, m.Keys)
  }

  // ---------------------------------------------------------------- the search

  /** Every arc of every polygon is a key, and every listed polygon is one of ps. */
  predicate Covers(m: ByArcMap, ps: seq<seq<seq<int>>>)
  {
    (forall q :: 0 <= q < |ps| ==> PolyArcs(ps[q]) <= m.Keys) &&
    (forall a :: a in m ==> forall j :: j in m[a] ==> j < |ps|)
  }

  lemma ByArcCovers(ps: seq<seq<seq<int>>>)
    ensures Covers(ByArc(ps), ps)
  {
    forall q, a | 0 <= q < |ps| && a in PolyArcs(ps[q])
      ensures a in ByArc(ps)
    {
      ByArcMembers(ps, a, 0);
    }
    forall a, j | a in ByArc(ps) && j in ByArc(ps)[a]
      ensures j < |ps|
    {
      ByArcMembers(ps, a, j);
    }
  }

  /** The loop over `polygons_by_arc[arc]`: each listed polygon not yet marked is marked and
      pushed. */
  function VisitOwners(marked: set<nat>, stack: seq<nat>, owners: seq<nat>): (r: (set<nat>, seq<nat>))
    ensures |stack| <= |r.1| && r.1[..|stack|] == stack
    ensures r.0 == marked + Elems(owners)
    ensures Pushed(r.1[|stack|..], Elems(owners), marked)
  {
    if owners == [] then (marked, stack)
    else
      var n := |owners| - 1;
      var v := VisitOwners(marked, stack, owners[..n]);
      var q := owners[n];
      assert owners == owners[..n] + [q];
      PushedOne(v.1[|stack|..], Elems(owners[..n]), marked, q);
      if q in v.0 then v
      else
        assert (v.1 + [q])[|stack|..] == v.1[|stack|..] + [q];
        (v.0 + {q}, v.1 + [q])
  }

  /** Two visits in a row push what is new to either, once each. */
  lemma StackJoin(marked: set<nat>, stack: seq<nat>, v: (set<nat>, seq<nat>), w: (set<nat>, seq<nat>), a: set<nat>, b: set<nat>)
    requires |stack| <= |v.1| && v.1[..|stack|] == stack && v.0 == marked + a && Pushed(v.1[|stack|..], a, marked)
    requires |v.1| <= |w.1| && w.1[..|v.1|] == v.1 && w.0 == v.0 + b && Pushed(w.1[|v.1|..], b, v.0)
    ensures |stack| <= |w.1| && w.1[..|stack|] == stack && w.0 == marked + (a + b)
    ensures Pushed(w.1[|stack|..], a + b, marked)
  {
    PushedConcat(v.1[|stack|..], w.1[|v.1|..], a, b, marked);
    assert w.1[|stack|..] == v.1[|stack|..] + w.1[|v.1|..];
  }

  /** The loop over the arcs of one ring. */
  function VisitRing(m: ByArcMap, marked: set<nat>, stack: seq<nat>, refs: seq<int>): (r: (set<nat>, seq<nat>))
    requires Stitch.ArcSet(refs) <= m.Keys
    ensures |stack| <= |r.1| && r.1[..|stack|] == stack
    ensures r.0 == marked + Owners(m, Stitch.ArcSet(refs))
    ensures Pushed(r.1[|stack|..], Owners(m, Stitch.ArcSet(refs)), marked)
  {
    if refs == [] then (marked, stack)
    else
      var n := |refs| - 1;
      ArcSetStep(refs, n);
      assert refs[..n + 1] == refs;
      var a := ArcIndex(refs[n]);
      var v := VisitRing(m, marked, stack, refs[..n]);
      var w := VisitOwners(v.0, v.1, m[a]);
      OwnersStep(m, Stitch.ArcSet(refs[..n]), a);
      StackJoin(marked, stack, v, w, Owners(m, Stitch.ArcSet(refs[..n])), Elems(m[a]));
      w
  }

  /** The loop over the rings of one polygon. */
  function VisitRings(m: ByArcMap, marked: set<nat>, stack: seq<nat>, rings: seq<seq<int>>): (r: (set<nat>, seq<nat>))
    requires PolyArcs(rings) <= m.Keys
    ensures |stack| <= |r.1| && r.1[..|stack|] == stack
    ensures r.0 == marked + Owners(m, PolyArcs(rings))
    ensures Pushed(r.1[|stack|..], Owners(m, PolyArcs(rings)), marked)
  {
    if rings == [] then (marked, stack)
    else
      var n := |rings| - 1;
      var v := VisitRings(m, marked, stack, rings[..n]);
      var w := VisitRing(m, v.0, v.1, rings[n]);
      OwnersUnion(m, PolyArcs(rings[..n]), Stitch.ArcSet(rings[n]));
      StackJoin(marked, stack, v, w, Owners(m, PolyArcs(rings[..n])), Owners(m, Stitch.ArcSet(rings[n])));
      w
  }

  /** The polygon numbers below n. */
  function Ids(n: nat): (r: set<nat>)
    ensures forall j: nat :: j in r <==> j < n
  {
    if n == 0 then {} else Ids(n - 1) + {n - 1}
  }

  /** Marking a polygon below n that was not marked leaves fewer unmarked. */
  lemma Shrinks(n: nat, marked: set<nat>, added: set<nat>, x: nat)
    requires x in added && x !in marked && x < n
    ensures |Ids(n) - (marked + added)| < |Ids(n) - marked|
  {
    var a, b := Ids(n) - (marked + added), Ids(n) - marked;
    assert a <= b && x in b - a;
    assert b == a + (b - a) && a * (b - a) == {};
    assert |b - a| > 0;
  }

  /** One pass of the search pushes polygons of ps only. */
  lemma VisitBounded(ps: seq<seq<seq<int>>>, m: ByArcMap, marked: set<nat>, stack: seq<nat>, rings: seq<seq<int>>, v: (set<nat>, seq<nat>))
    requires Covers(m, ps) && PolyArcs(rings) <= m.Keys
    requires forall k :: 0 <= k < |stack| ==> stack[k] < |ps|
    requires v == VisitRings(m, marked, stack, rings)
    ensures forall k :: 0 <= k < |v.1| ==> v.1[k] < |ps|
  {
    var d := v.1[|stack|..];
    forall k | 0 <= k < |v.1|
      ensures v.1[k] < |ps|
    {
      if k >= |stack| {
        assert v.1[k] == d[k - |stack|];
        assert v.1[k] in Owners(m, PolyArcs(rings));
      } else {
        assert v.1[k] == stack[k];
      }
    }
  }

  /** ... and it either marks one more polygon or pushes nothing. */
  lemma VisitShrinks(ps: seq<seq<seq<int>>>, m: ByArcMap, marked: set<nat>, stack: seq<nat>, rings: seq<seq<int>>, v: (set<nat>, seq<nat>))
    requires Covers(m, ps) && PolyArcs(rings) <= m.Keys
    requires v == VisitRings(m, marked, stack, rings)
    ensures |Ids(|ps|) - v.0| < |Ids(|ps|) - marked| || (v.0 == marked && v.1 == stack)
  {
    var d := v.1[|stack|..];
    if d != [] {
      assert d[0] in d;
      var o := Owners(m, PolyArcs(rings));
      assert d[0] in o && d[0] !in marked;
      Shrinks(|ps|, marked, o, d[0]);
    } else {
      assert v.1 == v.1[..|stack|];
    }
  }

  /** The `while polygon` loop of `__call__`: the last polygon pushed is popped and appended
      to the group, and its unmarked neighbours are marked and pushed. */
  function Dfs(ps: seq<seq<seq<int>>>, m: ByArcMap, marked: set<nat>, group: seq<nat>, stack: seq<nat>): (r: (set<nat>, seq<nat>))
    requires Covers(m, ps)
    requires forall k :: 0 <= k < |stack| ==> stack[k] < |ps|
    requires forall k :: 0 <= k < |group| ==> group[k] < |ps|
    ensures forall k :: 0 <= k < |r.1| ==> r.1[k] < |ps|
    decreases |Ids(|ps|) - marked|, |stack|
  {
    if stack == [] then (marked, group)
    else
      var n := |stack| - 1;
      var q: nat := stack[n];
      var v := VisitRings(m, marked, stack[..n], ps[q]);
      VisitBounded(ps, m, marked, stack[..n], ps[q], v);
      VisitShrinks(ps, m, marked, stack[..n], ps[q], v);
      BelowSnoc(group, q, |ps|);
      Dfs(ps, m, v.0, group + [q], v.1)
  }

  lemma NoDupConcat(a: seq<nat>, b: seq<nat>)
    requires NoDup(a) && NoDup(b) && Elems(a) !! Elems(b)
    ensures NoDup(a + b)
  {
    forall i, j | 0 <= i < j < |a + b|
      ensures (a + b)[i] != (a + b)[j]
    {
      if i < |a| && j >= |a| {
        assert (a + b)[i] in Elems(a) && (a + b)[j] == b[j - |a|] && b[j - |a|] in Elems(b);
      }
    }
  }

  /** What holds of the search from root, started with the marks m0, before every pass: the
      group and the stack hold distinct polygons, all reachable from root avoiding m0, and
      exactly those are marked besides m0; every neighbour of a polygon in the group is
      marked; root is the first one taken. */
  ghost predicate DfsInv(ps: seq<seq<seq<int>>>, m0: set<nat>, root: nat, marked: set<nat>, group: seq<nat>, stack: seq<nat>)
  {
    && NoDup(group) && NoDup(stack) && Elems(group) !! Elems(stack)
    && (forall x :: x in group ==> x < |ps| && x !in m0 && Reach(ps, m0, root, x))
    && (forall x :: x in stack ==> x < |ps| && x !in m0 && Reach(ps, m0, root, x))
    && marked == m0 + Elems(group) + Elems(stack)
    && (forall x :: x in group ==> Nbrs(ps, x) <= marked)
    && (if group == [] then stack == [root] else group[0] == root)
  }

  /** One pass keeps the invariant, for any d that lists the unmarked neighbours of the
      popped polygon once each. */
  lemma DfsPass(ps: seq<seq<seq<int>>>, m0: set<nat>, root: nat, marked: set<nat>, group: seq<nat>, stack: seq<nat>, d: seq<nat>)
    requires stack != [] && DfsInv(ps, m0, root, marked, group, stack)
    requires Pushed(d, Nbrs(ps, stack[|stack| - 1]), marked)
    ensures DfsInv(ps, m0, root, marked + Nbrs(ps, stack[|stack| - 1]), group + [stack[|stack| - 1]], stack[..|stack| - 1] + d)
  {
    var n := |stack| - 1;
    var q := stack[n];
    assert Elems(d) == Nbrs(ps, q) - marked;
    PopDistinct(group, stack, d, marked);
    PopReach(ps, m0, root, marked, group, stack, d);
    assert q in stack;
  }

  /** Popping the top of the stack onto the group and pushing the new polygons d keeps both
      free of repeats and apart. */
  lemma PopDistinct(group: seq<nat>, stack: seq<nat>, d: seq<nat>, marked: set<nat>)
    requires stack != [] && NoDup(group) && NoDup(stack) && Elems(group) !! Elems(stack)
    requires NoDup(d) && Elems(d) !! marked && Elems(group) + Elems(stack) <= marked
    ensures var n := |stack| - 1;
            NoDup(group + [stack[n]]) && NoDup(stack[..n] + d) && Elems(group + [stack[n]]) !! Elems(stack[..n] + d)
    ensures var n := |stack| - 1;
            Elems(group + [stack[n]]) + Elems(stack[..n] + d) == Elems(group) + Elems(stack) + Elems(d)
  {
    var n := |stack| - 1;
    var q := stack[n];
    var rest := stack[..n];
    assert stack == rest + [q];
    assert Elems(stack) == Elems(rest) + {q};
    assert NoDup(rest) && q !in rest;
    NoDupConcat(rest, d);
    NoDupConcat(group, [q]);
    assert Elems(group + [q]) == Elems(group) + {q};
    assert Elems(rest + d) == Elems(rest) + Elems(d);
  }

  /** What the pass puts on the group or the stack is reachable from root, avoiding m0. */
  lemma PopReach(ps: seq<seq<seq<int>>>, m0: set<nat>, root: nat, marked: set<nat>, group: seq<nat>, stack: seq<nat>, d: seq<nat>)
    requires stack != [] && m0 <= marked
    requires forall x :: x in group ==> x < |ps| && x !in m0 && Reach(ps, m0, root, x)
    requires forall x :: x in stack ==> x < |ps| && x !in m0 && Reach(ps, m0, root, x)
    requires forall x :: x in d ==> x in Nbrs(ps, stack[|stack| - 1]) && x !in marked
    ensures forall x :: x in group + [stack[|stack| - 1]] ==> x < |ps| && x !in m0 && Reach(ps, m0, root, x)
    ensures forall x :: x in stack[..|stack| - 1] + d ==> x < |ps| && x !in m0 && Reach(ps, m0, root, x)
  {
    var n := |stack| - 1;
    var q := stack[n];
    assert q in stack;
    forall x | x in stack[..n] + d
      ensures x < |ps| && x !in m0 && Reach(ps, m0, root, x)
    {
      if x in d {
        ReachExtend(ps, m0, root, q, x);
      } else {
        assert x in stack;
      }
    }
  }

  lemma DfsStep(ps: seq<seq<seq<int>>>, m0: set<nat>, root: nat, marked: set<nat>, group: seq<nat>, stack: seq<nat>, v: (set<nat>, seq<nat>))
    requires Covers(ByArc(ps), ps) && stack != []
    requires forall k :: 0 <= k < |stack| ==> stack[k] < |ps|
    requires DfsInv(ps, m0, root, marked, group, stack)
    requires v == VisitRings(ByArc(ps), marked, stack[..|stack| - 1], ps[stack[|stack| - 1]])
    ensures DfsInv(ps, m0, root, v.0, group + [stack[|stack| - 1]], v.1)
  {
    var n := |stack| - 1;
    VisitNbrs(ps, marked, stack[..n], stack[n], v);
    DfsPass(ps, m0, root, marked, group, stack, v.1[n..]);
  }

  /** Visiting polygon q marks its neighbours and pushes the ones not marked before. */
  lemma VisitNbrs(ps: seq<seq<seq<int>>>, marked: set<nat>, rest: seq<nat>, q: nat, v: (set<nat>, seq<nat>))
    requires Covers(ByArc(ps), ps) && q < |ps|
    requires v == VisitRings(ByArc(ps), marked, rest, ps[q])
    ensures v.1 == rest + v.1[|rest|..]
    ensures v.0 == marked + Nbrs(ps, q) && Pushed(v.1[|rest|..], Nbrs(ps, q), marked)
  {
    OwnersShare(ps, q);
    assert v.1 == v.1[..|rest|] + v.1[|rest|..];
  }

  /** Appending to a list that extends another extends the longer one. */
  lemma SnocAssoc<T>(a: seq<T>, b: seq<T>, c: seq<T>, x: T)
    requires c == a + b
    ensures c + [x] == a + (b + [x])
  {
  }

  lemma BelowSnoc(s: seq<nat>, x: nat, n: nat)
    requires (forall k :: 0 <= k < |s| ==> s[k] < n) && x < n
    ensures forall k :: 0 <= k < |s + [x]| ==> (s + [x])[k] < n
  {
  }

  /** The search keeps the invariant to the end. */
  lemma {:induction false} DfsResult(ps: seq<seq<seq<int>>>, m0: set<nat>, root: nat, marked: set<nat>, group: seq<nat>, stack: seq<nat>, r: (set<nat>, seq<nat>))
    requires Covers(ByArc(ps), ps)
    requires forall k :: 0 <= k < |stack| ==> stack[k] < |ps|
    requires forall k :: 0 <= k < |group| ==> group[k] < |ps|
    requires DfsInv(ps, m0, root, marked, group, stack)
    requires r == Dfs(ps, ByArc(ps), marked, group, stack)
    ensures DfsInv(ps, m0, root, r.0, r.1, [])
    decreases |Ids(|ps|) - marked|, |stack|
  {
    if stack != [] {
      var m := ByArc(ps);
      var n := |stack| - 1;
      var q: nat := stack[n];
      var v := VisitRings(m, marked, stack[..n], ps[q]);
      var g: seq<nat> := group + [q];
      VisitBounded(ps, m, marked, stack[..n], ps[q], v);
      VisitShrinks(ps, m, marked, stack[..n], ps[q], v);
      DfsStep(ps, m0, root, marked, group, stack, v);
      BelowSnoc(group, q, |ps|);
      DfsUnfold(ps, m, marked, group, stack);
      DfsResult(ps, m0, root, v.0, g, v.1, r);
    }
  }

  /** One pass of the search, then the rest. */
  lemma DfsUnfold(ps: seq<seq<seq<int>>>, m: ByArcMap, marked: set<nat>, group: seq<nat>, stack: seq<nat>)
    requires Covers(m, ps) && stack != []
    requires forall k :: 0 <= k < |stack| ==> stack[k] < |ps|
    requires forall k :: 0 <= k < |group| ==> group[k] < |ps|
    ensures var n := |stack| - 1;
            var v := VisitRings(m, marked, stack[..n], ps[stack[n]]);
            (forall k :: 0 <= k < |v.1| ==> v.1[k] < |ps|) && (forall k :: 0 <= k < |group + [stack[n]]| ==> (group + [stack[n]])[k] < |ps|) &&
            Dfs(ps, m, marked, group, stack) == Dfs(ps, m, v.0, group + [stack[n]], v.1)
  {
    var n := |stack| - 1;
    var v := VisitRings(m, marked, stack[..n], ps[stack[n]]);
    VisitBounded(ps, m, marked, stack[..n], ps[stack[n]], v);
    BelowSnoc(group, stack[n], |ps|);
  }

  /** The search of `__call__` from an unmarked root: the group holds, once each and root
      first, exactly the polygons that a chain of shared arcs avoiding the marked ones reaches
      from root; it marks exactly those, and every neighbour of the group is marked. */
  lemma DfsComponent(ps: seq<seq<seq<int>>>, m0: set<nat>, root: nat, r: (set<nat>, seq<nat>))
    requires root < |ps| && root !in m0 && Covers(ByArc(ps), ps)
    requires r == Dfs(ps, ByArc(ps), m0 + {root}, [], [root])
    ensures NoDup(r.1) && r.1 != [] && r.1[0] == root && r.0 == m0 + Elems(r.1)
    ensures forall x :: x in r.1 <==> Reach(ps, m0, root, x)
    ensures forall x :: x in r.1 ==> Nbrs(ps, x) <= r.0
  {
    ReachRoot(ps, m0, root);
    assert Elems([root]) == {root};
    DfsResult(ps, m0, root, m0 + {root}, [], [root], r);
    forall x | Reach(ps, m0, root, x)
      ensures x in r.1
    {
      ReachInside(ps, m0, Elems(r.1), root, x);
    }
  }

  // ---------------------------------------------------------------- grouping

  /** An entry of `polygons`: still the polygon dict of that number, or the list of rings it
      was replaced by. */
  datatype Entry = Dict | Listed(rings: seq<seq<int>>)

  /** `[point[0], point[1]]` when the dict has key 1, else `[point[0]]`: the first two rings,
      or the only one. A polygon without rings has no key 0: KeyError. */
  function Trunc(rings: seq<seq<int>>): (r: Result<seq<seq<int>>>)
    ensures r.Fail? <==> rings == []
    ensures r.Fail? ==> r.error == KeyError
    ensures r.Ok? ==> |r.value| == (if |rings| >= 2 then 2 else 1) && r.value == rings[..|r.value|]
  {
    if rings == [] then Fail(KeyError)
    else if 1 < |rings| then Ok([rings[0], rings[1]])
    else Ok([rings[0]])
  }

  /** The loop `for idx, point in enumerate(group)`: every polygon of the group truncated. */
  function TruncAll(ps: seq<seq<seq<int>>>, g: seq<nat>): (r: Result<seq<seq<seq<int>>>>)
    requires forall k :: 0 <= k < |g| ==> g[k] < |ps|
    ensures r.Ok? <==> forall k :: 0 <= k < |g| ==> ps[g[k]] != []
    ensures r.Fail? ==> r.error == KeyError
    ensures r.Ok? ==> |r.value| == |g| && forall k :: 0 <= k < |g| ==> Trunc(ps[g[k]]) == Ok(r.value[k])
  {
    if g == [] then Ok([])
    else
      var n := |g| - 1;
      assert forall k :: 0 <= k < n ==> g[..n][k] == g[k];
      var front :- TruncAll(ps, g[..n]);
      var last :- Trunc(ps[g[n]]);
      Ok(front + [last])
  }

  /** The outer loop of `__call__` so far: the marks, each group as polygon numbers and as
      truncated rings. */
  datatype Grouped = Grouped(marked: set<nat>, ids: seq<seq<nat>>, groups: seq<seq<seq<seq<int>>>>)

  /** One entry of `self.polygons`: a list has no "_" and cannot take one (TypeError); an
      unmarked dict starts a new group. */
  function GroupStep(ps: seq<seq<seq<int>>>, m: ByArcMap, polys: seq<Entry>, g: Grouped, t: nat): Result<Grouped>
    requires Covers(m, ps) && t < |polys| == |ps|
  {
    match polys[t]
    case Listed(_) => Fail(TypeError)
    case Dict =>
      if t in g.marked then Ok(g)
      else
        var r := Dfs(ps, m, g.marked + {t}, [], [t]);
        var rings :- TruncAll(ps, r.1);
        Ok(Grouped(r.0, g.ids + [r.1], g.groups + [rings]))
  }

  function GroupsUpTo(ps: seq<seq<seq<int>>>, m: ByArcMap, polys: seq<Entry>, marked: set<nat>, t: nat): Result<Grouped>
    requires Covers(m, ps) && |polys| == |ps| && t <= |ps|
  {
    if t == 0 then Ok(Grouped(marked, [], []))
    else
      var g :- GroupsUpTo(ps, m, polys, marked, t - 1);
      GroupStep(ps, m, polys, g, t - 1)
  }

  /** The loop up to t is the loop up to t - 1 and one more step. */
  lemma GroupsUnfold(ps: seq<seq<seq<int>>>, m: ByArcMap, polys: seq<Entry>, marked: set<nat>, t: nat, g: Result<Grouped>, r: Result<Grouped>)
    requires Covers(m, ps) && |polys| == |ps| && 0 < t <= |ps|
    requires g == GroupsUpTo(ps, m, polys, marked, t - 1) && r == GroupsUpTo(ps, m, polys, marked, t)
    ensures g.Fail? ==> r == Fail(g.error)
    ensures g.Ok? ==> r == GroupStep(ps, m, polys, g.value, t - 1)
  {
  }

  /** One step of the outer loop at an unmarked dict, from the search and the truncation. */
  lemma GroupStepNew(ps: seq<seq<seq<int>>>, m: ByArcMap, polys: seq<Entry>, g: Grouped, t: nat,
                     d: (set<nat>, seq<nat>), rings: Result<seq<seq<seq<int>>>>)
    requires Covers(m, ps) && t < |polys| == |ps| && polys[t] == Dict && t !in g.marked
    requires d == Dfs(ps, m, g.marked + {t}, [], [t]) && rings == TruncAll(ps, d.1)
    ensures GroupStep(ps, m, polys, g, t) == if rings.Fail? then Fail(rings.error) else Ok(Grouped(d.0, g.ids + [d.1], g.groups + [rings.value]))
  {
  }

  lemma {:induction false} GroupsFails(ps: seq<seq<seq<int>>>, m: ByArcMap, polys: seq<Entry>, marked: set<nat>, t: nat)
    requires Covers(m, ps) && |polys| == |ps| && t <= |ps|
    requires GroupsUpTo(ps, m, polys, marked, t).Fail?
    ensures GroupsUpTo(ps, m, polys, marked, |ps|) == Fail(GroupsUpTo(ps, m, polys, marked, t).error)
    decreases |ps| - t
  {
    if t < |ps| {
      GroupsFails(ps, m, polys, marked, t + 1);
    }
  }

  /** The union of the groups. */
  function Union(ids: seq<seq<nat>>): set<nat>
  {
    if ids == [] then {} else Union(ids[..|ids| - 1]) + Elems(ids[|ids| - 1])
  }

  lemma {:induction false} UnionMembers(ids: seq<seq<nat>>, x: nat)
    ensures x in Union(ids) <==> exists i :: 0 <= i < |ids| && x in ids[i]
  {
    if ids != [] {
      var n := |ids| - 1;
      UnionMembers(ids[..n], x);
      assert forall i :: 0 <= i < n ==> ids[..n][i] == ids[i];
      if x in ids[n] {
        assert exists i :: 0 <= i < |ids| && x in ids[i];
      }
    }
  }

  /** What the loop has built over the first t dicts of a fresh instance: the groups are
      disjoint, each holds once each the polygons connected to its first polygon, which is its
      least, and is closed under sharing; the first polygons increase, exactly the grouped
      polygons are marked, and every polygon before t is grouped. */
  ghost predicate Components(ps: seq<seq<seq<int>>>, g: Grouped, t: nat)
  {
    match g
    case Grouped(marked, ids, groups) =>
      marked == Union(ids) && Ids(t) <= marked && marked <= Ids(|ps|) &&
      Shaped(ps, ids, groups, t) && Linked(ps, ids) && Apart(ids)
  }

  /** Each group is a non-empty list without repeats of polygons of ps, started before t, and
      its truncated rings are recorded beside it. */
  predicate Shaped(ps: seq<seq<seq<int>>>, ids: seq<seq<nat>>, groups: seq<seq<seq<seq<int>>>>, t: nat)
  {
    && |groups| == |ids|
    && (forall i :: 0 <= i < |ids| ==> ids[i] != [] && NoDup(ids[i]) && ids[i][0] < t)
    && (forall i, k :: 0 <= i < |ids| && 0 <= k < |ids[i]| ==> ids[i][k] < |ps|)
    && (forall i :: 0 <= i < |ids| ==> TruncAll(ps, ids[i]) == Ok(groups[i]))
  }

  /** Each group is the set of the polygons connected to its first, which is its least, and
      is closed under sharing. */
  ghost predicate Linked(ps: seq<seq<seq<int>>>, ids: seq<seq<nat>>)
  {
    && (forall i :: 0 <= i < |ids| ==> ids[i] != [])
    && (forall i, x :: 0 <= i < |ids| && x in ids[i] ==> Connected(ps, ids[i][0], x) && ids[i][0] <= x)
    && (forall i, x :: 0 <= i < |ids| && Connected(ps, ids[i][0], x) ==> x in ids[i])
    && (forall i, x :: 0 <= i < |ids| && x in ids[i] ==> Nbrs(ps, x) <= Elems(ids[i]))
  }

  /** Distinct groups are disjoint, their first polygons increasing. */
  predicate Apart(ids: seq<seq<nat>>)
  {
    && (forall i :: 0 <= i < |ids| ==> ids[i] != [])
    && (forall i, j :: 0 <= i < j < |ids| ==> Elems(ids[i]) !! Elems(ids[j]) && ids[i][0] < ids[j][0])
  }

  lemma UnionHas(ids: seq<seq<nat>>, i: nat)
    requires i < |ids|
    ensures Elems(ids[i]) <= Union(ids)
  {
    forall x | x in ids[i]
      ensures x in Union(ids)
    {
      UnionMembers(ids, x);
    }
  }

  /** A chain ends outside the set it avoids. */
  lemma ReachAvoids(ps: seq<seq<seq<int>>>, m: set<nat>, r: nat, x: nat)
    requires Reach(ps, m, r, x)
    ensures x < |ps| && x !in m
  {
    var p: seq<nat> :| Path(ps, m, p) && p[0] == r && p[|p| - 1] == x;
    assert p[|p| - 1] in p;
  }

  /** The grouped polygons are closed under sharing. */
  lemma ComponentsClosed(ps: seq<seq<seq<int>>>, g: Grouped, t: nat)
    requires Components(ps, g, t)
    ensures forall q :: q in g.marked ==> Nbrs(ps, q) <= g.marked
  {
    forall q | q in g.marked
      ensures Nbrs(ps, q) <= g.marked
    {
      UnionMembers(g.ids, q);
      var i :| 0 <= i < |g.ids| && q in g.ids[i];
      UnionHas(g.ids, i);
    }
  }

  /** From an ungrouped polygon, avoiding the grouped ones changes nothing. */
  lemma WidenGrouped(ps: seq<seq<seq<int>>>, g: Grouped, t: nat)
    requires Components(ps, g, t) && t !in g.marked
    ensures forall x :: Reach(ps, g.marked, t, x) <==> Connected(ps, t, x)
  {
    ComponentsClosed(ps, g, t);
    assert {} + g.marked == g.marked;
    forall x
      ensures Reach(ps, g.marked, t, x) <==> Connected(ps, t, x)
    {
      ReachWiden(ps, {}, g.marked, t, x);
    }
  }

  /** The group the search builds from the first ungrouped polygon t: t first, once each,
      exactly the polygons connected to t, all at t or after it, none grouped before, and
      closed under sharing. */
  lemma NewGroup(ps: seq<seq<seq<int>>>, g: Grouped, t: nat, r: (set<nat>, seq<nat>))
    requires Components(ps, g, t) && t < |ps| && t !in g.marked && Covers(ByArc(ps), ps)
    requires r == Dfs(ps, ByArc(ps), g.marked + {t}, [], [t])
    ensures NoDup(r.1) && r.1 != [] && r.1[0] == t && r.0 == g.marked + Elems(r.1)
    ensures forall x :: x in r.1 ==> x < |ps| && x !in g.marked && t <= x && Connected(ps, t, x)
    ensures forall x :: Connected(ps, t, x) ==> x in r.1
    ensures forall x :: x in r.1 ==> Nbrs(ps, x) <= Elems(r.1)
  {
    WidenGrouped(ps, g, t);
    ComponentsClosed(ps, g, t);
    NewGroupOf(ps, g.marked, t, r);
  }

  /** The same, from the two facts about the grouped polygons it needs. */
  lemma NewGroupOf(ps: seq<seq<seq<int>>>, marked: set<nat>, t: nat, r: (set<nat>, seq<nat>))
    requires t < |ps| && t !in marked && Ids(t) <= marked && Covers(ByArc(ps), ps)
    requires forall x :: Reach(ps, marked, t, x) <==> Connected(ps, t, x)
    requires forall q :: q in marked ==> Nbrs(ps, q) <= marked
    requires r == Dfs(ps, ByArc(ps), marked + {t}, [], [t])
    ensures NoDup(r.1) && r.1 != [] && r.1[0] == t && r.0 == marked + Elems(r.1)
    ensures forall x :: x in r.1 ==> x < |ps| && x !in marked && t <= x && Connected(ps, t, x)
    ensures forall x :: Connected(ps, t, x) ==> x in r.1
    ensures forall x :: x in r.1 ==> Nbrs(ps, x) <= Elems(r.1)
  {
    DfsComponent(ps, marked, t, r);
    forall x | x in r.1
      ensures x < |ps| && x !in marked && t <= x
    {
      ReachAvoids(ps, marked, t, x);
    }
    forall x, y | x in r.1 && y in Nbrs(ps, x)
      ensures y in r.1
    {
      SharesSymmetric(ps, x, y);
    }
  }

  lemma AddShaped(ps: seq<seq<seq<int>>>, ids: seq<seq<nat>>, groups: seq<seq<seq<seq<int>>>>, t: nat, d: seq<nat>, rings: seq<seq<seq<int>>>)
    requires Shaped(ps, ids, groups, t) && d != [] && NoDup(d) && d[0] == t
    requires forall k :: 0 <= k < |d| ==> d[k] < |ps|
    requires TruncAll(ps, d) == Ok(rings)
    ensures Shaped(ps, ids + [d], groups + [rings], t + 1)
  {
    var ids', gs, n := ids + [d], groups + [rings], |ids|;
    forall i | 0 <= i < |ids'|
      ensures ids'[i] != [] && NoDup(ids'[i]) && ids'[i][0] < t + 1
      ensures forall k :: 0 <= k < |ids'[i]| ==> ids'[i][k] < |ps|
      ensures TruncAll(ps, ids'[i]) == Ok(gs[i])
    {
      if i < n {
        assert ids'[i] == ids[i] && gs[i] == groups[i];
      }
    }
  }

  lemma AddLinked(ps: seq<seq<seq<int>>>, ids: seq<seq<nat>>, d: seq<nat>)
    requires Linked(ps, ids) && d != []
    requires forall x :: x in d ==> Connected(ps, d[0], x) && d[0] <= x && Nbrs(ps, x) <= Elems(d)
    requires forall x :: Connected(ps, d[0], x) ==> x in d
    ensures Linked(ps, ids + [d])
  {
    var ids', n := ids + [d], |ids|;
    forall i, x | 0 <= i < |ids'| && x in ids'[i]
      ensures Connected(ps, ids'[i][0], x) && ids'[i][0] <= x && Nbrs(ps, x) <= Elems(ids'[i])
    {
      if i < n {
        assert ids'[i] == ids[i];
      }
    }
    forall i, x | 0 <= i < |ids'| && Connected(ps, ids'[i][0], x)
      ensures x in ids'[i]
    {
      if i < n {
        assert ids'[i] == ids[i];
      }
    }
  }

  lemma AddApart(ids: seq<seq<nat>>, d: seq<nat>, marked: set<nat>)
    requires Apart(ids) && d != [] && Elems(d) !! marked
    requires forall i :: 0 <= i < |ids| ==> Elems(ids[i]) <= marked && ids[i][0] < d[0]
    ensures Apart(ids + [d])
  {
    var ids', n := ids + [d], |ids|;
    forall i, j | 0 <= i < j < |ids'|
      ensures Elems(ids'[i]) !! Elems(ids'[j]) && ids'[i][0] < ids'[j][0]
    {
      assert ids'[i] == ids[i];
      if j < n {
        assert ids'[j] == ids[j];
      }
    }
  }

  /** Adding the group of the first ungrouped polygon t keeps the invariant, one further. */
  lemma AddGroup(ps: seq<seq<seq<int>>>, g: Grouped, t: nat, r: (set<nat>, seq<nat>), rings: seq<seq<seq<int>>>)
    requires Components(ps, g, t) && t < |ps| && t !in g.marked && Covers(ByArc(ps), ps)
    requires r == Dfs(ps, ByArc(ps), g.marked + {t}, [], [t])
    requires TruncAll(ps, r.1) == Ok(rings)
    ensures Components(ps, Grouped(r.0, g.ids + [r.1], g.groups + [rings]), t + 1)
  {
    NewGroup(ps, g, t, r);
    var ids := g.ids + [r.1];
    assert ids[..|g.ids|] == g.ids;
    assert Union(ids) == r.0;
    assert t in r.1;
    AddShaped(ps, g.ids, g.groups, t, r.1, rings);
    AddLinked(ps, g.ids, r.1);
    forall i | 0 <= i < |g.ids|
      ensures Elems(g.ids[i]) <= g.marked
    {
      UnionHas(g.ids, i);
    }
    AddApart(g.ids, r.1, g.marked);
  }

  /** Every entry a dict: the state of a fresh instance. */
  predicate AllDicts(polys: seq<Entry>)
  {
    forall k :: 0 <= k < |polys| ==> polys[k] == Dict
  }

  /** On a fresh instance the loop keeps the invariant. Here and in the step lemmas below the
      invariant is compared with `true`, so that it is handed on as one fact rather than
      conjunct by conjunct. */
  lemma {:induction false} GroupsComponents(ps: seq<seq<seq<int>>>, m: ByArcMap, polys: seq<Entry>, t: nat, r: Result<Grouped>)
    requires m == ByArc(ps) && Covers(m, ps) && |polys| == |ps| && AllDicts(polys) && t <= |ps|
    requires r == GroupsUpTo(ps, m, polys, {}, t)
    ensures r.Ok? ==> Components(ps, r.value, t) == true
  {
    if t > 0 {
      var g0 := GroupsUpTo(ps, m, polys, {}, t - 1);
      GroupsComponents(ps, m, polys, t - 1, g0);
      GroupsComponentsStep(ps, m, polys, t, g0, r);
    } else {
      ComponentsNone(ps);
    }
  }

  /** The loop up to t keeps the invariant when the loop up to t - 1 does. */
  lemma GroupsComponentsStep(ps: seq<seq<seq<int>>>, m: ByArcMap, polys: seq<Entry>, t: nat, g0: Result<Grouped>, r: Result<Grouped>)
    requires m == ByArc(ps) && Covers(m, ps) && |polys| == |ps| && AllDicts(polys) && 0 < t <= |ps|
    requires g0 == GroupsUpTo(ps, m, polys, {}, t - 1) && r == GroupsUpTo(ps, m, polys, {}, t)
    requires g0.Ok? ==> Components(ps, g0.value, t - 1) == true
    ensures r.Ok? ==> Components(ps, r.value, t) == true
  {
    GroupsUnfold(ps, m, polys, {}, t, g0, r);
    if g0.Ok? {
      ComponentsStep(ps, m, polys, t - 1, g0.value, r);
    }
  }

  /** On a fresh instance the loop fails, with KeyError, only when some polygon has no
      rings; when each has one it does not fail. */
  lemma {:induction false} GroupsErrors(ps: seq<seq<seq<int>>>, polys: seq<Entry>, t: nat, r: Result<Grouped>)
    requires Covers(ByArc(ps), ps) && |polys| == |ps| && AllDicts(polys) && t <= |ps|
    requires r == GroupsUpTo(ps, ByArc(ps), polys, {}, t)
    ensures r.Fail? ==> r.error == KeyError && exists q :: 0 <= q < |ps| && ps[q] == []
    ensures (forall q :: 0 <= q < |ps| ==> ps[q] != []) ==> r.Ok?
  {
    if t > 0 {
      var g0 := GroupsUpTo(ps, ByArc(ps), polys, {}, t - 1);
      GroupsErrors(ps, polys, t - 1, g0);
      GroupsUnfold(ps, ByArc(ps), polys, {}, t, g0, r);
      if g0.Ok? {
        StepErrors(ps, polys, t - 1, g0.value, r);
      }
    }
  }

  /** One step fails only with KeyError, at a polygon without rings. */
  lemma StepErrors(ps: seq<seq<seq<int>>>, polys: seq<Entry>, t: nat, g: Grouped, r: Result<Grouped>)
    requires Covers(ByArc(ps), ps) && |polys| == |ps| && AllDicts(polys) && t < |ps|
    requires r == GroupStep(ps, ByArc(ps), polys, g, t)
    ensures r.Fail? ==> r.error == KeyError && exists q :: 0 <= q < |ps| && ps[q] == []
  {
    assert polys[t] == Dict;
    if t !in g.marked {
      var d := Dfs(ps, ByArc(ps), g.marked + {t}, [], [t]);
      var rings := TruncAll(ps, d.1);
      if rings.Fail? {
        var k :| 0 <= k < |d.1| && ps[d.1[k]] == [];
      }
    }
  }

  /** Before the loop nothing is grouped. */
  lemma ComponentsNone(ps: seq<seq<seq<int>>>)
    ensures Components(ps, Grouped({}, [], []), 0)
  {
    assert Ids(0) == {};
  }

  /** One step of the loop on a fresh instance keeps the invariant. */
  lemma ComponentsStep(ps: seq<seq<seq<int>>>, m: ByArcMap, polys: seq<Entry>, t: nat, g: Grouped, r: Result<Grouped>)
    requires m == ByArc(ps) && Covers(m, ps) && |polys| == |ps| && AllDicts(polys) && t < |ps|
    requires Components(ps, g, t) == true
    requires r == GroupStep(ps, m, polys, g, t)
    ensures r.Ok? ==> Components(ps, r.value, t + 1)
  {
    assert polys[t] == Dict;
    if t !in g.marked {
      ComponentsNew(ps, g, t);
    } else {
      ComponentsSkip(ps, g, t);
    }
  }

  /** An ungrouped polygon adds its group. */
  lemma ComponentsNew(ps: seq<seq<seq<int>>>, g: Grouped, t: nat)
    requires Components(ps, g, t) && t < |ps| && t !in g.marked && Covers(ByArc(ps), ps)
    ensures var d := Dfs(ps, ByArc(ps), g.marked + {t}, [], [t]);
            var rings := TruncAll(ps, d.1);
            rings.Ok? ==> Components(ps, Grouped(d.0, g.ids + [d.1], g.groups + [rings.value]), t + 1)
  {
    var d := Dfs(ps, ByArc(ps), g.marked + {t}, [], [t]);
    var rings := TruncAll(ps, d.1);
    if rings.Ok? {
      AddGroup(ps, g, t, d, rings.value);
    }
  }

  /** A polygon already grouped adds nothing. */
  lemma ComponentsSkip(ps: seq<seq<seq<int>>>, g: Grouped, t: nat)
    requires Components(ps, g, t) && t in g.marked
    ensures Components(ps, g, t + 1)
  {
    assert Ids(t + 1) == Ids(t) + {t};
  }

  /** Once every dict is visited, each polygon is in a group, ... */
  lemma Covered(ps: seq<seq<seq<int>>>, g: Grouped)
    requires Components(ps, g, |ps|)
    ensures forall x :: x in Ids(|ps|) ==> exists i :: 0 <= i < |g.ids| && x in g.ids[i]
  {
    forall x | x in Ids(|ps|)
      ensures exists i :: 0 <= i < |g.ids| && x in g.ids[i]
    {
      UnionMembers(g.ids, x);
    }
  }

  /** ... two polygons are in the same group exactly when a chain of shared arcs joins them
      (so each polygon is in one group only), ... */
  lemma SameGroup(ps: seq<seq<seq<int>>>, g: Grouped)
    requires Linked(ps, g.ids) && Apart(g.ids)
    ensures forall i, j, x, y :: 0 <= i < |g.ids| && 0 <= j < |g.ids| && x in g.ids[i] && y in g.ids[j] ==>
              (i == j <==> Connected(ps, x, y))
  {
    forall i, j, x, y | 0 <= i < |g.ids| && 0 <= j < |g.ids| && x in g.ids[i] && y in g.ids[j]
      ensures i == j <==> Connected(ps, x, y)
    {
      var a := g.ids[i][0];
      if i == j {
        ConnectedSymmetric(ps, a, x);
        ConnectedTransitive(ps, x, a, y);
      }
      if Connected(ps, x, y) {
        ConnectedTransitive(ps, a, x, y);
        assert y in Elems(g.ids[i]) * Elems(g.ids[j]);
      }
    }
  }

  /** ... and no polygon lacks rings. */
  lemma RingsPresent(ps: seq<seq<seq<int>>>, g: Grouped)
    requires Components(ps, g, |ps|)
    ensures forall x :: 0 <= x < |ps| ==> ps[x] != []
  {
    Covered(ps, g);
    forall x | 0 <= x < |ps|
      ensures ps[x] != []
    {
      assert x in Ids(|ps|);
      var i :| 0 <= i < |g.ids| && x in g.ids[i];
      var k :| 0 <= k < |g.ids[i]| && g.ids[i][k] == x;
      assert TruncAll(ps, g.ids[i]).Ok?;
    }
  }

  /** The grouping loop of `__call__` on a fresh instance: it fails, with KeyError, exactly
      when some polygon has no rings; otherwise its groups partition the polygons into the
      classes of connection through shared arcs, and each group's rings are its polygons'
      rings truncated to two. */
  lemma Grouping(ps: seq<seq<seq<int>>>, polys: seq<Entry>, r: Result<Grouped>)
    requires Covers(ByArc(ps), ps) && |polys| == |ps| && AllDicts(polys)
    requires r == GroupsUpTo(ps, ByArc(ps), polys, {}, |ps|)
    ensures r.Ok? <==> forall q :: 0 <= q < |ps| ==> ps[q] != []
    ensures r.Fail? ==> r.error == KeyError
    ensures r.Ok? ==> Components(ps, r.value, |ps|)
    ensures r.Ok? ==> forall x :: x in Ids(|ps|) ==> exists i :: 0 <= i < |r.value.ids| && x in r.value.ids[i]
    ensures r.Ok? ==> forall i, j, x, y ::
              0 <= i < |r.value.ids| && 0 <= j < |r.value.ids| && x in r.value.ids[i] && y in r.value.ids[j] ==>
              (i == j <==> Connected(ps, x, y))
  {
    GroupsComponents(ps, ByArc(ps), polys, |ps|, r);
    GroupsErrors(ps, polys, |ps|, r);
    if r.Ok? {
      Covered(ps, r.value);
      SameGroup(ps, r.value);
      RingsPresent(ps, r.value);
    }
  }

  /** A failed grouping loop at t leaves the loop failed with the same error. */
  lemma {:induction false} ListedFails(ps: seq<seq<seq<int>>>, m: ByArcMap, polys: seq<Entry>, marked: set<nat>, t: nat)
    requires Covers(m, ps) && |polys| == |ps| && t < |ps| && polys[t].Listed?
    ensures GroupsUpTo(ps, m, polys, marked, |ps|).Fail?
  {
    GroupsFails(ps, m, polys, marked, t + 1);
  }

  // ---------------------------------------------------------------- listing and unmarking

  /** One entry of the loop that replaces `self.polygons[idx]`: a dict by its first two rings
      (KeyError without rings); a list, which never has 1 as a member, by its first ring
      (IndexError when empty). */
  function ListEntry(rings: seq<seq<int>>, e: Entry): (r: Result<Entry>)
    ensures r.Ok? ==> r.value.Listed?
    ensures e.Dict? ==> r == (match Trunc(rings) case Ok(rs) => Ok(Listed(rs)) case Fail(err) => Fail(err))
    ensures e.Listed? ==> (r.Ok? <==> e.rings != []) && (r.Ok? ==> r.value.rings == e.rings[..1])
  {
    match e
    case Dict =>
      var rs :- Trunc(rings);
      Ok(Listed(rs))
    case Listed(rs) =>
      if rs == [] then Fail(IndexError) else Ok(Listed([rs[0]]))
  }

  /** The whole loop, entry by entry; the first failure wins. */
  function ListAll(ps: seq<seq<seq<int>>>, polys: seq<Entry>): (r: Result<seq<Entry>>)
    requires |polys| <= |ps|
    ensures r.Ok? <==> forall k :: 0 <= k < |polys| ==> ListEntry(ps[k], polys[k]).Ok?
    ensures r.Ok? ==> |r.value| == |polys| && forall k :: 0 <= k < |polys| ==> ListEntry(ps[k], polys[k]) == Ok(r.value[k])
  {
    if polys == [] then Ok([])
    else
      var n := |polys| - 1;
      var front :- ListAll(ps, polys[..n]);
      var last :- ListEntry(ps[n], polys[n]);
      Ok(front + [last])
  }

  /** On a fresh instance every polygon is replaced by its rings truncated to two. */
  lemma ListDicts(ps: seq<seq<seq<int>>>, polys: seq<Entry>)
    requires |polys| == |ps| && AllDicts(polys)
    requires forall q :: 0 <= q < |ps| ==> ps[q] != []
    ensures ListAll(ps, polys).Ok?
    ensures forall k :: 0 <= k < |ps| ==> ListAll(ps, polys).value[k] == Listed(Trunc(ps[k]).value)
  {
  }

  /** The polygon numbers no arc of the index lists: the marks the last loop of `__call__`
      leaves. */
  function Unmarked(m: ByArcMap, marked: set<nat>): (r: set<nat>)
    ensures r <= marked && r !! AllOwners(m)
    ensures forall x :: x in marked && x !in AllOwners(m) ==> x in r
  {
    marked - AllOwners(m)
  }

  /** The polygons listed in the index are those that name an arc. */
  lemma AllOwnersNaming(ps: seq<seq<seq<int>>>, x: nat)
    ensures x in AllOwners(ByArc(ps)) <==> x < |ps| && PolyArcs(ps[x]) != {}
  {
    var m := ByArc(ps);
    if x in AllOwners(m) {
      var a :| a in m && x in m[a];
      ByArcMembers(ps, a, x);
    }
    if x < |ps| && PolyArcs(ps[x]) != {} {
      var a :| a in PolyArcs(ps[x]);
      ByArcMembers(ps, a, x);
    }
  }

  // ---------------------------------------------------------------- _tmp

  /** The exterior loop of `_tmp` over one ring: each arc, sign dropped, that fewer than two
      polygon entries list is kept, in order. An arc the index lacks is a KeyError. */
  function OuterRing(m: ByArcMap, refs: seq<int>): (r: Result<seq<nat>>)
    ensures r.Ok? <==> Stitch.ArcSet(refs) <= m.Keys
    ensures r.Fail? ==> r.error == KeyError
    ensures r.Ok? ==> forall x :: x in r.value <==> x in Stitch.ArcSet(refs) && |m[x]| < 2
  {
    if refs == [] then Ok([])
    else
      var n := |refs| - 1;
      ArcSetStep(refs, n);
      assert refs[..n + 1] == refs;
      var front :- OuterRing(m, refs[..n]);
      var a := ArcIndex(refs[n]);
      if a !in m then Fail(KeyError)
      else Ok(front + if |m[a]| < 2 then [a] else [])
  }

  function OuterRings(m: ByArcMap, rings: seq<seq<int>>): (r: Result<seq<nat>>)
    ensures r.Ok? <==> PolyArcs(rings) <= m.Keys
    ensures r.Fail? ==> r.error == KeyError
    ensures r.Ok? ==> forall x :: x in r.value <==> x in PolyArcs(rings) && |m[x]| < 2
  {
    if rings == [] then Ok([])
    else
      var n := |rings| - 1;
      var front :- OuterRings(m, rings[..n]);
      var last :- OuterRing(m, rings[n]);
      Ok(front + last)
  }

  /** The arcs of a group of polygons. */
  function GroupArcs(group: seq<seq<seq<int>>>): set<nat>
  {
    if group == [] then {} else GroupArcs(group[..|group| - 1]) + PolyArcs(group[|group| - 1])
  }

  /** An arc is an arc of the group exactly when one of its polygons names it. */
  lemma {:induction false} GroupArcsMembers(group: seq<seq<seq<int>>>, a: nat)
    ensures a in GroupArcs(group) <==> exists i :: 0 <= i < |group| && a in PolyArcs(group[i])
  {
    if group != [] {
      var n := |group| - 1;
      GroupArcsMembers(group[..n], a);
      assert forall i :: 0 <= i < n ==> group[..n][i] == group[i];
      if a in PolyArcs(group[n]) {
        assert exists i :: 0 <= i < |group| && a in PolyArcs(group[i]);
      }
    }
  }

  /** The exterior loop of `_tmp` over every polygon of a group. */
  function OuterOf(m: ByArcMap, group: seq<seq<seq<int>>>): (r: Result<seq<nat>>)
    ensures r.Fail? ==> r.error == KeyError
  {
    if group == [] then Ok([])
    else
      var n := |group| - 1;
      var front :- OuterOf(m, group[..n]);
      var last :- OuterRings(m, group[n]);
      Ok(front + last)
  }

  /** The exterior loop over a group fails exactly when some arc of the group is not a key;
      otherwise it keeps the arcs of the group that at most one entry lists. */
  lemma {:induction false} OuterOfArcs(m: ByArcMap, group: seq<seq<seq<int>>>)
    ensures OuterOf(m, group).Ok? <==> GroupArcs(group) <= m.Keys
    ensures OuterOf(m, group).Ok? ==> forall x :: x in OuterOf(m, group).value <==> x in GroupArcs(group) && |m[x]| < 2
  {
    if group != [] {
      var n := |group| - 1;
      assert group[..n + 1] == group;
      OuterOfArcs(m, group[..n]);
    }
  }

  /** The exterior loop over the polygons of a group, one polygon further. */
  lemma OuterStep(m: ByArcMap, group: seq<seq<seq<int>>>, i: nat)
    requires i < |group|
    ensures OuterOf(m, group[..i + 1]) == (var front :- OuterOf(m, group[..i]); var last :- OuterRings(m, group[i]); Ok(front + last))
  {
    assert group[..i + 1][..i] == group[..i];
  }

  /** Once the exterior loop fails at a polygon it fails over the whole group. */
  lemma {:induction false} OuterFails(m: ByArcMap, group: seq<seq<seq<int>>>, k: nat)
    requires k <= |group| && OuterOf(m, group[..k]).Fail?
    ensures OuterOf(m, group) == Fail(KeyError)
    decreases |group| - k
  {
    if k < |group| {
      OuterStep(m, group, k);
      OuterFails(m, group, k + 1);
    } else {
      assert group[..k] == group;
    }
  }

  /** Over the index of the extracted polygons, the exterior arcs of a group are exactly its
      arcs that the polygons name once in all: an arc named twice, even by one polygon,
      counts as shared. */
  lemma ExteriorArcs(ps: seq<seq<seq<int>>>, group: seq<seq<seq<int>>>, r: Result<seq<nat>>)
    requires GroupArcs(group) <= ByArc(ps).Keys
    requires r == OuterOf(ByArc(ps), group)
    ensures r.Ok?
    ensures forall x :: x in r.value <==> x in GroupArcs(group) && Uses(ps, x) == 1
  {
    OuterOfArcs(ByArc(ps), group);
    forall x | x in GroupArcs(group)
      ensures |ByArc(ps)[x]| < 2 <==> Uses(ps, x) == 1
    {
      ByArcCount(ps, x);
      ByArcMembers(ps, x, 0);
      var i :| 0 <= i < |ps| && x in PolyArcs(ps[i]);
      ByArcMembers(ps, x, i);
    }
  }

  /** `obj["coordinates"][0]`: the first ring of a decoded polygon. A shape without rings is
      an IndexError; no shape, or another type, a TypeError. */
  function FirstRing(s: Option<Shape>): (r: Result<seq<Pos>>)
    ensures r.Ok? <==> s.Some? && s.value.PolygonS? && s.value.rings != []
    ensures r.Ok? ==> r.value == s.value.rings[0]
  {
    match s
    case Some(PolygonS(rings)) => if rings == [] then Fail(IndexError) else Ok(rings[0])
    case _ => Fail(TypeError)
  }

  /** `area(ring)`: the ring read as a one-ring polygon of the topology, then its doubled
      area. */
  function AreaOf(topology: Topo, ring: seq<int>): (r: Result<real>)
    ensures r.Ok? ==> r.value >= 0.0
  {
    var s :- GeometryOf(topology.transform, topology.arcs, Bare(Polygon([ring])));
    var pts :- FirstRing(s);
    RingArea(pts)
  }

  /** ... which is the doubled area of the ring as `Object` reads it; it fails only when
      reading the ring fails. */
  lemma AreaOfRing(topology: Topo, ring: seq<int>)
    ensures AreaOf(topology, ring).Ok? <==> RingOf(topology.transform, topology.arcs, ring).Ok?
    ensures AreaOf(topology, ring).Ok? ==>
              AreaOf(topology, ring) == RingArea(RingOf(topology.transform, topology.arcs, ring).value)
  {
    var t, arcs := topology.transform, topology.arcs;
    var x := RingOf(t, arcs, ring);
    assert [ring][..0] == [] && [ring][0] == ring;
    assert RingsOf(t, arcs, []) == Ok([]);
    if x.Ok? {
      var e: seq<seq<Pos>> := [];
      assert e + [x.value] == [x.value];
      assert RingsOf(t, arcs, [ring]) == Ok([x.value]);
      var pts := LineOf(t, arcs, ring).value;
      assert x.value == Runs.Pad(pts, 4);
    } else {
      assert RingsOf(t, arcs, [ring]) == Fail(x.error);
    }
  }

  /** `area` as a function value. */
  function AreaFn(topology: Topo): seq<int> -> Result<real>
  {
    ring => AreaOf(topology, ring)
  }

  /** The areas of rings, read in order; the first failure wins. */
  function Areas(topology: Topo, rs: seq<seq<int>>): (r: Result<seq<real>>)
    ensures r.Ok? <==> forall j :: 0 <= j < |rs| ==> AreaOf(topology, rs[j]).Ok?
    ensures r.Ok? ==> |r.value| == |rs| && forall j :: 0 <= j < |rs| ==> AreaOf(topology, rs[j]) == Ok(r.value[j])
  {
    MapAll(rs, AreaFn(topology))
  }

  /** The selection loop of `_tmp` once the areas ks of the first |ks| rings are read: the
      rings, and the greatest area met so far. A ring moves to the front only when its area is
      strictly greater than the front's, and swaps places with it. */
  function Swaps(rs: seq<seq<int>>, ks: seq<real>): (r: (seq<seq<int>>, real))
    requires 1 <= |ks| <= |rs|
    ensures |r.0| == |rs|
  {
    if |ks| == 1 then (rs, ks[0])
    else
      var i := |ks| - 1;
      var v := Swaps(rs, ks[..i]);
      if v.1 < ks[i] then (v.0[0 := v.0[i]][i := v.0[0]], ks[i]) else v
  }

  /** The loop permutes the rings and leaves those it has not reached in place. */
  lemma {:induction false} SwapsPermutes(rs: seq<seq<int>>, ks: seq<real>, r: (seq<seq<int>>, real))
    requires 1 <= |ks| <= |rs| && r == Swaps(rs, ks)
    ensures multiset(r.0) == multiset(rs)
    ensures forall j :: |ks| <= j < |rs| ==> r.0[j] == rs[j]
  {
    if |ks| > 1 {
      var i := |ks| - 1;
      var v := Swaps(rs, ks[..i]);
      SwapsPermutes(rs, ks[..i], v);
      if v.1 < ks[i] {
        assert multiset(r.0) == multiset(v.0);
      }
    }
  }

  /** The area the loop ends with is the greatest read, and the front ring is the first ring
      of that area. */
  lemma {:induction false} SwapsFront(rs: seq<seq<int>>, ks: seq<real>, r: (seq<seq<int>>, real))
    requires 1 <= |ks| <= |rs| && r == Swaps(rs, ks)
    ensures forall j :: 0 <= j < |ks| ==> ks[j] <= r.1
    ensures exists j :: 0 <= j < |ks| && r.0[0] == rs[j] && r.1 == ks[j] && forall q :: 0 <= q < j ==> ks[q] < ks[j]
  {
    if |ks| > 1 {
      var i := |ks| - 1;
      var v := Swaps(rs, ks[..i]);
      SwapsFront(rs, ks[..i], v);
      SwapsPermutes(rs, ks[..i], v);
      var z :| 0 <= z < i && v.0[0] == rs[z] && v.1 == ks[z] && forall q :: 0 <= q < z ==> ks[q] < ks[z];
      if v.1 < ks[i] {
        assert r.0[0] == rs[i];
        assert forall q :: 0 <= q < i ==> ks[q] < ks[i];
      } else {
        assert forall q :: 0 <= q < z ==> ks[q] < ks[z];
      }
    }
  }

  /** The selection of `_tmp`: with more than one ring, the areas are read in order (the first
      failure wins) and the loop runs over all of them. */
  function Select(topology: Topo, rs: seq<seq<int>>): (r: Result<seq<seq<int>>>)
    ensures r.Ok? ==> |r.value| == |rs| && multiset(r.value) == multiset(rs)
  {
    if |rs| <= 1 then Ok(rs)
    else
      var ks :- Areas(topology, rs);
      var v := Swaps(rs, ks);
      SwapsPermutes(rs, ks, v);
      Ok(v.0)
  }

  /** Every ring after the loop is one of the rings before it, with an area no greater than
      the front's. */
  lemma Ranked(rs: seq<seq<int>>, ks: seq<real>, out: seq<seq<int>>, k: real)
    requires |rs| == |ks| == |out| && multiset(out) == multiset(rs)
    requires forall j :: 0 <= j < |rs| ==> ks[j] <= k
    ensures forall j :: 0 <= j < |out| ==> exists q :: 0 <= q < |rs| && out[j] == rs[q] && ks[q] <= k
  {
    forall j | 0 <= j < |out|
      ensures exists q :: 0 <= q < |rs| && out[j] == rs[q] && ks[q] <= k
    {
      var y := out[j];
      assert y in multiset(out);
      var q :| 0 <= q < |rs| && rs[q] == y;
      assert out[j] == rs[q] && ks[q] <= k;
    }
    assert forall j :: 0 <= j < |out| ==> exists q :: 0 <= q < |rs| && out[j] == rs[q] && ks[q] <= k;
  }

  /** After the selection the first ring has the greatest area of all; among rings of equal
      greatest area it is the first in the original order. */
  lemma SelectFront(topology: Topo, rs: seq<seq<int>>, r: Result<seq<seq<int>>>)
    requires r == Select(topology, rs) && r.Ok? && |rs| > 1
    ensures forall j :: 0 <= j < |rs| ==> AreaOf(topology, rs[j]).Ok?
    ensures forall j :: 0 <= j < |r.value| ==> AreaOf(topology, r.value[j]).Ok?
    ensures forall j :: 0 <= j < |r.value| ==> AreaOf(topology, r.value[j]).value <= AreaOf(topology, r.value[0]).value
    ensures exists j :: 0 <= j < |rs| && r.value[0] == rs[j] &&
              forall q :: 0 <= q < j ==> AreaOf(topology, rs[q]).value < AreaOf(topology, rs[j]).value
  {
    var ks := Areas(topology, rs).value;
    var v := Swaps(rs, ks);
    SwapsPermutes(rs, ks, v);
    SwapsFront(rs, ks, v);
    assert r.value == v.0;
    Ranked(rs, ks, v.0, v.1);
    var z :| 0 <= z < |rs| && v.0[0] == rs[z] && v.1 == ks[z] && forall q :: 0 <= q < z ==> ks[q] < ks[z];
    forall j | 0 <= j < |r.value|
      ensures AreaOf(topology, r.value[j]).Ok?
      ensures AreaOf(topology, r.value[j]).value <= AreaOf(topology, r.value[0]).value
    {
      var q :| 0 <= q < |rs| && v.0[j] == rs[q] && ks[q] <= v.1;
    }
  }

  /** The final filter of `_tmp`: the rings that are not empty, in order. */
  function NonEmpty(rs: seq<seq<int>>): (r: seq<seq<int>>)
    ensures forall x :: x in r <==> x in rs && x != []
    ensures |r| <= |rs|
    ensures (forall k :: 0 <= k < |rs| ==> rs[k] != []) ==> r == rs
  {
    if rs == [] then []
    else
      var n := |rs| - 1;
      assert rs == rs[..n] + [rs[n]];
      NonEmpty(rs[..n]) + if rs[n] != [] then [rs[n]] else []
  }

  /** `_tmp(polygons)`: the exterior arcs of a group, stitched, the ring of greatest area
      brought to the front, empty rings dropped. */
  function TmpOf(m: ByArcMap, topology: Topo, group: seq<seq<seq<int>>>): (r: Result<seq<seq<int>>>)
  {
    var arcs :- OuterOf(m, group);
    var rings :- Stitch.StitchOf(topology, arcs);
    var chosen :- Select(topology, rings);
    Ok(NonEmpty(chosen))
  }

  /** Stitching never yields an empty fragment, so the filter keeps every ring: a result is
      the stitched rings reordered, each of one or two arc references. */
  lemma TmpRings(m: ByArcMap, topology: Topo, group: seq<seq<seq<int>>>, r: Result<seq<seq<int>>>)
    requires r == TmpOf(m, topology, group) && r.Ok?
    ensures OuterOf(m, group).Ok? && Stitch.StitchOf(topology, OuterOf(m, group).value).Ok?
    ensures multiset(r.value) == multiset(Stitch.StitchOf(topology, OuterOf(m, group).value).value)
    ensures forall k :: 0 <= k < |r.value| ==> 1 <= |r.value[k]| <= 2
  {
    var arcs := OuterOf(m, group).value;
    var rings := Stitch.StitchOf(topology, arcs).value;
    Stitch.AtMostTwo(topology, arcs);
    var chosen := Select(topology, rings).value;
    forall k | 0 <= k < |chosen|
      ensures 1 <= |chosen[k]| <= 2
    {
      assert chosen[k] in multiset(rings);
    }
  }

  /** `lambda x: self._tmp(x)`. */
  function TmpFn(m: ByArcMap, topology: Topo): seq<seq<seq<int>>> -> Result<seq<seq<int>>>
  {
    group => TmpOf(m, topology, group)
  }

  /** `list(map(lambda x: self._tmp(x), self.groups))`. */
  function TmpsOf(m: ByArcMap, topology: Topo, groups: seq<seq<seq<seq<int>>>>): (r: Result<seq<seq<seq<int>>>>)
    ensures r.Ok? <==> forall i :: 0 <= i < |groups| ==> TmpOf(m, topology, groups[i]).Ok?
    ensures r.Ok? ==> |r.value| == |groups| && forall i :: 0 <= i < |groups| ==> TmpOf(m, topology, groups[i]) == Ok(r.value[i])
  {
    MapAll(groups, TmpFn(m, topology))
  }

  // ---------------------------------------------------------------- the whole call

  /** The polygons `geometry(o)` extracts, in order: a Polygon its rings, a MultiPolygon each
      of its polygons, a collection those of its members; every other type nothing. */
  function PolysOf(o: Geom<seq<int>>): seq<seq<seq<int>>>
    decreases o
  {
    match o.kind
    case GeometryCollection(gs) => PolysOfAll(gs)
    case Polygon(rings) => [rings]
    case MultiPolygon(polygons) => polygons
    case _ => []
  }

  function PolysOfAll(gs: seq<Geom<seq<int>>>): seq<seq<seq<int>>>
    decreases gs
  {
    if gs == [] then [] else PolysOfAll(gs[..|gs| - 1]) + PolysOf(gs[|gs| - 1])
  }

  /** n fresh dict entries. */
  function Dicts(n: nat): (r: seq<Entry>)
    ensures |r| == n && AllDicts(r)
  {
    if n == 0 then [] else Dicts(n - 1) + [Dict]
  }

  lemma {:induction false} DictsAdd(a: nat, b: nat)
    ensures Dicts(a) + Dicts(b) == Dicts(a + b)
  {
    if b > 0 {
      DictsAdd(a, b - 1);
    }
  }

  /** What a `MergeArcs` instance holds: the arc index, the rings of every polygon dict made
      so far (by number), the marked dicts, `self.polygons`, `self.groups` and
      `self.topology`. */
  datatype MState = MState(
    byArc: ByArcMap,
    dicts: seq<seq<seq<int>>>,
    marked: set<nat>,
    polygons: seq<Entry>,
    groups: seq<seq<seq<seq<int>>>>,
    topology: Option<Topo>)

  /** `__init__`. */
  function Fresh(): MState
  {
    MState(map[], [], {}, [], [], None)
  }

  /** The index lists exactly the dicts made so far, and there is one entry per dict. */
  predicate Consistent(s: MState)
  {
    s.byArc == ByArc(s.dicts) && |s.polygons| == |s.dicts|
  }

  /** `MergeArcs.__call__(topology, objects)` on the state s: the polygons of the objects are
      extracted, the entries grouped and listed, the marks dropped, and each group (old ones
      included) handed to `_tmp`. The new state is given on success only. */
  function MergeArcsOf(s: MState, topology: Topo, objects: seq<Geom<seq<int>>>): (r: Result<(MState, Geom<seq<int>>)>)
    requires Consistent(s)
    ensures r.Ok? ==> Consistent(r.value.0) && r.value.0.topology == Some(topology)
  {
    var ps := s.dicts + PolysOfAll(objects);
    var polys := s.polygons + Dicts(|PolysOfAll(objects)|);
    var m := ByArc(ps);
    ByArcCovers(ps);
    var g :- GroupsUpTo(ps, m, polys, s.marked, |ps|);
    var listed :- ListAll(ps, polys);
    var groups := s.groups + g.groups;
    var arcs :- TmpsOf(m, topology, groups);
    Ok((MState(m, ps, Unmarked(m, g.marked), listed, groups, Some(topology)), Bare(MultiPolygon(arcs))))
  }

  /** `Merge.__call__`: the merged MultiPolygon read back through `Object`. */
  function MergeOf(s: MState, topology: Topo, objects: seq<Geom<seq<int>>>): Result<Option<Shape>>
    requires Consistent(s)
  {
    var v :- MergeArcsOf(s, topology, objects);
    GeometryOf(topology.transform, topology.arcs, v.1)
  }

  /** The grouping of the polygons ps on a fresh instance. */
  function GroupingOf(ps: seq<seq<seq<int>>>): Result<Grouped>
  {
    ByArcCovers(ps);
    GroupsUpTo(ps, ByArc(ps), Dicts(|ps|), {}, |ps|)
  }

  /** The stages of `MergeArcsOf`, named. */
  lemma CallPieces(s: MState, topology: Topo, objects: seq<Geom<seq<int>>>, r: Result<(MState, Geom<seq<int>>)>,
                   ps: seq<seq<seq<int>>>, polys: seq<Entry>, g: Result<Grouped>)
    requires Consistent(s)
    requires ps == s.dicts + PolysOfAll(objects) && polys == s.polygons + Dicts(|PolysOfAll(objects)|)
    requires Covers(ByArc(ps), ps) && g == GroupsUpTo(ps, ByArc(ps), polys, s.marked, |ps|)
    requires r == MergeArcsOf(s, topology, objects)
    ensures g.Fail? ==> r == Fail(g.error)
    ensures r.Ok? ==> g.Ok? && ListAll(ps, polys).Ok? && TmpsOf(ByArc(ps), topology, s.groups + g.value.groups).Ok?
    ensures r.Ok? ==> r.value.0 == MState(ByArc(ps), ps, Unmarked(ByArc(ps), g.value.marked), ListAll(ps, polys).value, s.groups + g.value.groups, Some(topology))
    ensures r.Ok? ==> r.value.1 == Bare(MultiPolygon(TmpsOf(ByArc(ps), topology, s.groups + g.value.groups).value))
  {
  }

  /** What the grouping of a fresh instance gives. */
  lemma FreshGrouping(ps: seq<seq<seq<int>>>, g: Result<Grouped>)
    requires Covers(ByArc(ps), ps) && g == GroupsUpTo(ps, ByArc(ps), Dicts(|ps|), {}, |ps|)
    ensures g == GroupingOf(ps)
    ensures g.Ok? <==> forall q :: 0 <= q < |ps| ==> ps[q] != []
    ensures g.Fail? ==> g.error == KeyError
    ensures g.Ok? ==> g.value.marked == Ids(|ps|)
  {
    GroupsOutcome(ps, Dicts(|ps|), g);
    if g.Ok? {
      GroupsComponents(ps, ByArc(ps), Dicts(|ps|), |ps|, g);
      MarkedAll(ps, g.value);
    }
  }

  /** The grouping loop succeeds exactly when no polygon is without rings. */
  lemma GroupsOutcome(ps: seq<seq<seq<int>>>, polys: seq<Entry>, r: Result<Grouped>)
    requires Covers(ByArc(ps), ps) && |polys| == |ps| && AllDicts(polys)
    requires r == GroupsUpTo(ps, ByArc(ps), polys, {}, |ps|)
    ensures r.Ok? <==> forall q :: 0 <= q < |ps| ==> ps[q] != []
    ensures r.Fail? ==> r.error == KeyError
  {
    GroupsComponents(ps, ByArc(ps), polys, |ps|, r);
    GroupsErrors(ps, polys, |ps|, r);
    if r.Ok? {
      RingsPresent(ps, r.value);
    }
  }

  /** Once the grouping loop has run through every polygon, every polygon is marked. */
  lemma MarkedAll(ps: seq<seq<seq<int>>>, g: Grouped)
    requires Components(ps, g, |ps|)
    ensures g.marked == Ids(|ps|)
  {
  }

  /** Unmarking after a fresh grouping leaves marked exactly the dicts that name no arc. */
  lemma FreshUnmarked(ps: seq<seq<seq<int>>>, marked: set<nat>)
    requires marked == Ids(|ps|)
    ensures forall x: nat :: x in Unmarked(ByArc(ps), marked) <==> x < |ps| && PolyArcs(ps[x]) == {}
  {
    forall x: nat
      ensures x in Unmarked(ByArc(ps), marked) <==> x < |ps| && PolyArcs(ps[x]) == {}
    {
      AllOwnersNaming(ps, x);
      if x < |ps| {
        assert x in Ids(|ps|);
      }
    }
  }

  /** The first call on a fresh instance: a polygon without rings fails it with KeyError; on
      success the groups are those of the grouping (a partition into connection classes, by
      `Grouping`), every entry is its polygon's rings truncated to two, the result has one
      member per group, and a dict keeps its mark only when it names no arc, so that no list
      reaches it any more. */
  lemma FirstCall(topology: Topo, objects: seq<Geom<seq<int>>>, r: Result<(MState, Geom<seq<int>>)>)
    requires r == MergeArcsOf(Fresh(), topology, objects)
    ensures (exists q :: 0 <= q < |PolysOfAll(objects)| && PolysOfAll(objects)[q] == []) ==> r == Fail(KeyError)
    ensures r.Ok? ==> GroupingOf(PolysOfAll(objects)).Ok? && r.value.0.groups == GroupingOf(PolysOfAll(objects)).value.groups
    ensures r.Ok? ==> r.value.0.dicts == PolysOfAll(objects)
    ensures r.Ok? ==> forall k :: 0 <= k < |r.value.0.dicts| ==> r.value.0.polygons[k] == Listed(Trunc(r.value.0.dicts[k]).value)
    ensures r.Ok? ==> r.value.1.kind.MultiPolygon? && |r.value.1.kind.polygons| == |r.value.0.groups|
    ensures r.Ok? ==> forall x: nat :: x in r.value.0.marked <==> x < |r.value.0.dicts| && PolyArcs(r.value.0.dicts[x]) == {}
  {
    var ps := PolysOfAll(objects);
    assert [] + ps == ps;
    assert [] + Dicts(|ps|) == Dicts(|ps|);
    ByArcCovers(ps);
    var g := GroupsUpTo(ps, ByArc(ps), Dicts(|ps|), {}, |ps|);
    CallPieces(Fresh(), topology, objects, r, ps, Dicts(|ps|), g);
    FreshGrouping(ps, g);
    if g.Ok? {
      ListDicts(ps, Dicts(|ps|));
      FreshUnmarked(ps, g.value.marked);
    }
  }

  /** A second call on an instance whose first call extracted a polygon and succeeded fails
      with TypeError: the entries are lists by then, and a list cannot take the mark. */
  lemma SecondCall(t1: Topo, o1: seq<Geom<seq<int>>>, t2: Topo, o2: seq<Geom<seq<int>>>, r: Result<(MState, Geom<seq<int>>)>)
    requires r == MergeArcsOf(Fresh(), t1, o1) && r.Ok? && PolysOfAll(o1) != []
    ensures MergeArcsOf(r.value.0, t2, o2) == Fail(TypeError)
  {
    FirstCall(t1, o1, r);
    var s := r.value.0;
    var ps := s.dicts + PolysOfAll(o2);
    var polys := s.polygons + Dicts(|PolysOfAll(o2)|);
    ByArcCovers(ps);
    assert polys[0] == s.polygons[0];
    assert GroupsUpTo(ps, ByArc(ps), polys, s.marked, 1) == Fail(TypeError);
    GroupsFails(ps, ByArc(ps), polys, s.marked, 1);
  }

  // ---------------------------------------------------------------- the instance

  /** Extracting one more polygon extends the index of the polygons before it. */
  lemma {:induction false} ByArcSnoc(ps: seq<seq<seq<int>>>, rings: seq<seq<int>>)
    ensures ByArc(ps + [rings]) == RegisterRings(ByArc(ps), rings, |ps|)
  {
    assert (ps + [rings])[..|ps|] == ps;
  }

  lemma {:induction false} ExtractStep(d0: seq<seq<seq<int>>>, p0: seq<Entry>, d1: seq<seq<seq<int>>>, p1: seq<Entry>,
                    d2: seq<seq<seq<int>>>, p2: seq<Entry>, polys: seq<seq<seq<int>>>, i: nat)
    requires i < |polys| && d1 == d0 + polys[..i] && p1 == p0 + Dicts(i)
    requires d2 == d1 + [polys[i]] && p2 == p1 + [Dict]
    ensures d2 == d0 + polys[..i + 1] && p2 == p0 + Dicts(i + 1)
  {
    assert polys[..i + 1] == polys[..i] + [polys[i]];
  }

  lemma {:induction false} ObjectsStep(d0: seq<seq<seq<int>>>, p0: seq<Entry>, d1: seq<seq<seq<int>>>, p1: seq<Entry>,
                       d2: seq<seq<seq<int>>>, p2: seq<Entry>, gs: seq<Geom<seq<int>>>, i: nat)
    requires i < |gs| && d1 == d0 + PolysOfAll(gs[..i]) && p1 == p0 + Dicts(|PolysOfAll(gs[..i])|)
    requires d2 == d1 + PolysOf(gs[i]) && p2 == p1 + Dicts(|PolysOf(gs[i])|)
    ensures d2 == d0 + PolysOfAll(gs[..i + 1]) && p2 == p0 + Dicts(|PolysOfAll(gs[..i + 1])|)
  {
    assert gs[..i + 1][..i] == gs[..i];
    DictsAdd(|PolysOfAll(gs[..i])|, |PolysOf(gs[i])|);
  }

  lemma {:induction false} PolyArcsStep(rings: seq<seq<int>>, i: nat)
    requires i < |rings|
    ensures PolyArcs(rings[..i + 1]) == PolyArcs(rings[..i]) + Stitch.ArcSet(rings[i])
  {
    assert rings[..i + 1][..i] == rings[..i];
  }

  /** The listing loop stops at its first failing entry, with that entry's error. */
  lemma {:induction false} ListFails(ps: seq<seq<seq<int>>>, polys: seq<Entry>, k: nat)
    requires k < |polys| <= |ps| && ListAll(ps, polys[..k]).Ok? && ListEntry(ps[k], polys[k]).Fail?
    ensures ListAll(ps, polys) == Fail(ListEntry(ps[k], polys[k]).error)
  {
    var n := |polys| - 1;
    if n == k {
      assert polys[..n] == polys[..k];
    } else {
      assert polys[..n][..k] == polys[..k] && polys[..n][k] == polys[k];
      ListFails(ps, polys[..n], k);
    }
  }

  /** One more step of the grouping loop; a failing step fails the whole loop. */
  lemma {:induction false} GroupsNext(ps: seq<seq<seq<int>>>, m: ByArcMap, polys: seq<Entry>, marked: set<nat>, t: nat, acc: Grouped, next: Result<Grouped>)
    requires Covers(m, ps) && |polys| == |ps| && t < |ps|
    requires GroupsUpTo(ps, m, polys, marked, t) == Ok(acc)
    requires next == GroupStep(ps, m, polys, acc, t)
    ensures GroupsUpTo(ps, m, polys, marked, t + 1) == next
    ensures next.Fail? ==> GroupsUpTo(ps, m, polys, marked, |ps|) == next
  {
    if next.Fail? {
      GroupsFails(ps, m, polys, marked, t + 1);
    }
  }

  /** One entry of the listing loop replaced in place. */
  lemma {:induction false} ListStep(before: seq<Entry>, after: seq<Entry>, p0: seq<Entry>, idx: nat, e: Entry)
    requires |before| == |p0| && idx < |p0| && before[idx..] == p0[idx..]
    requires after == before[idx := e]
    ensures |after| == |p0| && after[idx + 1..] == p0[idx + 1..]
    ensures after[..idx + 1] == before[..idx] + [e]
  {
    assert forall j :: idx + 1 <= j < |p0| ==> after[j] == before[idx..][j - idx];
  }

  /** The selection loop once the areas ks of the first |ks| rings are read through f. */
  predicate Chosen(f: seq<int> -> Result<real>, rs: seq<seq<int>>, ks: seq<real>, arcs: seq<seq<int>>, k: real)
  {
    1 <= |ks| <= |rs| && MapAll(rs[..|ks|], f) == Ok(ks) && (arcs, k) == Swaps(rs, ks)
  }

  /** The first area read starts the loop, or fails the reading. */
  lemma {:induction false} ChosenStart(f: seq<int> -> Result<real>, rs: seq<seq<int>>, a: Result<real>)
    requires |rs| > 1 && a == f(rs[0])
    ensures a.Fail? ==> MapAll(rs, f) == Fail(a.error)
    ensures a.Ok? ==> Chosen(f, rs, [a.value], rs, a.value)
  {
    if a.Fail? {
      MapAllFirstFailure(rs, f, 0);
    } else {
      assert rs[..0] == [];
      MapAllSnoc(rs, f, 0, [], a.value);
      assert [] + [a.value] == [a.value];
    }
  }

  /** The ring read next has not moved. */
  lemma {:induction false} ChosenRest(f: seq<int> -> Result<real>, rs: seq<seq<int>>, ks: seq<real>, arcs: seq<seq<int>>, k: real)
    requires Chosen(f, rs, ks, arcs, k) && |ks| < |rs|
    ensures arcs[|ks|] == rs[|ks|]
  {
    SwapsRest(rs, ks, (arcs, k));
  }

  /** One more area read: a failure fails the reading; otherwise a strictly greater area
      swaps its ring to the front. */
  lemma {:induction false} ChosenNext(f: seq<int> -> Result<real>, rs: seq<seq<int>>, ks: seq<real>, arcs: seq<seq<int>>, k: real,
                                      a: Result<real>, arcs': seq<seq<int>>, k': real)
    requires Chosen(f, rs, ks, arcs, k) && |ks| < |rs| && a == f(rs[|ks|])
    requires a.Ok? ==> arcs' == (if k < a.value then arcs[0 := arcs[|ks|]][|ks| := arcs[0]] else arcs)
    requires a.Ok? ==> k' == (if k < a.value then a.value else k)
    ensures a.Fail? ==> MapAll(rs, f) == Fail(a.error)
    ensures a.Ok? ==> Chosen(f, rs, ks + [a.value], arcs', k')
  {
    var n := |ks|;
    if a.Fail? {
      assert forall t :: 0 <= t < n ==> rs[..n][t] == rs[t];
      MapAllFirstFailure(rs, f, n);
    } else {
      SwapsNext(rs, ks, a.value, (arcs, k), (arcs', k'));
      MapAllSnoc(rs, f, n, ks, a.value);
    }
  }

  /** Once every area is read, the reading has succeeded with those areas. */
  lemma {:induction false} ChosenEnd(f: seq<int> -> Result<real>, rs: seq<seq<int>>, ks: seq<real>, arcs: seq<seq<int>>, k: real)
    requires Chosen(f, rs, ks, arcs, k) && |ks| == |rs|
    ensures MapAll(rs, f) == Ok(ks) && Swaps(rs, ks) == (arcs, k)
  {
    assert rs[..|rs|] == rs;
  }

  /** One more round of the selection loop, from the rings and the greatest area v before it. */
  lemma {:induction false} SwapsNext(rs: seq<seq<int>>, ks: seq<real>, k: real, v: (seq<seq<int>>, real), w: (seq<seq<int>>, real))
    requires 1 <= |ks| < |rs| && v == Swaps(rs, ks)
    requires w == if v.1 < k then (v.0[0 := v.0[|ks|]][|ks| := v.0[0]], k) else v
    ensures Swaps(rs, ks + [k]) == w
  {
    var ks' := ks + [k];
    assert ks'[..|ks|] == ks && ks'[|ks|] == k;
  }

  /** The loop has not yet moved the ring it reads next. */
  lemma {:induction false} SwapsRest(rs: seq<seq<int>>, ks: seq<real>, v: (seq<seq<int>>, real))
    requires 1 <= |ks| < |rs| && v == Swaps(rs, ks)
    ensures v.0[|ks|] == rs[|ks|]
  {
    SwapsPermutes(rs, ks, v);
  }

  /** `MergeArcsOf` from the results of its stages, each given only once the stages before it
      succeeded. */
  lemma {:induction false} CallResult(s: MState, topology: Topo, objects: seq<Geom<seq<int>>>, ps: seq<seq<seq<int>>>, polys: seq<Entry>,
                   g: Result<Grouped>, l: Result<seq<Entry>>, a: Result<seq<seq<seq<int>>>>)
    requires Consistent(s)
    requires ps == s.dicts + PolysOfAll(objects) && polys == s.polygons + Dicts(|PolysOfAll(objects)|)
    requires Covers(ByArc(ps), ps) && g == GroupsUpTo(ps, ByArc(ps), polys, s.marked, |ps|)
    requires g.Ok? ==> l == ListAll(ps, polys)
    requires g.Ok? && l.Ok? ==> a == TmpsOf(ByArc(ps), topology, s.groups + g.value.groups)
    ensures g.Fail? ==> MergeArcsOf(s, topology, objects) == Fail(g.error)
    ensures g.Ok? && l.Fail? ==> MergeArcsOf(s, topology, objects) == Fail(l.error)
    ensures g.Ok? && l.Ok? && a.Fail? ==> MergeArcsOf(s, topology, objects) == Fail(a.error)
    ensures g.Ok? && l.Ok? && a.Ok? ==>
              MergeArcsOf(s, topology, objects) ==
              Ok((MState(ByArc(ps), ps, Unmarked(ByArc(ps), g.value.marked), l.value, s.groups + g.value.groups, Some(topology)),
                  Bare(MultiPolygon(a.value))))
  {
  }

  /** `MergeArcs`: the arc index, the polygon dicts and their marks, `self.polygons`,
      `self.groups` and `self.topology`, kept from call to call. Dict j, the one `extract` made
      j-th, is named by the number j; its rings are `dicts[j]` and it holds "_" when j is in
      `marked`. */
  class MergeArcs {
    /** `self.object`. */
    const decoder: ObjectDecoder
    /** `self.stitch`. */
    const stitcher: Stitch.Stitcher
    /** `self.polygons_by_arc`. */
    var byArc: ByArcMap
    var dicts: seq<seq<seq<int>>>
    var marked: set<nat>
    /** `self.polygons`. */
    var polygons: seq<Entry>
    /** `self.groups`. */
    var groups: seq<seq<seq<seq<int>>>>
    /** `self.topology`. */
    var topology: Option<Topo>

    function State(): MState
      reads this
    {
      MState(byArc, dicts, marked, polygons, groups, topology)
    }

    /** The index lists exactly the dicts made so far, under the arcs they name. */
    predicate Valid()
      reads this`byArc, this`dicts, this`polygons
    {
      byArc == ByArc(dicts) && |polygons| == |dicts| && Covers(byArc, dicts)
    }

    /** `__init__`. */
    constructor ()
      ensures Valid() && State() == Fresh()
      ensures fresh(decoder) && fresh(decoder.transform) && fresh(stitcher)
    {
      decoder := new ObjectDecoder();
      stitcher := new Stitch.Stitcher();
      byArc, dicts, marked, polygons, groups, topology := map[], [], {}, [], [], None;
    }

    /** The innermost loop of `extract`: dict `id` appended to the list of every arc the ring
        names, the list made first when the arc has none. */
    method RegisterRing(refs: seq<int>, id: nat)
      modifies this`byArc
      ensures byArc == Register(old(byArc), refs, id)
    {
      ghost var m0 := byArc;
      for j := 0 to |refs|
        invariant byArc == Register(m0, refs[..j], id)
      {
        assert refs[..j + 1][..j] == refs[..j];
        var arc := ArcIndex(refs[j]);
        var l := if arc in byArc then byArc[arc] else [];
        byArc := byArc[arc := l + [id]];
      }
      assert refs[..|refs|] == refs;
    }

    /** The ring loop of `extract`. */
    method RegisterPolygon(polygon: seq<seq<int>>, id: nat)
      modifies this`byArc
      ensures byArc == RegisterRings(old(byArc), polygon, id)
    {
      ghost var m0 := byArc;
      for i := 0 to |polygon|
        invariant byArc == RegisterRings(m0, polygon[..i], id)
      {
        assert polygon[..i + 1][..i] == polygon[..i];
        RegisterRing(polygon[i], id);
      }
      assert polygon[..|polygon|] == polygon;
    }

    /** `extract(polygon)`: a new dict for the polygon, listed under every arc its rings name,
        and appended to `self.polygons`. */
    method Extract(polygon: seq<seq<int>>)
      requires Valid()
      modifies this`byArc, this`dicts, this`polygons
      ensures Valid() && dicts == old(dicts) + [polygon] && polygons == old(polygons) + [Dict]
    {
      RegisterPolygon(polygon, |dicts|);
      ByArcSnoc(dicts, polygon);
      dicts := dicts + [polygon];
      polygons := polygons + [Dict];
      ByArcCovers(dicts);
    }

    /** The MultiPolygon branch of `geometry`: each polygon extracted in order. */
    method ExtractAll(polys: seq<seq<seq<int>>>)
      requires Valid()
      modifies this`byArc, this`dicts, this`polygons
      ensures Valid() && dicts == old(dicts) + polys && polygons == old(polygons) + Dicts(|polys|)
    {
      ghost var d0, p0 := dicts, polygons;
      for i := 0 to |polys|
        invariant Valid() && dicts == d0 + polys[..i] && polygons == p0 + Dicts(i)
      {
        ghost var d1, p1 := dicts, polygons;
        Extract(polys[i]);
        ExtractStep(d0, p0, d1, p1, dicts, polygons, polys, i);
      }
      assert polys[..|polys|] == polys;
    }

    /** `geometry(o)`: the polygons of a Polygon, a MultiPolygon or, recursively, a
        collection extracted; every other type ignored. */
    method Geometry(o: Geom<seq<int>>)
      requires Valid()
      modifies this`byArc, this`dicts, this`polygons
      ensures Valid() && dicts == old(dicts) + PolysOf(o) && polygons == old(polygons) + Dicts(|PolysOf(o)|)
      decreases o, 1
    {
      match o.kind
      case GeometryCollection(gs) =>
        Geometries(gs);
      case Polygon(rings) =>
        Extract(rings);
        assert Dicts(1) == [Dict];
      case MultiPolygon(polys) =>
        ExtractAll(polys);
      case _ =>
        assert dicts == dicts + [] && polygons == polygons + Dicts(0);
    }

    /** `for o in objects: self.geometry(o)`, and the members of a collection. */
    method Geometries(gs: seq<Geom<seq<int>>>)
      requires Valid()
      modifies this`byArc, this`dicts, this`polygons
      ensures Valid() && dicts == old(dicts) + PolysOfAll(gs) && polygons == old(polygons) + Dicts(|PolysOfAll(gs)|)
      decreases gs, 0
    {
      ghost var d0, p0 := dicts, polygons;
      assert gs[..0] == [];
      for i := 0 to |gs|
        invariant Valid()
        invariant dicts == d0 + PolysOfAll(gs[..i]) && polygons == p0 + Dicts(|PolysOfAll(gs[..i])|)
      {
        ghost var d1, p1 := dicts, polygons;
        Geometry(gs[i]);
        ObjectsStep(d0, p0, d1, p1, dicts, polygons, gs, i);
      }
      assert gs[..|gs|] == gs;
    }

    /** The loop over `self.polygons_by_arc[arc]`: each dict not yet marked is marked and
        pushed. */
    method MarkOwners(owners: seq<nat>, stack: seq<nat>) returns (s: seq<nat>)
      modifies this`marked
      ensures (marked, s) == VisitOwners(old(marked), stack, owners)
    {
      ghost var m0 := marked;
      s := stack;
      for k := 0 to |owners|
        invariant (marked, s) == VisitOwners(m0, stack, owners[..k])
      {
        assert owners[..k + 1][..k] == owners[..k];
        var p := owners[k];
        if p !in marked {
          marked := marked + {p};
          s := s + [p];
        }
      }
      assert owners[..|owners|] == owners;
    }

    /** The arc loop over one ring of the popped dict. */
    method MarkRing(refs: seq<int>, stack: seq<nat>) returns (s: seq<nat>)
      requires Stitch.ArcSet(refs) <= byArc.Keys
      modifies this`marked
      ensures (marked, s) == VisitRing(byArc, old(marked), stack, refs)
    {
      ghost var m0 := marked;
      s := stack;
      for j := 0 to |refs|
        invariant Stitch.ArcSet(refs[..j]) <= byArc.Keys
        invariant (marked, s) == VisitRing(byArc, m0, stack, refs[..j])
      {
        ArcSetStep(refs, j);
        assert refs[..j + 1][..j] == refs[..j];
        var arc := ArcIndex(refs[j]);
        s := MarkOwners(byArc[arc], s);
      }
      assert refs[..|refs|] == refs;
    }

    /** The ring loop over the popped dict. */
    method MarkRings(rings: seq<seq<int>>, stack: seq<nat>) returns (s: seq<nat>)
      requires PolyArcs(rings) <= byArc.Keys
      modifies this`marked
      ensures (marked, s) == VisitRings(byArc, old(marked), stack, rings)
    {
      ghost var m0 := marked;
      s := stack;
      for i := 0 to |rings|
        invariant PolyArcs(rings[..i]) <= byArc.Keys
        invariant (marked, s) == VisitRings(byArc, m0, stack, rings[..i])
      {
        PolyArcsStep(rings, i);
        assert rings[..i + 1][..i] == rings[..i];
        s := MarkRing(rings[i], s);
      }
      assert rings[..|rings|] == rings;
    }

    /** The search from dict t: t is marked and pushed; then, while the stack is not empty, the
        last dict pushed is popped and appended to the group, and its unmarked neighbours are
        marked and pushed. */
    method Search(t: nat) returns (group: seq<nat>)
      requires Valid() && t < |dicts|
      modifies this`marked
      ensures Valid()
      ensures (marked, group) == Dfs(dicts, byArc, old(marked) + {t}, [], [t])
    {
      marked := marked + {t};
      var stack: seq<nat> := [t];
      group := [];
      ghost var goal := Dfs(dicts, byArc, marked, [], [t]);
      while stack != []
        invariant Valid()
        invariant forall k :: 0 <= k < |stack| ==> stack[k] < |dicts|
        invariant forall k :: 0 <= k < |group| ==> group[k] < |dicts|
        invariant Dfs(dicts, byArc, marked, group, stack) == goal
        decreases |Ids(|dicts|) - marked|, |stack|
      {
        var n := |stack| - 1;
        var q := stack[n];
        ghost var v := VisitRings(byArc, marked, stack[..n], dicts[q]);
        VisitBounded(dicts, byArc, marked, stack[..n], dicts[q], v);
        VisitShrinks(dicts, byArc, marked, stack[..n], dicts[q], v);
        BelowSnoc(group, q, |dicts|);
        group := group + [q];
        stack := MarkRings(dicts[q], stack[..n]);
      }
    }

    /** `for idx, point in enumerate(group)`: each dict of the group replaced by its first two
        rings, or by its only one; a dict without rings has no key 0. */
    method Truncate(group: seq<nat>) returns (r: Result<seq<seq<seq<int>>>>)
      requires forall k :: 0 <= k < |group| ==> group[k] < |dicts|
      ensures r == TruncAll(dicts, group)
    {
      var out: seq<seq<seq<int>>> := [];
      for idx := 0 to |group|
        invariant TruncAll(dicts, group[..idx]) == Ok(out)
      {
        assert group[..idx + 1][..idx] == group[..idx];
        var point := dicts[group[idx]];
        if point == [] {
          return Fail(KeyError);
        }
        var rings := if 1 < |point| then [point[0], point[1]] else [point[0]];
        out := out + [rings];
      }
      assert group[..|group|] == group;
      return Ok(out);
    }

    /** One pass of the outer loop of `__call__`: an entry that is a list cannot take the
        mark, a marked dict is skipped, and an unmarked dict starts a group. */
    method GroupAt(t: nat, acc: Grouped, ghost g0: seq<seq<seq<seq<int>>>>) returns (r: Result<Grouped>)
      requires Valid() && t < |dicts| && marked == acc.marked && groups == g0 + acc.groups
      modifies this`marked, this`groups
      ensures Valid()
      ensures r == GroupStep(dicts, byArc, polygons, acc, t)
      ensures r.Ok? ==> marked == r.value.marked && groups == g0 + r.value.groups
    {
      if polygons[t].Listed? {
        return Fail(TypeError);
      }
      if t in marked {
        return Ok(acc);
      }
      r := NewGroupAt(t, acc, g0);
    }

    /** An unmarked dict: its group is searched, truncated and appended to `self.groups`. */
    method NewGroupAt(t: nat, acc: Grouped, ghost g0: seq<seq<seq<seq<int>>>>) returns (r: Result<Grouped>)
      requires Valid() && t < |dicts| && marked == acc.marked && groups == g0 + acc.groups
      requires polygons[t] == Dict && t !in marked
      modifies this`marked, this`groups
      ensures r == GroupStep(dicts, byArc, polygons, acc, t)
      ensures r.Ok? ==> marked == r.value.marked && groups == g0 + r.value.groups
    {
      ghost var g1 := groups;
      var group := Search(t);
      var rings := Truncate(group);
      GroupStepNew(dicts, byArc, polygons, acc, t, (marked, group), rings);
      if rings.Fail? {
        return Fail(rings.error);
      }
      groups := groups + [rings.value];
      SnocAssoc(g0, acc.groups, g1, rings.value);
      r := Ok(Grouped(marked, acc.ids + [group], acc.groups + [rings.value]));
    }

    /** The outer loop of `__call__` over `self.polygons`. */
    method Group() returns (r: Result<Grouped>)
      requires Valid()
      modifies this`marked, this`groups
      ensures Valid()
      ensures r == GroupsUpTo(dicts, byArc, polygons, old(marked), |dicts|)
      ensures r.Ok? ==> marked == r.value.marked && groups == old(groups) + r.value.groups
    {
      ghost var m0, g0 := marked, groups;
      var acc := Grouped(marked, [], []);
      for t := 0 to |polygons|
        invariant GroupsUpTo(dicts, byArc, polygons, m0, t) == Ok(acc)
        invariant marked == acc.marked && groups == g0 + acc.groups
      {
        var next := GroupAt(t, acc, g0);
        GroupsNext(dicts, byArc, polygons, m0, t, acc, next);
        if next.Fail? {
          return next;
        }
        acc := next.value;
      }
      return Ok(acc);
    }

    /** The loop that replaces every entry of `self.polygons` in place: a dict by its first two
        rings or its only one, a list by its first ring. */
    method Listing() returns (r: Result<()>)
      requires Valid()
      modifies this`polygons
      ensures Valid()
      ensures r.Ok? <==> ListAll(dicts, old(polygons)).Ok?
      ensures r.Ok? ==> polygons == ListAll(dicts, old(polygons)).value
      ensures r.Fail? ==> ListAll(dicts, old(polygons)) == Fail(r.error)
    {
      ghost var p0 := polygons;
      for idx := 0 to |polygons|
        invariant |polygons| == |p0| && polygons[idx..] == p0[idx..]
        invariant ListAll(dicts, p0[..idx]) == Ok(polygons[..idx])
      {
        assert p0[..idx + 1][..idx] == p0[..idx];
        assert polygons[idx] == polygons[idx..][0];
        var next := ListEntry(dicts[idx], polygons[idx]);
        if next.Fail? {
          ListFails(dicts, p0, idx);
          return Fail(next.error);
        }
        var e := next.value;
        ghost var before := polygons;
        polygons := polygons[idx := e];
        ListStep(before, polygons, p0, idx, e);
      }
      assert p0[..|p0|] == p0 && polygons[..|polygons|] == polygons;
      return Ok(());
    }

    /** The last loop of `__call__`: "_" dropped from every dict listed under an arc, in any
        order of the arcs. */
    method Unmark()
      modifies this`marked
      ensures marked == Unmarked(byArc, old(marked))
    {
      ghost var m0 := marked;
      var keys := byArc.Keys;
      ghost var done: set<nat> := {};
      while keys != {}
        invariant keys + done == byArc.Keys && keys !! done
        invariant marked == m0 - Owners(byArc, done)
        decreases keys
      {
        var i :| i in keys;
        var owners := byArc[i];
        for ii := 0 to |owners|
          invariant marked == m0 - Owners(byArc, done) - Elems(owners[..ii])
        {
          assert Elems(owners[..ii + 1]) == Elems(owners[..ii]) + {owners[ii]};
          marked := marked - {owners[ii]};
        }
        assert owners[..|owners|] == owners;
        OwnersStep(byArc, done, i);
        keys := keys - {i};
        done := done + {i};
      }
    }

    /** The exterior loop of `_tmp` over one ring. */
    method ExteriorRing(refs: seq<int>) returns (r: Result<seq<nat>>)
      ensures r == OuterRing(byArc, refs)
    {
      var arcs: seq<nat> := [];
      for j := 0 to |refs|
        invariant OuterRing(byArc, refs[..j]) == Ok(arcs)
      {
        assert refs[..j + 1][..j] == refs[..j];
        var arc := ArcIndex(refs[j]);
        if arc !in byArc {
          return Fail(KeyError);
        }
        assert arcs + [] == arcs;
        if |byArc[arc]| < 2 {
          arcs := arcs + [arc];
        }
      }
      assert refs[..|refs|] == refs;
      return Ok(arcs);
    }

    /** ... over the rings of one polygon. */
    method ExteriorRings(rings: seq<seq<int>>) returns (r: Result<seq<nat>>)
      ensures r == OuterRings(byArc, rings)
    {
      var arcs: seq<nat> := [];
      for i := 0 to |rings|
        invariant OuterRings(byArc, rings[..i]) == Ok(arcs)
      {
        assert rings[..i + 1][..i] == rings[..i];
        var more := ExteriorRing(rings[i]);
        if more.Fail? {
          return Fail(more.error);
        }
        arcs := arcs + more.value;
      }
      assert rings[..|rings|] == rings;
      return Ok(arcs);
    }

    /** ... over every polygon of a group. */
    method Exterior(group: seq<seq<seq<int>>>) returns (r: Result<seq<nat>>)
      ensures r == OuterOf(byArc, group)
    {
      var arcs: seq<nat> := [];
      for i := 0 to |group|
        invariant OuterOf(byArc, group[..i]) == Ok(arcs)
      {
        var more := ExteriorRings(group[i]);
        OuterStep(byArc, group, i);
        if more.Fail? {
          OuterFails(byArc, group, i + 1);
          return Fail(more.error);
        }
        arcs := arcs + more.value;
      }
      assert group[..|group|] == group;
      return Ok(arcs);
    }

    /** `area(ring)`. */
    method Area(ring: seq<int>) returns (r: Result<real>)
      requires topology.Some?
      modifies decoder, decoder.transform
      ensures r == AreaOf(topology.value, ring)
    {
      var obj := decoder.Call(topology.value, Bare(Polygon([ring])));
      if obj.Fail? {
        return Fail(obj.error);
      }
      var coordinates := FirstRing(obj.value);
      if coordinates.Fail? {
        return Fail(coordinates.error);
      }
      r := PlanarRingArea(coordinates.value);
    }

    /** The selection loop of `_tmp`: with more than one ring, the area of each is read in
        order, and a ring whose area is strictly greater than the greatest so far swaps places
        with the front ring. */
    method Choose(rs: seq<seq<int>>) returns (r: Result<seq<seq<int>>>)
      requires topology.Some?
      modifies decoder, decoder.transform
      ensures r == Select(topology.value, rs)
    {
      if |rs| <= 1 {
        return Ok(rs);
      }
      ghost var f := AreaFn(topology.value);
      var arcs := rs;
      var first := Area(arcs[0]);
      ChosenStart(f, rs, first);
      if first.Fail? {
        return Fail(first.error);
      }
      var k := first.value;
      ghost var ks := [k];
      for i := 1 to |arcs|
        invariant |ks| == i && Chosen(f, rs, ks, arcs, k)
      {
        ChosenRest(f, rs, ks, arcs, k);
        var next := Area(arcs[i]);
        ghost var before := (arcs, k);
        if next.Fail? {
          ChosenNext(f, rs, ks, arcs, k, next, arcs, k);
          return Fail(next.error);
        }
        if k < next.value {
          arcs := arcs[0 := arcs[i]][i := arcs[0]];
          k := next.value;
        }
        ChosenNext(f, rs, ks, before.0, before.1, next, arcs, k);
        ks := ks + [next.value];
      }
      ChosenEnd(f, rs, ks, arcs, k);
      return Ok(arcs);
    }

    /** `_tmp(polygons)`. */
    method Tmp(group: seq<seq<seq<int>>>) returns (r: Result<seq<seq<int>>>)
      requires topology.Some?
      modifies decoder, decoder.transform, stitcher
      ensures r == TmpOf(byArc, topology.value, group)
    {
      var arcs :- Exterior(group);
      var rings :- stitcher.Call(topology.value, arcs);
      var chosen :- Choose(rings);
      return Ok(NonEmpty(chosen));
    }

    /** `list(map(lambda x: self._tmp(x), self.groups))`. */
    method Tmps() returns (r: Result<seq<seq<seq<int>>>>)
      requires topology.Some?
      modifies decoder, decoder.transform, stitcher
      ensures r == TmpsOf(byArc, topology.value, groups)
    {
      ghost var f := TmpFn(byArc, topology.value);
      var out: seq<seq<seq<int>>> := [];
      for i := 0 to |groups|
        invariant MapAll(groups[..i], f) == Ok(out)
      {
        var next := Tmp(groups[i]);
        assert next == f(groups[i]);
        if next.Fail? {
          MapAllPrefixFailure(groups, f, i, out);
          return Fail(next.error);
        }
        MapAllSnoc(groups, f, i, out, next.value);
        out := out + [next.value];
      }
      assert groups[..|groups|] == groups;
      return Ok(out);
    }

    /** `__call__(topology, objects)`: the new state and the MultiPolygon are those of
        `MergeArcsOf`, and a failure is its failure. */
    method Call(topo: Topo, objects: seq<Geom<seq<int>>>) returns (r: Result<Geom<seq<int>>>)
      requires Valid()
      modifies this, decoder, decoder.transform, stitcher
      ensures r.Ok? ==> Valid()
      ensures MergeArcsOf(old(State()), topo, objects) == if r.Ok? then Ok((State(), r.value)) else Fail(r.error)
    {
      ghost var s := State();
      topology := Some(topo);
      Geometries(objects);
      ghost var ps, polys := dicts, polygons;
      var g := Group();
      if g.Fail? {
        CallResult(s, topo, objects, ps, polys, g, Ok([]), Ok([]));
        return Fail(g.error);
      }
      var l := Listing();
      ghost var listed := ListAll(ps, polys);
      if l.Fail? {
        CallResult(s, topo, objects, ps, polys, g, listed, Ok([]));
        return Fail(l.error);
      }
      Unmark();
      var arcs := Tmps();
      CallResult(s, topo, objects, ps, polys, g, listed, arcs);
      if arcs.Fail? {
        return Fail(arcs.error);
      }
      return Ok(Bare(MultiPolygon(arcs.value)));
    }
  }

  /** `Merge`: `MergeArcs`, then the MultiPolygon read through `Object`. */
  class Merger {
    /** `self.object`. */
    const decoder: ObjectDecoder
    /** `self.merge_arcs`. */
    const mergeArcs: MergeArcs

    constructor ()
      ensures fresh(decoder) && fresh(mergeArcs) && mergeArcs.Valid() && mergeArcs.State() == Fresh()
    {
      decoder := new ObjectDecoder();
      mergeArcs := new MergeArcs();
    }

    /** `__call__(topology, objects)`. */
    method Call(topo: Topo, objects: seq<Geom<seq<int>>>) returns (r: Result<Option<Shape>>)
      requires mergeArcs.Valid()
      modifies mergeArcs, mergeArcs.decoder, mergeArcs.decoder.transform, mergeArcs.stitcher, decoder, decoder.transform
      ensures r == MergeOf(old(mergeArcs.State()), topo, objects)
      ensures r.Ok? ==> mergeArcs.Valid() && MergeArcsOf(old(mergeArcs.State()), topo, objects).Ok? &&
                        mergeArcs.State() == MergeArcsOf(old(mergeArcs.State()), topo, objects).value.0
    {
      var arcs := mergeArcs.Call(topo, objects);
      if arcs.Fail? {
        return Fail(arcs.error);
      }
      r := decoder.Call(topo, arcs.value);
    }
  }
}
