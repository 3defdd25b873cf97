/** topology.py: after deduplication every kept arc becomes its slice of the buffer, indexed
    by its unordered pair of ends, and every chain of every object becomes the list of the
    arcs it runs along: i for arc i in its stored direction, ~i for arc i read backwards. */
module Topology {
  import opened Base
  import opened Geo
  import opened Hash
  import Geometry
  import Bounds
  import Prequantize
  import Extract
  import Join
  import Cut
  import Dedup
  import Delta

  // ---------------------------------------------------------------- keys of the arc index

  /** `hash_arc`: the smaller end plus 31 times the larger. */
  function HashArc(a: Range): int
  {
    if a.end < a.start then a.end + 31 * a.start else a.start + 31 * a.end
  }

  /** `equal_arc`: the same pair of ends, in either order. */
  predicate EqualArc(a: Range, b: Range)
  {
    var (ia, ja) := if a.end < a.start then (a.end, a.start) else (a.start, a.end);
    var (ib, jb) := if b.end < b.start then (b.end, b.start) else (b.start, b.end);
    ia == ib && ja == jb
  }

  /** Two ranges are equal arcs exactly when they are equal or one is the other with its ends
      exchanged. */
  lemma EqualArcIff(a: Range, b: Range)
    ensures EqualArc(a, b) <==> a == b || a == Dedup.Swap(b)
  {
  }

  /** `equal_arc` is an equivalence that `hash_arc` respects, and a range and its reversal
      hash alike: what the hash map needs of its key functions. */
  lemma ArcKeys()
    ensures Proper(HashArc, EqualArc)
    ensures forall a :: HashArc(a) == HashArc(Dedup.Swap(a))
  {
    forall a, b | EqualArc(a, b) ensures HashArc(a) == HashArc(b) {
      EqualArcIff(a, b);
    }
  }

  // ---------------------------------------------------------------- what the index holds

  /** The index `set` leaves after the arcs in order: for a key, the last arc equal to it. */
  function Lookup(arcs: seq<Range>, k: Range): Option<nat>
  {
    if arcs == [] then None
    else if EqualArc(arcs[|arcs| - 1], k) then Some(|arcs| - 1)
    else Lookup(arcs[..|arcs| - 1], k)
  }

  /** Lookup finds the last arc equal to the key, and nothing when no arc is. */
  lemma {:induction false} LookupLast(arcs: seq<Range>, k: Range)
    ensures var r := Lookup(arcs, k);
            && (r.Some? ==> r.value < |arcs| && EqualArc(arcs[r.value], k) &&
                            forall u :: r.value < u < |arcs| ==> !EqualArc(arcs[u], k))
            && (r.None? <==> forall u :: 0 <= u < |arcs| ==> !EqualArc(arcs[u], k))
  {
    if arcs != [] {
      var n := |arcs| - 1;
      LookupLast(arcs[..n], k);
      assert forall u :: 0 <= u < n ==> arcs[..n][u] == arcs[u];
    }
  }

  /** What a probe of the index gives for key k: the value of the slot holding an equal key,
      or None. */
  function Stored(keys: seq<Slot<Range>>, vals: seq<Option<nat>>, k: Range): Option<nat>
    requires 0 < |keys| == |vals|
  {
    match Find(keys, HashArc, EqualArc, k)
    case Some(j) => vals[j]
    case None => None
  }

  /** The index answers key k as Lookup does. */
  ghost predicate Answers(keys: seq<Slot<Range>>, vals: seq<Option<nat>>, arcs: seq<Range>, k: Range)
    requires 0 < |keys| == |vals|
  {
    Stored(keys, vals, k) == Lookup(arcs, k)
  }

  /** The index holds the arcs: every key is answered as Lookup answers it. */
  ghost predicate Holds(keys: seq<Slot<Range>>, vals: seq<Option<nat>>, arcs: seq<Range>)
    requires 0 < |keys| == |vals|
  {
    forall k :: Answers(keys, vals, arcs, k)
  }

  /** An empty table holds no arcs. */
  lemma HoldsNothing(keys: seq<Slot<Range>>, vals: seq<Option<nat>>)
    requires 0 < |keys| == |vals| && forall j :: 0 <= j < |keys| ==> keys[j].Empty?
    ensures Holds(keys, vals, [])
  {
    forall k ensures Answers(keys, vals, [], k) {
      var h := Home(keys, HashArc, k);
      assert StopsAt(keys, EqualArc, k, h, 0);
    }
  }

  /** `set(arc, i)` for the next arc i keeps the table holding the arcs, one more of them. */
  lemma HoldsStep(keys: seq<Slot<Range>>, vals: seq<Option<nat>>, arcs: seq<Range>, a: Range)
    requires 0 < |keys| == |vals| && NoHoles(keys, HashArc) && Holds(keys, vals, arcs)
    requires Place(keys, HashArc, EqualArc, a, |keys|).Some?
    ensures var j := Place(keys, HashArc, EqualArc, a, |keys|).value;
            Holds(Insert(keys, j, a), vals[j := Some(|arcs|)], arcs + [a])
  {
    ArcKeys();
    var n := |keys|;
    var j := Place(keys, HashArc, EqualArc, a, n).value;
    var keys', vals' := Insert(keys, j, a), vals[j := Some(|arcs|)];
    assert (arcs + [a])[..|arcs|] == arcs;
    forall k ensures Answers(keys', vals', arcs + [a], k) {
      if EqualArc(a, k) {
        FindAfterInsert(keys, HashArc, EqualArc, a, n);
        FindEqualKeys(keys', HashArc, EqualArc, a, k);
      } else {
        FindOtherAfterInsert(keys, HashArc, EqualArc, a, n, k);
        assert Answers(keys, vals, arcs, k);
      }
    }
  }

  // ---------------------------------------------------------------- references to arcs

  /** The reference `index_arcs` makes to arc u for the chain node k: u when k runs forward,
      ~u otherwise. */
  function Signed(u: nat, k: Range): int
  {
    if k.start < k.end then u else Complement(u)
  }

  /** `index_arcs` as a value: the references of the nodes of a chain, in order. A node that
      no arc answers gets Python's None from the index. Against its arc's direction that None
      meets `~`, which raises TypeError; in its direction the program would append the None
      and go on, and this model fails with TypeError there too. `TopologyRoundTrip` shows
      that every node the construction indexes is answered, so neither case arises there. */
  function IndexChain(arcs: seq<Range>, ch: seq<Range>): Result<seq<int>>
  {
    if ch == [] then Ok([])
    else
      var front :- IndexChain(arcs, ch[..|ch| - 1]);
      var k := ch[|ch| - 1];
      match Lookup(arcs, k)
      case Some(u) => Ok(front + [Signed(u, k)])
      case None => Fail(TypeError)
  }

  /** A chain fails to index as soon as one of its prefixes does. */
  lemma {:induction false} IndexChainFails(arcs: seq<Range>, ch: seq<Range>, n: nat)
    requires n <= |ch| && IndexChain(arcs, ch[..n]).Fail?
    ensures IndexChain(arcs, ch) == IndexChain(arcs, ch[..n])
    decreases |ch| - n
  {
    if n < |ch| {
      assert ch[..n + 1][..n] == ch[..n];
      IndexChainFails(arcs, ch, n + 1);
    } else {
      assert ch[..n] == ch;
    }
  }

  /** The positions a reference stands for, as a reader of the topology takes them: arc i
      itself, or arc ~v read backwards for a negative v. */
  function Decode(c: seq<Pos>, arcs: seq<Range>, v: int): Option<seq<Pos>>
  {
    var u := if v >= 0 then v else Complement(v);
    if u < |arcs| && Dedup.InBuf(arcs[u], |c|) then
      Some(if v >= 0 then Dedup.Piece(c, arcs[u]) else Dedup.Backward(Dedup.Piece(c, arcs[u])))
    else None
  }

  /** A node that is a kept arc or a kept arc reversed is found, at an arc equal to it. */
  lemma CoveredLookup(arcs: seq<Range>, y: Range)
    requires Dedup.Covered(y, arcs)
    ensures Lookup(arcs, y).Some? && Lookup(arcs, y).value < |arcs|
    ensures arcs[Lookup(arcs, y).value] == y || arcs[Lookup(arcs, y).value] == Dedup.Swap(y)
  {
    LookupLast(arcs, y);
    var s :| 0 <= s < |arcs| && (arcs[s] == y || arcs[s] == Dedup.Swap(y));
    EqualArcIff(arcs[s], y);
    EqualArcIff(arcs[Lookup(arcs, y).value], y);
  }

  /** Indexing undoes deduplication: when a piece x was rewritten to y, which reads what x
      read through a kept arc, the reference the index gives for y decodes to x's positions. The
      sign is that of y's direction. */
  lemma PieceRoundTrip(c: seq<Pos>, arcs: seq<Range>, x: Range, y: Range)
    requires Dedup.AllIn(arcs, |c|) && Dedup.InBuf(x, |c|)
    requires Dedup.LineReads(c, x, y) && Dedup.Covered(y, arcs)
    ensures Lookup(arcs, y).Some?
    ensures var v := Signed(Lookup(arcs, y).value, y);
            (v >= 0 <==> y.start < y.end) && Decode(c, arcs, v) == Some(Dedup.Piece(c, x))
  {
    CoveredLookup(arcs, y);
    var u := Lookup(arcs, y).value;
    assert Dedup.InBuf(arcs[u], |c|);
    if y.start < y.end {
      ForwardDecodes(c, arcs, u, x, y);
    } else {
      BackwardDecodes(c, arcs, u, x, y);
    }
  }

  /** A node in its arc's direction decodes through the plain index. */
  lemma ForwardDecodes(c: seq<Pos>, arcs: seq<Range>, u: nat, x: Range, y: Range)
    requires u < |arcs| && Dedup.InBuf(arcs[u], |c|) && Dedup.InBuf(x, |c|) && y.start < y.end
    requires Dedup.LineReads(c, x, y) && (arcs[u] == y || arcs[u] == Dedup.Swap(y))
    ensures Decode(c, arcs, Signed(u, y)) == Some(Dedup.Piece(c, x))
  {
    assert arcs[u] == y;
  }

  /** A node against its arc's direction, or of one position, decodes through the complement
      of the index. */
  lemma BackwardDecodes(c: seq<Pos>, arcs: seq<Range>, u: nat, x: Range, y: Range)
    requires u < |arcs| && Dedup.InBuf(arcs[u], |c|) && Dedup.InBuf(x, |c|) && y.start >= y.end
    requires Dedup.LineReads(c, x, y) && (arcs[u] == y || arcs[u] == Dedup.Swap(y))
    ensures Decode(c, arcs, Signed(u, y)) == Some(Dedup.Piece(c, x))
  {
    assert arcs[u] == Dedup.Swap(y);
    if y.start == y.end {
      assert Dedup.Backward(Dedup.Piece(c, y)) == Dedup.Piece(c, y);
    }
  }

  /** A chain is indexed exactly when every node is found, and then its t-th reference is
      the index found for node t, signed by the node's direction. */
  lemma {:induction false} IndexChainOk(arcs: seq<Range>, ch: seq<Range>)
    ensures IndexChain(arcs, ch).Ok? <==> forall t :: 0 <= t < |ch| ==> Lookup(arcs, ch[t]).Some?
    ensures IndexChain(arcs, ch).Ok? ==>
              var out := IndexChain(arcs, ch).value;
              |out| == |ch| && forall t :: 0 <= t < |ch| ==> out[t] == Signed(Lookup(arcs, ch[t]).value, ch[t])
  {
    if ch != [] {
      var n := |ch| - 1;
      IndexChainOk(arcs, ch[..n]);
      assert forall t :: 0 <= t < n ==> ch[..n][t] == ch[t];
    }
  }

  /** Every chain whose nodes all name kept arcs is indexed, one reference per node, each to
      an arc equal to its node and signed by the node's direction. */
  lemma IndexChainCovered(arcs: seq<Range>, ch: seq<Range>)
    requires forall t :: 0 <= t < |ch| ==> Dedup.Covered(ch[t], arcs)
    ensures IndexChain(arcs, ch).Ok?
    ensures var out := IndexChain(arcs, ch).value;
            |out| == |ch| &&
            forall t :: 0 <= t < |ch| ==>
              var u := if out[t] >= 0 then out[t] else Complement(out[t]);
              0 <= u < |arcs| && EqualArc(arcs[u], ch[t]) && (out[t] >= 0 <==> ch[t].start < ch[t].end)
  {
    forall t | 0 <= t < |ch| ensures Lookup(arcs, ch[t]).Some? && Lookup(arcs, ch[t]).value < |arcs| {
      CoveredLookup(arcs, ch[t]);
    }
    IndexChainOk(arcs, ch);
    forall t | 0 <= t < |ch| ensures EqualArc(arcs[Lookup(arcs, ch[t]).value], ch[t]) {
      CoveredLookup(arcs, ch[t]);
      EqualArcIff(arcs[Lookup(arcs, ch[t]).value], ch[t]);
    }
  }

  /** A chain rewritten by deduplication indexes to references that decode, node by node, to
      the positions of the chain before deduplication. */
  lemma ChainRoundTrip(c: seq<Pos>, arcs: seq<Range>, ch: seq<Range>, cur: seq<Range>)
    requires Dedup.AllIn(arcs, |c|) && Dedup.AllIn(ch, |c|) && Dedup.LinesDone(c, ch, cur, arcs, |ch|)
    ensures IndexChain(arcs, cur).Ok? && |IndexChain(arcs, cur).value| == |ch|
    ensures forall t :: 0 <= t < |ch| ==> Decode(c, arcs, IndexChain(arcs, cur).value[t]) == Some(Dedup.Piece(c, ch[t]))
  {
    forall t | 0 <= t < |cur| ensures Dedup.Covered(cur[t], arcs) && Lookup(arcs, cur[t]).Some? {
      CoveredLookup(arcs, cur[t]);
    }
    IndexChainOk(arcs, cur);
    forall t | 0 <= t < |ch| ensures Decode(c, arcs, IndexChain(arcs, cur).value[t]) == Some(Dedup.Piece(c, ch[t])) {
      PieceRoundTrip(c, arcs, ch[t], cur[t]);
    }
  }

  /** The topology reads back: after deduplication, every line chain and every cut ring chain
      indexes to references decoding to its original pieces, and every uncut ring to one
      reference to a kept arc equal to its rewritten node. */
  lemma TopologyRoundTrip(c: seq<Pos>, lines: seq<seq<Range>>, rings: seq<seq<Range>>)
    requires Dedup.ChainsFrom(lines, |c|, 0) && Dedup.ChainsFrom(rings, |c|, 0)
    ensures var (arcs, ls, rs) := Dedup.DedupAll(c, lines, rings);
            && Dedup.AllIn(arcs, |c|) && |ls| == |lines| && |rs| == |rings|
            && (forall k :: 0 <= k < |lines| ==>
                  IndexChain(arcs, ls[k]).Ok? && |IndexChain(arcs, ls[k]).value| == |lines[k]| &&
                  forall t :: 0 <= t < |lines[k]| ==>
                    Decode(c, arcs, IndexChain(arcs, ls[k]).value[t]) == Some(Dedup.Piece(c, lines[k][t])))
            && (forall k :: 0 <= k < |rings| && |rings[k]| > 1 ==>
                  IndexChain(arcs, rs[k]).Ok? && |IndexChain(arcs, rs[k]).value| == |rings[k]| &&
                  forall t :: 0 <= t < |rings[k]| ==>
                    Decode(c, arcs, IndexChain(arcs, rs[k]).value[t]) == Some(Dedup.Piece(c, rings[k][t])))
            && (forall k :: 0 <= k < |rings| && |rings[k]| == 1 ==>
                  IndexChain(arcs, rs[k]).Ok? && |IndexChain(arcs, rs[k]).value| == 1)
  {
    Dedup.DedupRewrites(c, lines, rings);
    var (arcs, ls, rs) := Dedup.DedupAll(c, lines, rings);
    forall k | 0 <= k < |lines|
      ensures IndexChain(arcs, ls[k]).Ok? && |IndexChain(arcs, ls[k]).value| == |lines[k]|
      ensures forall t :: 0 <= t < |lines[k]| ==>
                Decode(c, arcs, IndexChain(arcs, ls[k]).value[t]) == Some(Dedup.Piece(c, lines[k][t]))
    {
      ChainRoundTrip(c, arcs, lines[k], ls[k]);
    }
    forall k | 0 <= k < |rings| && |rings[k]| > 1
      ensures IndexChain(arcs, rs[k]).Ok? && |IndexChain(arcs, rs[k]).value| == |rings[k]|
      ensures forall t :: 0 <= t < |rings[k]| ==>
                Decode(c, arcs, IndexChain(arcs, rs[k]).value[t]) == Some(Dedup.Piece(c, rings[k][t]))
    {
      ChainRoundTrip(c, arcs, rings[k], rs[k]);
    }
    forall k | 0 <= k < |rings| && |rings[k]| == 1
      ensures IndexChain(arcs, rs[k]).Ok? && |IndexChain(arcs, rs[k]).value| == 1
    {
      IndexChainCovered(arcs, rs[k]);
    }
  }

  /** The chain an extracted geometry refers to, after cutting and deduplication (a reference
      always names an existing chain; the empty chain is never used). */
  function ChainOf(ls: seq<seq<Range>>, rs: seq<seq<Range>>, a: Ref): seq<Range>
  {
    match a
    case LineRef(k) => if k < |ls| then ls[k] else []
    case RingRef(k) => if k < |rs| then rs[k] else []
  }

  /** `list(map(self.index_arcs, ...))` over a list of chains: the first failure wins. */
  function IndexRefs(arcs: seq<Range>, ls: seq<seq<Range>>, rs: seq<seq<Range>>, xs: seq<Ref>): Result<seq<seq<int>>>
  {
    if xs == [] then Ok([])
    else
      var front :- IndexRefs(arcs, ls, rs, xs[..|xs| - 1]);
      var last :- IndexChain(arcs, ChainOf(ls, rs, xs[|xs| - 1]));
      Ok(front + [last])
  }

  /** `index_multi_arcs` mapped over the polygons of a MultiPolygon. */
  function IndexPolys(arcs: seq<Range>, ls: seq<seq<Range>>, rs: seq<seq<Range>>, ps: seq<seq<Ref>>): Result<seq<seq<seq<int>>>>
  {
    if ps == [] then Ok([])
    else
      var front :- IndexPolys(arcs, ls, rs, ps[..|ps| - 1]);
      var last :- IndexRefs(arcs, ls, rs, ps[|ps| - 1]);
      Ok(front + [last])
  }

  /** `index_geometry`: lines and polygon rings replaced by their references; points,
      null and unknown types untouched; collections recursed into. */
  function IndexGeom(arcs: seq<Range>, ls: seq<seq<Range>>, rs: seq<seq<Range>>, g: Geom<Ref>): Result<Geom<seq<int>>>
    decreases g
  {
    var kind :- match g.kind
      case NullType => Ok(NullType)
      case Other(t, p) => Ok(Other(t, p))
      case Point(p) => Ok(Point(p))
      case MultiPoint(ps) => Ok(MultiPoint(ps))
      case LineString(a) => (var r :- IndexChain(arcs, ChainOf(ls, rs, a)); Ok(LineString(r)))
      case MultiLineString(xs) => (var r :- IndexRefs(arcs, ls, rs, xs); Ok(MultiLineString(r)))
      case Polygon(xs) => (var r :- IndexRefs(arcs, ls, rs, xs); Ok(Polygon(r)))
      case MultiPolygon(ps) => (var r :- IndexPolys(arcs, ls, rs, ps); Ok(MultiPolygon(r)))
      case GeometryCollection(gs) => (var r :- IndexGeoms(arcs, ls, rs, gs); Ok(GeometryCollection(r)));
    Ok(Geom(kind, g.id, g.bbox, g.properties))
  }

  function IndexGeoms(arcs: seq<Range>, ls: seq<seq<Range>>, rs: seq<seq<Range>>, gs: seq<Geom<Ref>>): Result<seq<Geom<seq<int>>>>
    decreases gs
  {
    if gs == [] then Ok([])
    else
      var first :- IndexGeom(arcs, ls, rs, gs[0]);
      var rest :- IndexGeoms(arcs, ls, rs, gs[1..]);
      Ok([first] + rest)
  }

  /** The loop of `__call__` over the objects, each indexed where it stands. */
  function IndexObjs(arcs: seq<Range>, ls: seq<seq<Range>>, rs: seq<seq<Range>>, os: seq<Named<Ref>>): Result<seq<Named<seq<int>>>>
  {
    if os == [] then Ok([])
    else
      var front :- IndexObjs(arcs, ls, rs, os[..|os| - 1]);
      var last :- IndexGeom(arcs, ls, rs, os[|os| - 1].geom);
      Ok(front + [Named(os[|os| - 1].name, last)])
  }

  /** Indexing keeps the objects, their order and their names. */
  lemma {:induction false} IndexObjsNames(arcs: seq<Range>, ls: seq<seq<Range>>, rs: seq<seq<Range>>, os: seq<Named<Ref>>)
    requires IndexObjs(arcs, ls, rs, os).Ok?
    ensures var out := IndexObjs(arcs, ls, rs, os).value;
            |out| == |os| && forall t :: 0 <= t < |os| ==> out[t].name == os[t].name
  {
    if os != [] {
      IndexObjsNames(arcs, ls, rs, os[..|os| - 1]);
    }
  }

  /** Each of the list loops fails as soon as one of its prefixes does. */
  lemma {:induction false} IndexRefsFails(arcs: seq<Range>, ls: seq<seq<Range>>, rs: seq<seq<Range>>, xs: seq<Ref>, n: nat)
    requires n <= |xs| && IndexRefs(arcs, ls, rs, xs[..n]).Fail?
    ensures IndexRefs(arcs, ls, rs, xs) == IndexRefs(arcs, ls, rs, xs[..n])
    decreases |xs| - n
  {
    if n < |xs| {
      assert xs[..n + 1][..n] == xs[..n];
      IndexRefsFails(arcs, ls, rs, xs, n + 1);
    } else {
      assert xs[..n] == xs;
    }
  }

  lemma {:induction false} IndexPolysFails(arcs: seq<Range>, ls: seq<seq<Range>>, rs: seq<seq<Range>>, ps: seq<seq<Ref>>, n: nat)
    requires n <= |ps| && IndexPolys(arcs, ls, rs, ps[..n]).Fail?
    ensures IndexPolys(arcs, ls, rs, ps) == IndexPolys(arcs, ls, rs, ps[..n])
    decreases |ps| - n
  {
    if n < |ps| {
      assert ps[..n + 1][..n] == ps[..n];
      IndexPolysFails(arcs, ls, rs, ps, n + 1);
    } else {
      assert ps[..n] == ps;
    }
  }

  lemma {:induction false} IndexObjsFails(arcs: seq<Range>, ls: seq<seq<Range>>, rs: seq<seq<Range>>, os: seq<Named<Ref>>, n: nat)
    requires n <= |os| && IndexObjs(arcs, ls, rs, os[..n]).Fail?
    ensures IndexObjs(arcs, ls, rs, os) == IndexObjs(arcs, ls, rs, os[..n])
    decreases |os| - n
  {
    if n < |os| {
      assert os[..n + 1][..n] == os[..n];
      IndexObjsFails(arcs, ls, rs, os, n + 1);
    } else {
      assert os[..n] == os;
    }
  }

  /** The positions of a kept arc, both ends included: `_slice`. */
  function Slices(c: seq<Pos>, arcs: seq<Range>): (r: seq<seq<Pos>>)
    requires Dedup.AllIn(arcs, |c|)
    ensures |r| == |arcs|
  {
    seq(|arcs|, t requires 0 <= t < |arcs| => Dedup.Piece(c, arcs[t]))
  }

  /** The finished topology: "bbox" when there is one, "transform" when the input was
      quantized, the arcs as position lists (delta-encoded under a transform) and the indexed
      objects; "coordinates" is gone. The rewritten "lines" and "rings" chains are not part of
      the returned dict (dedup.py:20-21 pops both keys); they are carried here only so that the
      contracts can relate the indexed objects to the chains they were built from. */
  datatype TopologyOut = TopologyOut(
    bbox: Option<(real, real, real, real)>,
    transform: Option<Transform>,
    arcs: seq<seq<Pos>>,
    lines: seq<seq<Range>>,
    rings: seq<seq<Range>>,
    objects: seq<Named<seq<int>>>)

  /** Lines 46-73 of `__call__` as a value: the kept arcs sliced out of the buffer, the objects
      indexed, and the slices delta-encoded last when there is a transform. */
  function Finished(c: seq<Pos>, kept: seq<Range>, ls: seq<seq<Range>>, rs: seq<seq<Range>>, os: seq<Named<Ref>>,
                    bbox: Option<(real, real, real, real)>, transform: Option<Transform>): Result<TopologyOut>
    requires Dedup.AllIn(kept, |c|)
  {
    var objects :- IndexObjs(kept, ls, rs, os);
    var arcs :- if transform.Some? then MapAll(Slices(c, kept), Delta.DeltaArc) else Ok(Slices(c, kept));
    Ok(TopologyOut(bbox, transform, arcs, ls, rs, objects))
  }

  /** Whether every chain has a piece and every piece lies in a buffer of n positions. */
  function ChainsOk(ls: seq<seq<Range>>, n: int): (b: bool)
    ensures b <==> Dedup.ChainsFrom(ls, n, 0)
  {
    forall k :: 0 <= k < |ls| ==> |ls[k]| >= 1 && forall t :: 0 <= t < |ls[k]| ==> Dedup.InBuf(ls[k][t], n)
  }

  /** What `__call__` has after cutting: the prepared objects with their bounding box and
      transform, the buffer, the line and ring chains, and the cut objects. */
  datatype Stages = Stages(objects: seq<Named<seq<Pos>>>, bbox: Option<(real, real, real, real)>, transform: Option<Transform>,
                           c: seq<Pos>, lines: seq<seq<Range>>, rings: seq<seq<Range>>, os: seq<Named<Ref>>)

  /** Lines 31-43 of `__call__`: objects are the geomified inputs, or, when a transform was
      made, those inputs quantized on the grid of quantization positions over bbox, the
      transform being that grid's inverse. */
  ghost predicate Prepared(inputs: seq<(string, Geometry.InputObject)>, quantization: int, round: real -> int,
                           bbox: Option<(real, real, real, real)>, transform: Option<Transform>,
                           objects: seq<Named<seq<Pos>>>)
  {
    (forall i :: 0 <= i < |inputs| ==> Geometry.GeomifyObject(inputs[i].1).Ok?) &&
    var g := Geomified(inputs);
    if transform.None? then objects == g
    else
      bbox.Some? &&
      var b := bbox.value;
      var q := Prequantize.Grid(b.0, b.1, Prequantize.Factor(quantization, b.0, b.2), Prequantize.Factor(quantization, b.1, b.3));
      MapAll(g, Prequantize.QuantizeObject(q, round)) == Ok(objects) &&
      q.kx != 0.0 && q.ky != 0.0 && transform.value == Transform(1.0 / q.kx, 1.0 / q.ky, b.0, b.1)
  }

  /** The inputs geomified one by one under their names. */
  ghost function Geomified(inputs: seq<(string, Geometry.InputObject)>): seq<Named<seq<Pos>>>
    requires forall i :: 0 <= i < |inputs| ==> Geometry.GeomifyObject(inputs[i].1).Ok?
  {
    seq(|inputs|, i requires 0 <= i < |inputs| => Named(inputs[i].0, Geometry.GeomifyObject(inputs[i].1).value))
  }

  /** Lines 44-45 of `__call__`: the objects extracted into the buffer FlatObjects(objects)
      with the ranges LinesOf/RingsOf, their references ext reading the objects back; the
      junctions found over that buffer with the hash indexes ix; and the cut of ext at those
      junctions leaving the state st and the objects os. */
  ghost predicate CutFrom(objects: seq<Named<seq<Pos>>>, ix: seq<int>, junction: seq<bool>,
                          ext: seq<Named<Ref>>, st: Cut.CState, os: seq<Named<Ref>>)
  {
    var (c, ls, rs) := (Extract.FlatObjects(objects), Extract.LinesOf(objects), Extract.RingsOf(objects));
    && Extract.Tables(c, ls, rs)
    && |ext| == |objects|
    && (forall t :: 0 <= t < |objects| ==> ext[t].name == objects[t].name)
    && (forall t :: 0 <= t < |objects| ==> Extract.RefsBelow(ext[t].geom, |ls|, |rs|))
    && (forall t :: 0 <= t < |objects| ==> Extract.Restore(c, ls, rs, ext[t].geom) == objects[t].geom)
    && |ix| == |c| && |junction| == |c| && Join.IndexesIn(ix)
    && (forall i :: 0 <= i < |c| ==> Join.IsFirst(c, i, ix[i]))
    && Join.Junctions(ix, ls, rs).Ok? && Join.Junctions(ix, ls, rs).value.junction == junction
    && Cut.ObjectsFrom(Join.JunctionPoints(c, ix, junction), ls, rs, Cut.CState(c, [], []), ext, 0) == Ok((st, os))
  }

  // ---------------------------------------------------------------- the indexing object

  class Topology {
    const boundingBox: Bounds.BoundingBox
    const extract: Extract.Extract
    const cut: Cut.Cut
    const dedup: Dedup.Dedup
    var coordinates: seq<Pos>
    var indexByArc: HashMap<Range, Option<nat>>
    /** The arcs `_slice` has registered so far, in order. */
    ghost var sliced: seq<Range>

    ghost predicate Valid()
      reads this, indexByArc, indexByArc.keyStore, indexByArc.valStore
    {
      indexByArc.Valid() && indexByArc.hash == HashArc && indexByArc.equal == EqualArc &&
      Holds(indexByArc.keyStore[..], indexByArc.valStore[..], sliced) &&
      CountEmpty(indexByArc.keyStore[..]) + |sliced| >= indexByArc.size
    }

    /** `__init__`: one object per stage, the bounding box still empty. */
    constructor ()
      ensures boundingBox.Valid() && boundingBox.seen == []
    {
      boundingBox := new Bounds.BoundingBox();
      extract := new Extract.Extract();
      cut := new Cut.Cut();
      dedup := new Dedup.Dedup();
      coordinates := [];
      indexByArc := new HashMap<Range, Option<nat>>(0.0, HashArc, EqualArc, Some(0));
      sliced := [];
    }

    /** The arc index of `__call__`: a map sized for 1.4 entries per arc, keyed by
        `hash_arc`/`equal_arc`, holding nothing yet. */
    method Start(c: seq<Pos>, n: nat)
      modifies this
      ensures Valid() && fresh(indexByArc.keyStore) && fresh(indexByArc.valStore)
      ensures coordinates == c && sliced == [] && indexByArc.size > n
    {
      coordinates := c;
      indexByArc := new HashMap<Range, Option<nat>>(n as real * 1.4, HashArc, EqualArc, Some(0));
      sliced := [];
      AllEmptyCount(indexByArc.keyStore[..]);
      HoldsNothing(indexByArc.keyStore[..], indexByArc.valStore[..]);
    }

    /** `_slice(arc, i)` for the next arc i: register it under its pair of ends and return
        its positions. The "Full HashMap" of `set` cannot happen, because the table has more
        slots than there are arcs. */
    method Slice(arc: Range, i: nat) returns (s: seq<Pos>)
      requires Valid() && i == |sliced| < indexByArc.size && Dedup.InBuf(arc, |coordinates|)
      modifies this`sliced, indexByArc.keyStore, indexByArc.valStore
      ensures Valid() && sliced == old(sliced) + [arc] && s == Dedup.Piece(coordinates, arc)
    {
      ghost var keys, vals := indexByArc.keyStore[..], indexByArc.valStore[..];
      PlaceWhileRoom(keys, HashArc, EqualArc, arc);
      ghost var j := Place(keys, HashArc, EqualArc, arc, |keys|).value;
      var _ := indexByArc.Set(arc, Some(i));
      HoldsStep(keys, vals, sliced, arc);
      InsertRoom(keys, j, arc);
      sliced := sliced + [arc];
      s := coordinates[arc.start..arc.end + 1];
    }

    /** The `map` of `_slice` over the kept arcs. */
    method SliceAll(arcs: seq<Range>) returns (out: seq<seq<Pos>>)
      requires Valid() && sliced == [] && |arcs| < indexByArc.size && Dedup.AllIn(arcs, |coordinates|)
      modifies this`sliced, indexByArc.keyStore, indexByArc.valStore
      ensures Valid() && sliced == arcs && out == Slices(coordinates, arcs)
    {
      out := [];
      for i := 0 to |arcs|
        invariant Valid() && sliced == arcs[..i] && |out| == i
        invariant forall t :: 0 <= t < i ==> out[t] == Dedup.Piece(coordinates, arcs[t])
      {
        var s := Slice(arcs[i], i);
        out := out + [s];
        assert arcs[..i + 1] == arcs[..i] + [arcs[i]];
      }
      assert arcs[..|arcs|] == arcs;
    }

    /** `index_arcs`: walk the chain and look every node up. */
    method IndexArcs(ch: seq<Range>) returns (r: Result<seq<int>>)
      requires Valid()
      ensures r == IndexChain(sliced, ch)
    {
      var indexes: seq<int> := [];
      for t := 0 to |ch|
        invariant IndexChain(sliced, ch[..t]) == Ok(indexes)
      {
        var index := indexByArc.Get(ch[t], None);
        HoldsAt(ch[t]);
        assert ch[..t + 1][..t] == ch[..t];
        if index.None? {
          IndexChainFails(sliced, ch, t + 1);
          return Fail(TypeError);
        }
        indexes := indexes + [Signed(index.value, ch[t])];
      }
      assert ch[..|ch|] == ch;
      return Ok(indexes);
    }

    /** The index answers key k as Lookup does. */
    lemma HoldsAt(k: Range)
      requires Valid()
      ensures Stored(indexByArc.keyStore[..], indexByArc.valStore[..], k) == Lookup(sliced, k)
    {
      assert Answers(indexByArc.keyStore[..], indexByArc.valStore[..], sliced, k);
    }

    /** `list(map(self.index_arcs, ...))` over the chains of a MultiLineString or Polygon. */
    method IndexAll(ls: seq<seq<Range>>, rs: seq<seq<Range>>, xs: seq<Ref>) returns (r: Result<seq<seq<int>>>)
      requires Valid()
      ensures r == IndexRefs(sliced, ls, rs, xs)
    {
      var out: seq<seq<int>> := [];
      for i := 0 to |xs|
        invariant IndexRefs(sliced, ls, rs, xs[..i]) == Ok(out)
      {
        var x := IndexArcs(ChainOf(ls, rs, xs[i]));
        assert xs[..i + 1][..i] == xs[..i];
        if x.Fail? {
          IndexRefsFails(sliced, ls, rs, xs, i + 1);
          return Fail(x.error);
        }
        out := out + [x.value];
      }
      assert xs[..|xs|] == xs;
      return Ok(out);
    }

    /** `index_multi_arcs` over the polygons of a MultiPolygon. */
    method IndexPolygons(ls: seq<seq<Range>>, rs: seq<seq<Range>>, ps: seq<seq<Ref>>) returns (r: Result<seq<seq<seq<int>>>>)
      requires Valid()
      ensures r == IndexPolys(sliced, ls, rs, ps)
    {
      var out: seq<seq<seq<int>>> := [];
      for i := 0 to |ps|
        invariant IndexPolys(sliced, ls, rs, ps[..i]) == Ok(out)
      {
        var x := IndexAll(ls, rs, ps[i]);
        assert ps[..i + 1][..i] == ps[..i];
        if x.Fail? {
          IndexPolysFails(sliced, ls, rs, ps, i + 1);
          return Fail(x.error);
        }
        out := out + [x.value];
      }
      assert ps[..|ps|] == ps;
      return Ok(out);
    }

    /** `index_geometry`: dispatch on the type. */
    method IndexGeometry(ls: seq<seq<Range>>, rs: seq<seq<Range>>, g: Geom<Ref>) returns (r: Result<Geom<seq<int>>>)
      requires Valid()
      ensures r == IndexGeom(sliced, ls, rs, g)
      decreases g, 1
    {
      var kind: Kind<seq<int>>;
      match g.kind {
        case NullType => kind := NullType;
        case Other(t, p) => kind := Other(t, p);
        case Point(p) => kind := Point(p);
        case MultiPoint(ps) => kind := MultiPoint(ps);
        case LineString(a) =>
          var x := IndexArcs(ChainOf(ls, rs, a));
          if x.Fail? {
            return Fail(x.error);
          }
          kind := LineString(x.value);
        case MultiLineString(xs) =>
          var x := IndexAll(ls, rs, xs);
          if x.Fail? {
            return Fail(x.error);
          }
          kind := MultiLineString(x.value);
        case Polygon(xs) =>
          var x := IndexAll(ls, rs, xs);
          if x.Fail? {
            return Fail(x.error);
          }
          kind := Polygon(x.value);
        case MultiPolygon(ps) =>
          var x := IndexPolygons(ls, rs, ps);
          if x.Fail? {
            return Fail(x.error);
          }
          kind := MultiPolygon(x.value);
        case GeometryCollection(gs) =>
          var x := IndexGeometries(ls, rs, gs);
          if x.Fail? {
            return Fail(x.error);
          }
          kind := GeometryCollection(x.value);
      }
      return Ok(Geom(kind, g.id, g.bbox, g.properties));
    }

    /** `_geometry_collection_call`: each member in turn. */
    method IndexGeometries(ls: seq<seq<Range>>, rs: seq<seq<Range>>, gs: seq<Geom<Ref>>) returns (r: Result<seq<Geom<seq<int>>>>)
      requires Valid()
      ensures r == IndexGeoms(sliced, ls, rs, gs)
      decreases gs, 0
    {
      if gs == [] {
        return Ok([]);
      }
      var first := IndexGeometry(ls, rs, gs[0]);
      if first.Fail? {
        return Fail(first.error);
      }
      var rest := IndexGeometries(ls, rs, gs[1..]);
      if rest.Fail? {
        return Fail(rest.error);
      }
      return Ok([first.value] + rest.value);
    }

    /** The loop over the objects in `__call__`. */
    method IndexObjects(ls: seq<seq<Range>>, rs: seq<seq<Range>>, os: seq<Named<Ref>>) returns (r: Result<seq<Named<seq<int>>>>)
      requires Valid()
      ensures r == IndexObjs(sliced, ls, rs, os)
    {
      var out: seq<Named<seq<int>>> := [];
      for i := 0 to |os|
        invariant IndexObjs(sliced, ls, rs, os[..i]) == Ok(out)
      {
        var x := IndexGeometry(ls, rs, os[i].geom);
        assert os[..i + 1][..i] == os[..i];
        if x.Fail? {
          IndexObjsFails(sliced, ls, rs, os, i + 1);
          return Fail(x.error);
        }
        out := out + [Named(os[i].name, x.value)];
      }
      assert os[..|os|] == os;
      return Ok(out);
    }

    /** Lines 46-73 of `__call__`: a fresh arc index, the arcs sliced and registered, the
        objects indexed, and the arcs delta-encoded when there is a transform. */
    method Finish(c: seq<Pos>, kept: seq<Range>, ls: seq<seq<Range>>, rs: seq<seq<Range>>, os: seq<Named<Ref>>,
                  bbox: Option<(real, real, real, real)>, transform: Option<Transform>) returns (r: Result<TopologyOut>)
      requires Dedup.AllIn(kept, |c|)
      modifies this
      ensures r == Finished(c, kept, ls, rs, os, bbox, transform)
    {
      Start(c, |kept|);
      var arcs := SliceAll(kept);
      var objects := IndexObjects(ls, rs, os);
      if objects.Fail? {
        return Fail(objects.error);
      }
      coordinates := [];
      if transform.Some? {
        var buf := new seq<Pos>[|arcs|](t requires 0 <= t < |arcs| => arcs[t]);
        assert buf[..] == arcs;
        var encoded := Delta.Call(buf);
        if encoded.Fail? {
          return Fail(encoded.error);
        }
        arcs := buf[..];
      }
      return Ok(TopologyOut(bbox, transform, arcs, ls, rs, objects.value));
    }

    /** Lines 38-44 of `__call__`: the normalised objects, their bounding box, and the
        transform of prequantization when it is asked for and there is a bounding box. */
    method Prepare(round: real -> int, inputs: seq<(string, Geometry.InputObject)>, quantization: int)
      returns (r: Result<(seq<Named<seq<Pos>>>, Option<(real, real, real, real)>, Option<Transform>)>)
      requires boundingBox.Valid()
      modifies boundingBox
      ensures boundingBox.Valid()
      ensures r.Ok? ==> forall i :: 0 <= i < |inputs| ==> Geometry.GeomifyObject(inputs[i].1).Ok?
      ensures r.Ok? ==> (r.value.1.None? <==> boundingBox.seen == [])
      ensures r.Ok? ==> (r.value.2.Some? <==> quantization > 0 && r.value.1.Some?)
      ensures r.Ok? ==> |r.value.0| == |inputs| && forall i :: 0 <= i < |inputs| ==> r.value.0[i].name == inputs[i].0
      ensures r.Ok? ==> Prepared(inputs, quantization, round, r.value.1, r.value.2, r.value.0)
      ensures r.Ok? ==> boundingBox.seen == old(boundingBox.seen) + Bounds.VisitedObjects(Geomified(inputs))
      ensures r.Ok? && r.value.1.Some? ==>
                r.value.1.value == (boundingBox.x0.v, boundingBox.y0.v, boundingBox.x1.v, boundingBox.y1.v)
    {
      var geomified := Geometry.Geomify(inputs);
      if geomified.Fail? {
        return Fail(geomified.error);
      }
      var objects := geomified.value;
      assert objects == Geomified(inputs);
      var bbox := boundingBox.Call(objects);
      if quantization > 0 && bbox.Some? {
        var q := Prequantize.Prequantize(objects, bbox.value, quantization, round);
        if q.Fail? {
          return Fail(q.error);
        }
        return Ok((q.value.0, bbox, Some(q.value.1)));
      }
      return Ok((objects, bbox, None));
    }

    /** Line 45 of `__call__` up to deduplication: the objects extracted and cut, with the
        buffer and the chains the cut leaves. */
    method Chains(bits: real -> bv64, objects: seq<Named<seq<Pos>>>)
      returns (r: Result<(seq<Pos>, seq<seq<Range>>, seq<seq<Range>>, seq<Named<Ref>>)>, ghost ext: seq<Named<Ref>>,
               ghost ix: seq<int>, ghost junction: seq<bool>)
      modifies extract, cut, cut.join
      ensures r.Ok? ==> Dedup.ChainsFrom(r.value.1, |r.value.0|, 0) && Dedup.ChainsFrom(r.value.2, |r.value.0|, 0)
      ensures r.Ok? ==> |r.value.3| == |objects| && forall i :: 0 <= i < |objects| ==> r.value.3[i].name == objects[i].name
      ensures r.Ok? ==> CutFrom(objects, ix, junction, ext, Cut.CState(r.value.0, r.value.1, r.value.2), r.value.3)
      ensures ix == cut.join.indexes && junction == cut.join.State().junction
    {
      var extracted := extract.Call(objects);
      ext := extracted;
      var cutObjects := cut.Call(bits, extract.coordinates, extract.lines, extract.rings, extracted);
      if cutObjects.Fail? {
        return Fail(cutObjects.error), ext, cut.join.indexes, cut.join.State().junction;
      }
      var buffer := cut.coordinates[..];
      if !ChainsOk(cut.lines, |buffer|) || !ChainsOk(cut.rings, |buffer|) {
        return Fail(IndexError), ext, cut.join.indexes, cut.join.State().junction;
      }
      return Ok((buffer, cut.lines, cut.rings, cutObjects.value)), ext, cut.join.indexes, cut.join.State().junction;
    }

    /** Lines 45-73 of `__call__` after cutting: the chains deduplicated, then the kept arcs
        sliced, the objects indexed and the arcs encoded. */
    method Deduplicate(c: seq<Pos>, ls: seq<seq<Range>>, rs: seq<seq<Range>>, os: seq<Named<Ref>>,
                       bbox: Option<(real, real, real, real)>, transform: Option<Transform>)
      returns (r: Result<TopologyOut>, ghost kept: seq<Range>)
      requires Dedup.ChainsFrom(ls, |c|, 0) && Dedup.ChainsFrom(rs, |c|, 0)
      modifies this, dedup
      ensures var d := Dedup.DedupAll(c, ls, rs);
              kept == d.0 && Dedup.AllIn(kept, |c|) && r == Finished(c, kept, d.1, d.2, os, bbox, transform)
      ensures r.Ok? ==> (kept, r.value.lines, r.value.rings) == Dedup.DedupAll(c, ls, rs)
      ensures r.Ok? ==> |r.value.objects| == |os| && forall i :: 0 <= i < |os| ==> r.value.objects[i].name == os[i].name
      ensures r.Ok? ==> r.value.bbox == bbox && r.value.transform == transform
    {
      var arcs := dedup.Call(c, ls, rs);
      Dedup.DedupRewrites(c, ls, rs);
      r := Finish(c, arcs, dedup.lines, dedup.rings, os, bbox, transform);
      kept := arcs;
      if r.Ok? {
        IndexObjsNames(arcs, dedup.lines, dedup.rings, os);
      }
    }

    /** Lines 31-45 of `__call__`: the inputs prepared, then extracted and cut; the ghost
        results are the extracted objects and the junction pass's indexes and flags. */
    method Front(bits: real -> bv64, round: real -> int, inputs: seq<(string, Geometry.InputObject)>, quantization: int)
      returns (r: Result<Stages>, ghost ext: seq<Named<Ref>>, ghost ix: seq<int>, ghost junction: seq<bool>)
      requires boundingBox.Valid()
      modifies boundingBox, extract, cut, cut.join
      ensures boundingBox.Valid()
      ensures r.Ok? ==> (r.value.bbox.None? <==> boundingBox.seen == [])
      ensures r.Ok? ==> (r.value.transform.Some? <==> quantization > 0 && r.value.bbox.Some?)
      ensures r.Ok? ==> |r.value.os| == |inputs| && forall i :: 0 <= i < |inputs| ==> r.value.os[i].name == inputs[i].0
      ensures r.Ok? ==> Dedup.ChainsFrom(r.value.lines, |r.value.c|, 0) && Dedup.ChainsFrom(r.value.rings, |r.value.c|, 0)
      ensures r.Ok? ==> Prepared(inputs, quantization, round, r.value.bbox, r.value.transform, r.value.objects) == true
      ensures r.Ok? ==> CutFrom(r.value.objects, ix, junction, ext, Cut.CState(r.value.c, r.value.lines, r.value.rings), r.value.os) == true
      ensures r.Ok? ==> ix == cut.join.indexes && junction == cut.join.State().junction
    {
      var start := Prepare(round, inputs, quantization);
      if start.Fail? {
        return Fail(start.error), [], [], [];
      }
      var (objects, bbox, transform) := start.value;
      var cutDone;
      cutDone, ext, ix, junction := Chains(bits, objects);
      if cutDone.Fail? {
        return Fail(cutDone.error), ext, ix, junction;
      }
      var (buffer, ls, rs, cutObjects) := cutDone.value;
      return Ok(Stages(objects, bbox, transform, buffer, ls, rs, cutObjects)), ext, ix, junction;
    }

    /** `__call__`: normalise the input, bound it, quantize it when asked to and there is a
        bounding box, extract, cut and deduplicate, then slice, index and encode. The ghost
        results name what the stages produced: the prepared objects, their extracted form, the
        buffer, the kept arcs, the chains before deduplication and the objects after cutting. */
    method Call(bits: real -> bv64, round: real -> int, inputs: seq<(string, Geometry.InputObject)>, quantization: int)
      returns (r: Result<TopologyOut>, ghost prepared: seq<Named<seq<Pos>>>, ghost ext: seq<Named<Ref>>,
               ghost c: seq<Pos>, ghost kept: seq<Range>,
               ghost lines: seq<seq<Range>>, ghost rings: seq<seq<Range>>, ghost os: seq<Named<Ref>>,
               ghost ix: seq<int>, ghost junction: seq<bool>)
      requires boundingBox.Valid()
      modifies this, boundingBox, extract, cut, cut.join, dedup
      ensures boundingBox.Valid()
      ensures r.Ok? ==> (r.value.bbox.None? <==> boundingBox.seen == [])
      ensures r.Ok? ==> (r.value.transform.Some? <==> quantization > 0 && r.value.bbox.Some?)
      ensures r.Ok? ==> |r.value.objects| == |inputs| &&
                        forall i :: 0 <= i < |inputs| ==> r.value.objects[i].name == inputs[i].0
      ensures r.Ok? ==> && Dedup.ChainsFrom(lines, |c|, 0) && Dedup.ChainsFrom(rings, |c|, 0)
                        && (kept, r.value.lines, r.value.rings) == Dedup.DedupAll(c, lines, rings)
                        && Dedup.AllIn(kept, |c|)
                        && r == Finished(c, kept, r.value.lines, r.value.rings, os, r.value.bbox, r.value.transform)
      ensures r.Ok? ==> Prepared(inputs, quantization, round, r.value.bbox, r.value.transform, prepared) == true
      ensures r.Ok? ==> CutFrom(prepared, ix, junction, ext, Cut.CState(c, lines, rings), os) == true
      ensures r.Ok? ==> ix == cut.join.indexes && junction == cut.join.State().junction
    {
      var front;
      front, ext, ix, junction := Front(bits, round, inputs, quantization);
      if front.Fail? {
        return Fail(front.error), [], ext, [], [], [], [], [], ix, junction;
      }
      var st := front.value;
      r, kept := Deduplicate(st.c, st.lines, st.rings, st.os, st.bbox, st.transform);
      prepared, c, lines, rings, os := st.objects, st.c, st.lines, st.rings, st.os;
    }
  }
}
