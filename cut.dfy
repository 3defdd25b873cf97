/** cut.py: every extracted line and ring becomes a chain of pieces, cut at each junction
    strictly inside it. A ring that does not start at a junction but passes through one is first
    rotated in the shared buffer so that it starts there; a ring without junctions stays whole.

    The chain of a range, linked dicts {0: start, 1: end, "next": ...} in the program, is a
    sequence of ranges here; consecutive pieces share their boundary position. */
module Cut {
  import opened Base
  import opened Geo
  import opened Hash
  import opened PointHash
  import opened Extract
  import Join

  // ---------------------------------------------------------------- reversing and rotating

  /** The buffer with the window [s, e) rotated right by off: its last off positions move to
      the front of the window. */
  function RotateWindow(w: seq<Pos>, s: int, e: int, off: int): (r: seq<Pos>)
    requires 0 <= s <= e <= |w| && 0 <= off <= e - s
    ensures |r| == |w|
  {
    seq(|w|, k requires 0 <= k < |w| =>
      if s <= k < s + off then w[k + (e - s - off)]
      else if s + off <= k < e then w[k - off]
      else w[k])
  }

  /** z is w with the window [s, e) read backwards: position k of the window holds the old
      position s + e - 1 - k, and everything outside the window is unchanged. */
  ghost predicate WindowReversed(w: seq<Pos>, z: seq<Pos>, s: int, e: int)
    requires 0 <= s <= e <= |w|
  {
    |z| == |w| &&
    forall k {:trigger z[k]} :: 0 <= k < |z| ==> z[k] == if s <= k < e then w[s + e - 1 - k] else w[k]
  }

  /** Reading a window backwards is reversing that slice and keeping the rest. */
  lemma WindowReversedSlices(w: seq<Pos>, z: seq<Pos>, s: int, e: int)
    requires 0 <= s <= e <= |w|
    ensures WindowReversed(w, z, s, e) <==> z == w[..s] + Reversed(w[s..e]) + w[e..]
  {
    ReversedIndex(w[s..e]);
    var r := w[..s] + Reversed(w[s..e]) + w[e..];
    assert |r| == |w|;
    assert forall k :: 0 <= k < |w| ==> r[k] == if s <= k < e then w[s + e - 1 - k] else w[k];
    if WindowReversed(w, z, s, e) {
      assert forall k :: 0 <= k < |w| ==> r[k] == z[k];
    }
  }

  /** The three reversals of `rotate_array`, position by position, rotate the window. */
  lemma ReversalsRotate(w: seq<Pos>, x: seq<Pos>, y: seq<Pos>, z: seq<Pos>, s: int, e: int, off: int)
    requires 0 <= s <= e <= |w| && 0 <= off <= e - s
    requires WindowReversed(w, x, s, e) && WindowReversed(x, y, s, s + off) && WindowReversed(y, z, s + off, e)
    ensures z == RotateWindow(w, s, e, off)
  {
    forall k | 0 <= k < |w|
      ensures z[k] == RotateWindow(w, s, e, off)[k]
    {
      if s <= k < s + off {
        assert z[k] == y[k] == x[s + s + off - 1 - k];
      } else if s + off <= k < e {
        assert z[k] == y[s + off + e - 1 - k] == x[s + off + e - 1 - k];
      } else {
        assert z[k] == y[k] == x[k];
      }
    }
  }

  /** The three reversals of `rotate_array` rotate the window. */
  lemma RotateByReversals(w: seq<Pos>, x: seq<Pos>, y: seq<Pos>, z: seq<Pos>, s: int, e: int, off: int)
    requires 0 <= s <= e <= |w| && 0 <= off <= e - s
    requires x == w[..s] + Reversed(w[s..e]) + w[e..]
    requires y == x[..s] + Reversed(x[s..s + off]) + x[s + off..]
    requires z == y[..s + off] + Reversed(y[s + off..e]) + y[e..]
    ensures z == RotateWindow(w, s, e, off)
  {
    WindowReversedSlices(w, x, s, e);
    WindowReversedSlices(x, y, s, s + off);
    WindowReversedSlices(y, z, s + off, e);
    ReversalsRotate(w, x, y, z, s, e, off);
  }

  /** A rotated window is the last off positions of the old window followed by the others;
      in particular the old window's position e - off is now at s. */
  lemma RotateWindowParts(w: seq<Pos>, s: int, e: int, off: int)
    requires 0 <= s <= e <= |w| && 0 <= off <= e - s
    ensures RotateWindow(w, s, e, off) == w[..s] + w[e - off..e] + w[s..e - off] + w[e..]
    ensures off > 0 ==> RotateWindow(w, s, e, off)[s] == w[e - off]
  {
    assert forall k :: 0 <= k < |w| ==>
      (w[..s] + w[e - off..e] + w[s..e - off] + w[e..])[k] == RotateWindow(w, s, e, off)[k];
  }

  /** Rotating by off and then by the rest of the window's length restores the window. */
  lemma RotateWindowBack(w: seq<Pos>, s: int, e: int, off: int)
    requires 0 <= s <= e <= |w| && 0 <= off <= e - s
    ensures RotateWindow(RotateWindow(w, s, e, off), s, e, e - s - off) == w
  {
    var r := RotateWindow(w, s, e, off);
    var b := RotateWindow(r, s, e, e - s - off);
    forall k | 0 <= k < |w|
      ensures b[k] == w[k]
    {
    }
  }

  /** `reverse(array, start, end)`: exchange the outermost pair of the window, then the next,
      until the middle. */
  method Reverse(a: array<Pos>, start: int, end: int)
    requires 0 <= start <= end <= a.Length
    modifies a
    ensures a[..] == old(a[..start]) + Reversed(old(a[start..end])) + old(a[end..])
  {
    ghost var w := a[..];
    var mid := start + (end - start) / 2;
    var i, j := start, end - 1;
    while i < mid
      invariant start <= i <= mid && j == start + end - 1 - i
      invariant end - start - 1 <= 2 * (mid - start) <= end - start
      invariant forall k {:trigger a[k]} :: 0 <= k < a.Length ==>
                  a[k] == if start <= k < i || j < k < end then w[start + end - 1 - k] else w[k]
    {
      var t := a[i];
      a[i] := a[j];
      a[j] := t;
      i, j := i + 1, j - 1;
    }
    assert WindowReversed(w, a[..], start, end);
    WindowReversedSlices(w, a[..], start, end);
  }

  /** `rotate_array(array, start, end, offset)`: three reversals, which move the last offset
      positions of the window to its front. */
  method RotateArray(a: array<Pos>, start: int, end: int, offset: int)
    requires 0 <= start <= end <= a.Length && 0 <= offset <= end - start
    modifies a
    ensures a[..] == RotateWindow(old(a[..]), start, end, offset)
  {
    ghost var w := a[..];
    Reverse(a, start, end);
    ghost var x := a[..];
    Reverse(a, start, start + offset);
    ghost var y := a[..];
    Reverse(a, start + offset, end);
    RotateByReversals(w, x, y, a[..], start, end, offset);
  }

  // ---------------------------------------------------------------- chains, as functions

  /** The pieces of a range whose current piece starts at cur, with positions m..e-1 still to
      look at: a junction at m ends the current piece there and starts the next. */
  function Chain(J: set<Pos>, c: seq<Pos>, cur: int, m: int, e: int): (ch: seq<Range>)
    requires 0 <= m && e <= |c|
    ensures |ch| >= 1 && ch[0].start == cur && ch[|ch| - 1].end == e
    decreases e - m
  {
    if m >= e then [Range(cur, e)]
    else if c[m] in J then [Range(cur, m)] + Chain(J, c, m, m + 1, e)
    else Chain(J, c, cur, m + 1, e)
  }

  /** The positions a chain is cut at: the starts of all pieces but the first. */
  function Boundaries(ch: seq<Range>): set<int>
  {
    set i | 1 <= i < |ch| :: ch[i].start
  }

  /** Each piece of a chain ends where the next starts, and all but the last are not empty. */
  predicate Linked(ch: seq<Range>)
  {
    forall i :: 0 <= i < |ch| - 1 ==> ch[i].end == ch[i + 1].start && ch[i].start < ch[i].end
  }

  /** A chain covers its range without gaps. */
  lemma {:induction false} ChainLinked(J: set<Pos>, c: seq<Pos>, cur: int, m: int, e: int)
    requires 0 <= m && e <= |c| && cur < m
    ensures Linked(Chain(J, c, cur, m, e))
    decreases e - m
  {
    if m < e {
      var next := if c[m] in J then m else cur;
      ChainLinked(J, c, next, m + 1, e);
      if c[m] in J {
        LinkedCons(Range(cur, m), Chain(J, c, next, m + 1, e));
      }
    }
  }

  lemma LinkedCons(x: Range, rest: seq<Range>)
    requires |rest| >= 1 && Linked(rest) && x.end == rest[0].start && x.start < x.end
    ensures Linked([x] + rest)
  {
    var ch := [x] + rest;
    forall i | 0 <= i < |ch| - 1
      ensures ch[i].end == ch[i + 1].start && ch[i].start < ch[i].end
    {
      if i > 0 {
        assert ch[i] == rest[i - 1] && ch[i + 1] == rest[i];
      }
    }
  }

  /** One step of the walk of `cut_line`: a junction at m closes the current piece. */
  lemma ChainStep(J: set<Pos>, c: seq<Pos>, cur: int, m: int, e: int, done: seq<Range>, goal: seq<Range>)
    requires 0 <= m < e <= |c| && done + Chain(J, c, cur, m, e) == goal
    ensures c[m] in J ==> (done + [Range(cur, m)]) + Chain(J, c, m, m + 1, e) == goal
    ensures c[m] !in J ==> done + Chain(J, c, cur, m + 1, e) == goal
  {
    if c[m] in J {
      assert done + ([Range(cur, m)] + Chain(J, c, m, m + 1, e)) == (done + [Range(cur, m)]) + Chain(J, c, m, m + 1, e);
    }
  }

  /** The junction positions among m..e-1. */
  function JunctionsIn(J: set<Pos>, c: seq<Pos>, m: int, e: int): set<int>
    requires 0 <= m && e <= |c|
  {
    set t | m <= t < e && c[t] in J
  }

  lemma BoundariesCons(x: Range, rest: seq<Range>)
    requires |rest| >= 1
    ensures Boundaries([x] + rest) == {rest[0].start} + Boundaries(rest)
  {
    var ch := [x] + rest;
    assert forall i :: 1 <= i < |ch| ==> ch[i] == rest[i - 1];
    forall t | t in Boundaries(ch) ensures t in {rest[0].start} + Boundaries(rest) {
      var i :| 1 <= i < |ch| && ch[i].start == t;
      if i > 1 {
        assert rest[i - 1].start in Boundaries(rest);
      }
    }
    assert rest[0].start == ch[1].start;
    forall t | t in Boundaries(rest) ensures t in Boundaries(ch) {
      var i :| 1 <= i < |rest| && rest[i].start == t;
      assert ch[i + 1].start in Boundaries(ch);
    }
  }

  /** A chain is cut exactly at the junctions from m on. */
  lemma {:induction false} ChainBoundaries(J: set<Pos>, c: seq<Pos>, cur: int, m: int, e: int)
    requires 0 <= m && e <= |c|
    ensures Boundaries(Chain(J, c, cur, m, e)) == JunctionsIn(J, c, m, e)
    decreases e - m
  {
    if m < e {
      var next := if c[m] in J then m else cur;
      ChainBoundaries(J, c, next, m + 1, e);
      var rest := Chain(J, c, next, m + 1, e);
      if c[m] in J {
        BoundariesCons(Range(cur, m), rest);
        assert JunctionsIn(J, c, m, e) == {m} + JunctionsIn(J, c, m + 1, e);
      } else {
        assert JunctionsIn(J, c, m, e) == JunctionsIn(J, c, m + 1, e);
      }
    }
  }

  /** The first junction among positions m..e-1. */
  function FirstJunction(J: set<Pos>, c: seq<Pos>, m: int, e: int): (r: Option<int>)
    requires 0 <= m && e <= |c|
    ensures r.Some? ==> m <= r.value < e && c[r.value] in J && forall t :: m <= t < r.value ==> c[t] !in J
    ensures r.None? ==> forall t :: m <= t < e ==> c[t] !in J
    decreases e - m
  {
    if m >= e then None
    else if c[m] in J then Some(m)
    else FirstJunction(J, c, m + 1, e)
  }

  /** The buffer after `cut_ring` rotates the ring [s, e] at m: the window [s, e) rotated right
      by e - m, which brings m to s, and the closing position e set to the new start. */
  function RotatedAt(c: seq<Pos>, s: int, e: int, m: int): (r: seq<Pos>)
    requires 0 <= s <= m <= e < |c|
    ensures |r| == |c|
  {
    var rot := RotateWindow(c, s, e, e - m);
    rot[e := rot[s]]
  }

  /** What `cut_ring` does to the ring [s, e]: the buffer afterwards and the chain. A ring that
      starts at a junction is cut as a line. Otherwise, at the first junction m inside it, the
      window [s, e) is rotated right by e - m, which brings m to s, the closing position e is
      set to the new start, and the rotated ring is cut as a line. Reading the start of an
      empty ring at the very end of the buffer is Python's IndexError. */
  function RingCut(J: set<Pos>, c: seq<Pos>, s: int, e: int): (r: Result<(seq<Pos>, seq<Range>)>)
    requires 0 <= s <= e + 1 <= |c|
    ensures r.Fail? <==> s == |c|
    ensures r.Ok? ==> |r.value.0| == |c|
  {
    if s == |c| then Fail(IndexError)
    else if c[s] in J then Ok((c, Chain(J, c, s, s + 1, e)))
    else
      match FirstJunction(J, c, s + 1, e)
      case None => Ok((c, [Range(s, e)]))
      case Some(m) =>
        var c' := RotatedAt(c, s, e, m);
        Ok((c', Chain(J, c', s, s + 1, e)))
  }

  /** A ring without junctions keeps its window and stays one piece. */
  lemma RingWithoutJunctions(J: set<Pos>, c: seq<Pos>, s: int, e: int)
    requires 0 <= s <= e < |c|
    requires forall t :: s <= t < e ==> c[t] !in J
    ensures RingCut(J, c, s, e) == Ok((c, [Range(s, e)]))
  {
    var f := FirstJunction(J, c, s + 1, e);
  }

  /** A ring that is rotated starts and ends at a junction afterwards, its window is the old
      one from the junction on followed by the old one up to it, and nothing outside the
      window moves. */
  lemma RotatedRing(J: set<Pos>, c: seq<Pos>, s: int, e: int)
    requires 0 <= s <= e < |c| && c[s] !in J
    requires FirstJunction(J, c, s + 1, e).Some?
    ensures var m := FirstJunction(J, c, s + 1, e).value;
            var c' := RingCut(J, c, s, e).value.0;
            c'[s] == c[m] && c'[s] in J && c'[e] == c'[s] &&
            c'[s..e] == c[m..e] + c[s..m] &&
            c'[..s] == c[..s] && c'[e + 1..] == c[e + 1..]
  {
    var m := FirstJunction(J, c, s + 1, e).value;
    RotateWindowParts(c, s, e, e - m);
    var rot := RotateWindow(c, s, e, e - m);
    assert rot[s..e] == c[m..e] + c[s..m] by {
      assert rot == c[..s] + c[m..e] + c[s..m] + c[e..];
    }
  }

  /** The rotation happens at most once: cutting the ring again, in the buffer the first cut
      left, changes nothing and gives the same chain. */
  lemma RingCutTwice(J: set<Pos>, c: seq<Pos>, s: int, e: int)
    requires 0 <= s <= e + 1 <= |c| && s < |c|
    ensures var r := RingCut(J, c, s, e).value;
            RingCut(J, r.0, s, e) == Ok(r)
  {
    if c[s] !in J && FirstJunction(J, c, s + 1, e).Some? {
      RotatedRing(J, c, s, e);
    }
  }

  // ---------------------------------------------------------------- the whole traversal

  /** What the traversal has built so far: the buffer, the line chains and the ring chains. */
  datatype CState = CState(c: seq<Pos>, lines: seq<seq<Range>>, rings: seq<seq<Range>>)

  /** The extracted range a reference stands for (`o["arcs"]` of an extracted geometry). */
  function Lookup(ls: seq<Range>, rs: seq<Range>, a: Ref): Range
    requires RefBelow(a, |ls|, |rs|)
  {
    if a.LineRef? then ls[a.k] else rs[a.k]
  }

  /** `cut_line` of one range: its chain is appended to the line chains and the geometry now
      refers to it. */
  function LineStep(J: set<Pos>, ls: seq<Range>, rs: seq<Range>, st: CState, a: Ref): (r: (CState, Ref))
    requires RefBelow(a, |ls|, |rs|) && Tables(st.c, ls, rs)
  {
    var rg := Lookup(ls, rs, a);
    (st.(lines := st.lines + [Chain(J, st.c, rg.start, rg.start + 1, rg.end)]), LineRef(|st.lines|))
  }

  /** `cut_ring` of one range. */
  function RingStep(J: set<Pos>, ls: seq<Range>, rs: seq<Range>, st: CState, a: Ref): (r: Result<(CState, Ref)>)
    requires RefBelow(a, |ls|, |rs|) && Tables(st.c, ls, rs)
    ensures r.Ok? ==> |r.value.0.c| == |st.c| && r.value.0.lines == st.lines
  {
    var rg := Lookup(ls, rs, a);
    var x :- RingCut(J, st.c, rg.start, rg.end);
    Ok((CState(x.0, st.lines, st.rings + [x.1]), RingRef(|st.rings|)))
  }

  lemma RingStepOk(J: set<Pos>, ls: seq<Range>, rs: seq<Range>, st: CState, a: Ref, c': seq<Pos>, chain: seq<Range>,
                   st': CState, a': Ref)
    requires RefBelow(a, |ls|, |rs|) && Tables(st.c, ls, rs)
    requires RingCut(J, st.c, Lookup(ls, rs, a).start, Lookup(ls, rs, a).end) == Ok((c', chain))
    requires st' == CState(c', st.lines, st.rings + [chain]) && a' == RingRef(|st.rings|)
    ensures RingStep(J, ls, rs, st, a) == Ok((st', a'))
  {
  }

  /** `list(map(self.cut_line, arcs))` from the i-th arc on. */
  function LinesFrom(J: set<Pos>, ls: seq<Range>, rs: seq<Range>, st: CState, xs: seq<Ref>, i: nat): (r: (CState, seq<Ref>))
    requires i <= |xs| && AllBelow(xs, |ls|, |rs|) && Tables(st.c, ls, rs)
    ensures r.0.c == st.c && r.0.rings == st.rings && |r.1| == |xs| - i
    decreases |xs| - i
  {
    if i == |xs| then (st, [])
    else
      var (st1, a) := LineStep(J, ls, rs, st, xs[i]);
      var (st2, rest) := LinesFrom(J, ls, rs, st1, xs, i + 1);
      (st2, [a] + rest)
  }

  /** `list(map(self.cut_ring, arcs))` from the i-th arc on; the first failure wins. */
  function RingsFrom(J: set<Pos>, ls: seq<Range>, rs: seq<Range>, st: CState, xs: seq<Ref>, i: nat): (r: Result<(CState, seq<Ref>)>)
    requires i <= |xs| && AllBelow(xs, |ls|, |rs|) && Tables(st.c, ls, rs)
    ensures r.Ok? ==> |r.value.0.c| == |st.c| && r.value.0.lines == st.lines && |r.value.1| == |xs| - i
    decreases |xs| - i
  {
    if i == |xs| then Ok((st, []))
    else
      var (st1, a) :- RingStep(J, ls, rs, st, xs[i]);
      var (st2, rest) :- RingsFrom(J, ls, rs, st1, xs, i + 1);
      Ok((st2, [a] + rest))
  }

  /** `list(map(self.cut_multi_ring, arcs))` from the i-th polygon on. */
  function PolysFrom(J: set<Pos>, ls: seq<Range>, rs: seq<Range>, st: CState, ps: seq<seq<Ref>>, i: nat): (r: Result<(CState, seq<seq<Ref>>)>)
    requires i <= |ps| && PolysBelow(ps, |ls|, |rs|) && Tables(st.c, ls, rs)
    ensures r.Ok? ==> |r.value.0.c| == |st.c| && r.value.0.lines == st.lines && |r.value.1| == |ps| - i
    decreases |ps| - i
  {
    if i == |ps| then Ok((st, []))
    else
      var (st1, p) :- RingsFrom(J, ls, rs, st, ps[i], 0);
      var (st2, rest) :- PolysFrom(J, ls, rs, st1, ps, i + 1);
      Ok((st2, [p] + rest))
  }

  /** `cut_geometry`: lines and rings cut in visit order, collections recursed into, every
      other type left alone. */
  function GeomCut(J: set<Pos>, ls: seq<Range>, rs: seq<Range>, st: CState, g: Geom<Ref>): (r: Result<(CState, Geom<Ref>)>)
    requires RefsBelow(g, |ls|, |rs|) && Tables(st.c, ls, rs)
    ensures r.Ok? ==> |r.value.0.c| == |st.c|
    decreases g, 0
  {
    match g.kind
    case LineString(a) =>
      var (st1, a') := LineStep(J, ls, rs, st, a);
      Ok((st1, g.(kind := LineString(a'))))
    case MultiLineString(xs) =>
      var (st1, xs') := LinesFrom(J, ls, rs, st, xs, 0);
      Ok((st1, g.(kind := MultiLineString(xs'))))
    case Polygon(xs) =>
      var (st1, xs') :- RingsFrom(J, ls, rs, st, xs, 0);
      Ok((st1, g.(kind := Polygon(xs'))))
    case MultiPolygon(ps) =>
      var (st1, ps') :- PolysFrom(J, ls, rs, st, ps, 0);
      Ok((st1, g.(kind := MultiPolygon(ps'))))
    case GeometryCollection(gs) =>
      var (st1, gs') :- GeomsFrom(J, ls, rs, st, gs, 0);
      Ok((st1, g.(kind := GeometryCollection(gs'))))
    case _ => Ok((st, g))
  }

  function GeomsFrom(J: set<Pos>, ls: seq<Range>, rs: seq<Range>, st: CState, gs: seq<Geom<Ref>>, i: nat): (r: Result<(CState, seq<Geom<Ref>>)>)
    requires i <= |gs| && (forall t :: 0 <= t < |gs| ==> RefsBelow(gs[t], |ls|, |rs|)) && Tables(st.c, ls, rs)
    ensures r.Ok? ==> |r.value.0.c| == |st.c| && |r.value.1| == |gs| - i
    decreases gs, |gs| - i
  {
    if i == |gs| then Ok((st, []))
    else
      var (st1, g) :- GeomCut(J, ls, rs, st, gs[i]);
      var (st2, rest) :- GeomsFrom(J, ls, rs, st1, gs, i + 1);
      Ok((st2, [g] + rest))
  }

  /** The loop of `__call__` over the objects, from the i-th on. */
  function ObjectsFrom(J: set<Pos>, ls: seq<Range>, rs: seq<Range>, st: CState, os: seq<Named<Ref>>, i: nat): (r: Result<(CState, seq<Named<Ref>>)>)
    requires i <= |os| && (forall t :: 0 <= t < |os| ==> RefsBelow(os[t].geom, |ls|, |rs|)) && Tables(st.c, ls, rs)
    ensures r.Ok? ==> |r.value.0.c| == |st.c| && |r.value.1| == |os| - i
    ensures r.Ok? ==> forall t :: 0 <= t < |r.value.1| ==> r.value.1[t].name == os[i + t].name
    decreases |os| - i
  {
    if i == |os| then Ok((st, []))
    else
      var (st1, g) :- GeomCut(J, ls, rs, st, os[i].geom);
      var (st2, rest) :- ObjectsFrom(J, ls, rs, st1, os, i + 1);
      Ok((st2, [Named(os[i].name, g)] + rest))
  }

  // ---------------------------------------------------------------- the Cut object

  /** What is left of `cut_ring`'s loop. Before the first junction the buffer is untouched,
      nothing is cut and the first junction is still ahead; afterwards the buffer is the
      final one and the pieces cut so far followed by the chain of the rest are the goal. */
  ghost predicate RingLeft(J: set<Pos>, c0: seq<Pos>, s: int, e: int, goal: (seq<Pos>, seq<Range>),
                           fixed: bool, c: seq<Pos>, done: seq<Range>, cur: int, mid: int)
  {
    0 <= s < |c0| && 0 <= mid && e < |c0| && |c| == |c0| &&
    if fixed then c == goal.0 && done + Chain(J, c, cur, mid, e) == goal.1
    else c == c0 && done == [] && cur == s && c0[s] !in J && s + 1 <= mid &&
         FirstJunction(J, c0, s + 1, e) == FirstJunction(J, c0, mid, e)
  }

  /** `cut_ring`'s loop starts with nothing cut, the buffer untouched and the flag telling
      whether the ring starts at a junction. */
  lemma RingLeftInit(J: set<Pos>, c0: seq<Pos>, s: int, e: int)
    requires 0 <= s <= e + 1 <= |c0| && s < |c0| && e < |c0|
    ensures RingLeft(J, c0, s, e, RingCut(J, c0, s, e).value, c0[s] in J, c0, [], s, s + 1)
  {
  }

  /** One turn of `cut_ring`'s loop at position mid, when it holds no junction: the walk
      moves on. */
  lemma RingPass(J: set<Pos>, c0: seq<Pos>, s: int, e: int, goal: (seq<Pos>, seq<Range>),
                 fixed: bool, c: seq<Pos>, done: seq<Range>, cur: int, mid: int)
    requires mid < e && RingLeft(J, c0, s, e, goal, fixed, c, done, cur, mid) && c[mid] !in J
    ensures RingLeft(J, c0, s, e, goal, fixed, c, done, cur, mid + 1)
  {
    if fixed {
      ChainStep(J, c, cur, mid, e, done, goal.1);
    }
  }

  /** ... when it holds a junction and the ring is fixed: the piece is cut there. */
  lemma RingCutAt(J: set<Pos>, c0: seq<Pos>, s: int, e: int, goal: (seq<Pos>, seq<Range>),
                  c: seq<Pos>, done: seq<Range>, cur: int, mid: int)
    requires mid < e && RingLeft(J, c0, s, e, goal, true, c, done, cur, mid) && c[mid] in J
    ensures RingLeft(J, c0, s, e, goal, true, c, done + [Range(cur, mid)], mid, mid + 1)
  {
    ChainStep(J, c, cur, mid, e, done, goal.1);
  }

  /** ... when it holds the first junction of a ring that is not fixed: the buffer RingCut
      describes is the rotation there, and the walk starts over on it. */
  lemma RingRotateAt(J: set<Pos>, c0: seq<Pos>, s: int, e: int, c: seq<Pos>, done: seq<Range>, cur: int, mid: int)
    requires 0 <= s <= e + 1 <= |c0| && s < |c0| && mid < e
    requires RingLeft(J, c0, s, e, RingCut(J, c0, s, e).value, false, c, done, cur, mid) && c[mid] in J
    ensures var goal := RingCut(J, c0, s, e).value;
            s < mid && RotatedAt(c0, s, e, mid) == goal.0 && RingLeft(J, c0, s, e, goal, true, goal.0, [], s, s + 1)
  {
    assert FirstJunction(J, c0, s + 1, e) == Some(mid);
  }

  /** When the walk has passed the end, the buffer and the pieces are those of RingCut. */
  lemma RingLeftDone(J: set<Pos>, c0: seq<Pos>, s: int, e: int, fixed: bool, c: seq<Pos>, done: seq<Range>, cur: int, mid: int)
    requires 0 <= s <= e + 1 <= |c0| && s < |c0| && e <= mid
    requires RingLeft(J, c0, s, e, RingCut(J, c0, s, e).value, fixed, c, done, cur, mid)
    ensures RingCut(J, c0, s, e) == Ok((c, done + [Range(cur, e)]))
  {
    if fixed {
      assert Chain(J, c, cur, mid, e) == [Range(cur, e)];
    } else {
      assert FirstJunction(J, c0, mid, e).None?;
      assert RingCut(J, c0, s, e) == Ok((c0, [Range(s, e)]));
      assert done + [Range(cur, e)] == [Range(s, e)];
    }
  }

  /** The lines gathered so far followed by what the rest of the list adds are the goal. */
  ghost predicate LinesLeft(J: set<Pos>, ls: seq<Range>, rs: seq<Range>, goal: (CState, seq<Ref>),
                            st: CState, xs: seq<Ref>, i: nat, out: seq<Ref>)
  {
    i <= |xs| && AllBelow(xs, |ls|, |rs|) && Tables(st.c, ls, rs) &&
    var (st', rest) := LinesFrom(J, ls, rs, st, xs, i);
    goal == (st', out + rest)
  }

  ghost predicate RingsLeft(J: set<Pos>, ls: seq<Range>, rs: seq<Range>, goal: Result<(CState, seq<Ref>)>,
                            st: CState, xs: seq<Ref>, i: nat, out: seq<Ref>)
  {
    i <= |xs| && AllBelow(xs, |ls|, |rs|) && Tables(st.c, ls, rs) &&
    var r := RingsFrom(J, ls, rs, st, xs, i);
    goal == if r.Ok? then Ok((r.value.0, out + r.value.1)) else Fail(r.error)
  }

  ghost predicate PolysLeft(J: set<Pos>, ls: seq<Range>, rs: seq<Range>, goal: Result<(CState, seq<seq<Ref>>)>,
                            st: CState, ps: seq<seq<Ref>>, i: nat, out: seq<seq<Ref>>)
  {
    i <= |ps| && PolysBelow(ps, |ls|, |rs|) && Tables(st.c, ls, rs) &&
    var r := PolysFrom(J, ls, rs, st, ps, i);
    goal == if r.Ok? then Ok((r.value.0, out + r.value.1)) else Fail(r.error)
  }

  ghost predicate GeomsLeft(J: set<Pos>, ls: seq<Range>, rs: seq<Range>, goal: Result<(CState, seq<Geom<Ref>>)>,
                            st: CState, gs: seq<Geom<Ref>>, i: nat, out: seq<Geom<Ref>>)
  {
    i <= |gs| && (forall t :: 0 <= t < |gs| ==> RefsBelow(gs[t], |ls|, |rs|)) && Tables(st.c, ls, rs) &&
    var r := GeomsFrom(J, ls, rs, st, gs, i);
    goal == if r.Ok? then Ok((r.value.0, out + r.value.1)) else Fail(r.error)
  }

  ghost predicate ObjectsLeft(J: set<Pos>, ls: seq<Range>, rs: seq<Range>, goal: Result<(CState, seq<Named<Ref>>)>,
                              st: CState, os: seq<Named<Ref>>, i: nat, out: seq<Named<Ref>>)
  {
    i <= |os| && (forall t :: 0 <= t < |os| ==> RefsBelow(os[t].geom, |ls|, |rs|)) && Tables(st.c, ls, rs) &&
    var r := ObjectsFrom(J, ls, rs, st, os, i);
    goal == if r.Ok? then Ok((r.value.0, out + r.value.1)) else Fail(r.error)
  }

  /** The loops of the list calls keep their Left predicate: at the start nothing is gathered,
      each turn adds the reference the step made, and at the end the goal is what was gathered. */
  lemma LinesLeftInit(J: set<Pos>, ls: seq<Range>, rs: seq<Range>, st: CState, xs: seq<Ref>)
    requires AllBelow(xs, |ls|, |rs|) && Tables(st.c, ls, rs)
    ensures LinesLeft(J, ls, rs, LinesFrom(J, ls, rs, st, xs, 0), st, xs, 0, [])
  {
    assert [] + LinesFrom(J, ls, rs, st, xs, 0).1 == LinesFrom(J, ls, rs, st, xs, 0).1;
  }

  lemma LinesLeftStep(J: set<Pos>, ls: seq<Range>, rs: seq<Range>, goal: (CState, seq<Ref>),
                      st: CState, xs: seq<Ref>, i: nat, out: seq<Ref>, st': CState, a: Ref)
    requires i < |xs| && LinesLeft(J, ls, rs, goal, st, xs, i, out)
    requires LineStep(J, ls, rs, st, xs[i]) == (st', a)
    ensures LinesLeft(J, ls, rs, goal, st', xs, i + 1, out + [a])
  {
    var rest := LinesFrom(J, ls, rs, st', xs, i + 1).1;
    assert out + ([a] + rest) == (out + [a]) + rest;
  }

  lemma LinesLeftDone(J: set<Pos>, ls: seq<Range>, rs: seq<Range>, goal: (CState, seq<Ref>),
                      st: CState, xs: seq<Ref>, out: seq<Ref>)
    requires LinesLeft(J, ls, rs, goal, st, xs, |xs|, out)
    ensures goal == (st, out)
  {
    assert out + [] == out;
  }

  lemma RingsLeftInit(J: set<Pos>, ls: seq<Range>, rs: seq<Range>, st: CState, xs: seq<Ref>)
    requires AllBelow(xs, |ls|, |rs|) && Tables(st.c, ls, rs)
    ensures RingsLeft(J, ls, rs, RingsFrom(J, ls, rs, st, xs, 0), st, xs, 0, [])
  {
    var r := RingsFrom(J, ls, rs, st, xs, 0);
    if r.Ok? {
      assert [] + r.value.1 == r.value.1;
    }
  }

  lemma RingsLeftStep(J: set<Pos>, ls: seq<Range>, rs: seq<Range>, goal: Result<(CState, seq<Ref>)>,
                      st: CState, xs: seq<Ref>, i: nat, out: seq<Ref>, st': CState, a: Ref)
    requires i < |xs| && RingsLeft(J, ls, rs, goal, st, xs, i, out)
    requires RingStep(J, ls, rs, st, xs[i]) == Ok((st', a))
    ensures RingsLeft(J, ls, rs, goal, st', xs, i + 1, out + [a])
  {
    var r := RingsFrom(J, ls, rs, st', xs, i + 1);
    if r.Ok? {
      assert out + ([a] + r.value.1) == (out + [a]) + r.value.1;
    }
  }

  lemma RingsLeftFail(J: set<Pos>, ls: seq<Range>, rs: seq<Range>, goal: Result<(CState, seq<Ref>)>,
                      st: CState, xs: seq<Ref>, i: nat, out: seq<Ref>, err: Error)
    requires i < |xs| && RingsLeft(J, ls, rs, goal, st, xs, i, out)
    requires RingStep(J, ls, rs, st, xs[i]) == Fail(err)
    ensures goal == Fail(err)
  {
  }

  lemma RingsLeftDone(J: set<Pos>, ls: seq<Range>, rs: seq<Range>, goal: Result<(CState, seq<Ref>)>,
                      st: CState, xs: seq<Ref>, out: seq<Ref>)
    requires RingsLeft(J, ls, rs, goal, st, xs, |xs|, out)
    ensures goal == Ok((st, out))
  {
    assert out + [] == out;
  }

  lemma PolysLeftInit(J: set<Pos>, ls: seq<Range>, rs: seq<Range>, st: CState, ps: seq<seq<Ref>>)
    requires PolysBelow(ps, |ls|, |rs|) && Tables(st.c, ls, rs)
    ensures PolysLeft(J, ls, rs, PolysFrom(J, ls, rs, st, ps, 0), st, ps, 0, [])
  {
    var r := PolysFrom(J, ls, rs, st, ps, 0);
    if r.Ok? {
      assert [] + r.value.1 == r.value.1;
    }
  }

  lemma PolysLeftStep(J: set<Pos>, ls: seq<Range>, rs: seq<Range>, goal: Result<(CState, seq<seq<Ref>>)>,
                      st: CState, ps: seq<seq<Ref>>, i: nat, out: seq<seq<Ref>>, st': CState, p: seq<Ref>)
    requires i < |ps| && PolysLeft(J, ls, rs, goal, st, ps, i, out)
    requires RingsFrom(J, ls, rs, st, ps[i], 0) == Ok((st', p))
    ensures PolysLeft(J, ls, rs, goal, st', ps, i + 1, out + [p])
  {
    var r := PolysFrom(J, ls, rs, st', ps, i + 1);
    if r.Ok? {
      assert out + ([p] + r.value.1) == (out + [p]) + r.value.1;
    }
  }

  lemma PolysLeftFail(J: set<Pos>, ls: seq<Range>, rs: seq<Range>, goal: Result<(CState, seq<seq<Ref>>)>,
                      st: CState, ps: seq<seq<Ref>>, i: nat, out: seq<seq<Ref>>, err: Error)
    requires i < |ps| && PolysLeft(J, ls, rs, goal, st, ps, i, out)
    requires RingsFrom(J, ls, rs, st, ps[i], 0) == Fail(err)
    ensures goal == Fail(err)
  {
  }

  lemma PolysLeftDone(J: set<Pos>, ls: seq<Range>, rs: seq<Range>, goal: Result<(CState, seq<seq<Ref>>)>,
                      st: CState, ps: seq<seq<Ref>>, out: seq<seq<Ref>>)
    requires PolysLeft(J, ls, rs, goal, st, ps, |ps|, out)
    ensures goal == Ok((st, out))
  {
    assert out + [] == out;
  }

  lemma GeomsLeftInit(J: set<Pos>, ls: seq<Range>, rs: seq<Range>, st: CState, gs: seq<Geom<Ref>>)
    requires (forall t :: 0 <= t < |gs| ==> RefsBelow(gs[t], |ls|, |rs|)) && Tables(st.c, ls, rs)
    ensures GeomsLeft(J, ls, rs, GeomsFrom(J, ls, rs, st, gs, 0), st, gs, 0, [])
  {
    var r := GeomsFrom(J, ls, rs, st, gs, 0);
    if r.Ok? {
      assert [] + r.value.1 == r.value.1;
    }
  }

  lemma GeomsLeftStep(J: set<Pos>, ls: seq<Range>, rs: seq<Range>, goal: Result<(CState, seq<Geom<Ref>>)>,
                      st: CState, gs: seq<Geom<Ref>>, i: nat, out: seq<Geom<Ref>>, st': CState, g: Geom<Ref>)
    requires i < |gs| && GeomsLeft(J, ls, rs, goal, st, gs, i, out)
    requires GeomCut(J, ls, rs, st, gs[i]) == Ok((st', g))
    ensures GeomsLeft(J, ls, rs, goal, st', gs, i + 1, out + [g])
  {
    var r := GeomsFrom(J, ls, rs, st', gs, i + 1);
    if r.Ok? {
      assert out + ([g] + r.value.1) == (out + [g]) + r.value.1;
    }
  }

  lemma GeomsLeftFail(J: set<Pos>, ls: seq<Range>, rs: seq<Range>, goal: Result<(CState, seq<Geom<Ref>>)>,
                      st: CState, gs: seq<Geom<Ref>>, i: nat, out: seq<Geom<Ref>>, err: Error)
    requires i < |gs| && GeomsLeft(J, ls, rs, goal, st, gs, i, out)
    requires GeomCut(J, ls, rs, st, gs[i]) == Fail(err)
    ensures goal == Fail(err)
  {
  }

  lemma GeomsLeftDone(J: set<Pos>, ls: seq<Range>, rs: seq<Range>, goal: Result<(CState, seq<Geom<Ref>>)>,
                      st: CState, gs: seq<Geom<Ref>>, out: seq<Geom<Ref>>)
    requires GeomsLeft(J, ls, rs, goal, st, gs, |gs|, out)
    ensures goal == Ok((st, out))
  {
    assert out + [] == out;
  }

  lemma ObjectsLeftInit(J: set<Pos>, ls: seq<Range>, rs: seq<Range>, st: CState, os: seq<Named<Ref>>)
    requires (forall t :: 0 <= t < |os| ==> RefsBelow(os[t].geom, |ls|, |rs|)) && Tables(st.c, ls, rs)
    ensures ObjectsLeft(J, ls, rs, ObjectsFrom(J, ls, rs, st, os, 0), st, os, 0, [])
  {
    var r := ObjectsFrom(J, ls, rs, st, os, 0);
    if r.Ok? {
      assert [] + r.value.1 == r.value.1;
    }
  }

  lemma ObjectsLeftStep(J: set<Pos>, ls: seq<Range>, rs: seq<Range>, goal: Result<(CState, seq<Named<Ref>>)>,
                        st: CState, os: seq<Named<Ref>>, i: nat, out: seq<Named<Ref>>, st': CState, g: Geom<Ref>)
    requires i < |os| && ObjectsLeft(J, ls, rs, goal, st, os, i, out)
    requires GeomCut(J, ls, rs, st, os[i].geom) == Ok((st', g))
    ensures ObjectsLeft(J, ls, rs, goal, st', os, i + 1, out + [Named(os[i].name, g)])
  {
    var r := ObjectsFrom(J, ls, rs, st', os, i + 1);
    if r.Ok? {
      assert out + ([Named(os[i].name, g)] + r.value.1) == (out + [Named(os[i].name, g)]) + r.value.1;
    }
  }

  lemma ObjectsLeftFail(J: set<Pos>, ls: seq<Range>, rs: seq<Range>, goal: Result<(CState, seq<Named<Ref>>)>,
                        st: CState, os: seq<Named<Ref>>, i: nat, out: seq<Named<Ref>>, err: Error)
    requires i < |os| && ObjectsLeft(J, ls, rs, goal, st, os, i, out)
    requires GeomCut(J, ls, rs, st, os[i].geom) == Fail(err)
    ensures goal == Fail(err)
  {
  }

  lemma ObjectsLeftDone(J: set<Pos>, ls: seq<Range>, rs: seq<Range>, goal: Result<(CState, seq<Named<Ref>>)>,
                        st: CState, os: seq<Named<Ref>>, out: seq<Named<Ref>>)
    requires ObjectsLeft(J, ls, rs, goal, st, os, |os|, out)
    ensures goal == Ok((st, out))
  {
    assert out + [] == out;
  }

  class Cut {
    var join: Join.Join
    var junctions: HashSet<Pos>
    var coordinates: array<Pos>
    var extLines: seq<Range>
    var extRings: seq<Range>
    var lines: seq<seq<Range>>
    var rings: seq<seq<Range>>

    /** The junction positions, as the set the hash set holds. */
    ghost function Junctions(): set<Pos>
      reads this`junctions, junctions, junctions.store
    {
      Keys(junctions.store[..])
    }

    /** The junction set is a sound point set. */
    ghost predicate Ready()
      reads this`junctions, junctions, junctions.store
    {
      junctions.Valid() && junctions.equal == PointEqual
    }

    /** ... and every extracted range lies in the buffer. */
    ghost predicate Valid()
      reads this`junctions, this`coordinates, this`extLines, this`extRings, junctions, junctions.store, coordinates
    {
      Ready() && Tables(coordinates[..], extLines, extRings)
    }

    /** The buffer and the chains as a value. */
    function St(): CState
      reads this, coordinates
    {
      CState(coordinates[..], lines, rings)
    }

    /** `__init__`: a fresh Join; the tables are empty until the first call. */
    constructor ()
      ensures fresh(join) && lines == [] && rings == []
    {
      join := new Join.Join();
      junctions := new HashSet<Pos>(0.0, (p: Pos) => 0, PointEqual);
      coordinates := new Pos[0];
      extLines, extRings, lines, rings := [], [], [], [];
    }

    /** `self.junctions.has`: membership in the junction set. */
    method Has(p: Pos) returns (b: bool)
      requires Ready()
      ensures b <==> p in Junctions()
    {
      b := junctions.Has(p);
      PointTableProper(junctions.hash);
      FoundIffKey(junctions.store[..], junctions.hash, junctions.equal, p);
    }

    /** The walk of `cut_line` over the range [s, e]: start a new piece at each junction
        strictly inside it. */
    method LineChain(s: int, e: int) returns (chain: seq<Range>)
      requires Ready() && 0 <= s && e < coordinates.Length
      ensures chain == Chain(Junctions(), coordinates[..], s, s + 1, e)
    {
      ghost var J := Junctions();
      ghost var c := coordinates[..];
      ghost var goal := Chain(J, c, s, s + 1, e);
      var lineMid := s + 1;
      var done: seq<Range> := [];
      var cur := s;
      while lineMid < e
        invariant 0 <= lineMid && done + Chain(J, c, cur, lineMid, e) == goal
        decreases e - lineMid
      {
        var h := Has(coordinates[lineMid]);
        ChainStep(J, c, cur, lineMid, e, done, goal);
        if h {
          done := done + [Range(cur, lineMid)];
          cur := lineMid;
        }
        lineMid := lineMid + 1;
      }
      chain := done + [Range(cur, e)];
    }

    /** `cut_line`: the chain of the range is appended to the lines and replaces the range. */
    method CutLine(a: Ref) returns (a': Ref)
      requires Valid() && RefBelow(a, |extLines|, |extRings|)
      modifies this`lines
      ensures Valid()
      ensures LineStep(Junctions(), extLines, extRings, old(St()), a) == (St(), a')
    {
      var line := Lookup(extLines, extRings, a);
      assert Within(line, coordinates.Length);
      var chain := LineChain(line.start, line.end);
      lines := lines + [chain];
      a' := LineRef(|lines| - 1);
    }

    /** The walk of `cut_ring` over the ring [s, e]: as `cut_line`, except that a ring which
        does not start at a junction is rotated at its first one instead of being cut there,
        and the walk starts over. */
    method RingChain(s: int, e: int) returns (chain: seq<Range>)
      requires Ready() && 0 <= s < coordinates.Length && s <= e + 1 && e < coordinates.Length
      modifies coordinates
      ensures RingCut(Junctions(), old(coordinates[..]), s, e) == Ok((coordinates[..], chain))
    {
      ghost var J := Junctions();
      ghost var c0 := coordinates[..];
      ghost var goal := RingCut(J, c0, s, e).value;
      RingLeftInit(J, c0, s, e);
      var ringFixed := Has(coordinates[s]);
      var ringMid := s + 1;
      var done: seq<Range> := [];
      var cur := s;
      while ringMid < e
        invariant Ready() && Junctions() == J
        invariant RingLeft(J, c0, s, e, goal, ringFixed, coordinates[..], done, cur, ringMid)
        decreases if ringFixed then 0 else 1, e - ringMid
      {
        ringFixed, done, cur, ringMid := RingTurn(J, c0, goal, s, e, ringFixed, done, cur, ringMid);
      }
      RingLeftDone(J, c0, s, e, ringFixed, coordinates[..], done, cur, ringMid);
      chain := done + [Range(cur, e)];
    }

    /** One turn of the loop of `cut_ring` at position mid. */
    method RingTurn(ghost J: set<Pos>, ghost c0: seq<Pos>, ghost goal: (seq<Pos>, seq<Range>), s: int, e: int,
                    fixed: bool, done: seq<Range>, cur: int, mid: int)
      returns (fixed': bool, done': seq<Range>, cur': int, mid': int)
      requires Ready() && Junctions() == J
      requires 0 <= s <= e + 1 <= |c0| && s < |c0| && mid < e && goal == RingCut(J, c0, s, e).value
      requires RingLeft(J, c0, s, e, goal, fixed, coordinates[..], done, cur, mid)
      modifies coordinates
      ensures RingLeft(J, c0, s, e, goal, fixed', coordinates[..], done', cur', mid')
      ensures if fixed' == fixed then mid' == mid + 1 else !fixed
    {
      ghost var c := coordinates[..];
      var h := Has(coordinates[mid]);
      if !h {
        RingPass(J, c0, s, e, goal, fixed, c, done, cur, mid);
        fixed', done', cur', mid' := fixed, done, cur, mid + 1;
      } else if fixed {
        RingCutAt(J, c0, s, e, goal, c, done, cur, mid);
        fixed', done', cur', mid' := fixed, done + [Range(cur, mid)], mid, mid + 1;
      } else {
        RingRotateAt(J, c0, s, e, c, done, cur, mid);
        Rotate(s, e, mid);
        fixed', done', cur', mid' := true, [], s, s + 1;
      }
    }

    /** The rotation of `cut_ring` at the junction m: `rotate_array` on the window, then the
        closing position set to the new start. */
    method Rotate(s: int, e: int, m: int)
      requires 0 <= s < m < e < coordinates.Length
      modifies coordinates
      ensures coordinates[..] == RotatedAt(old(coordinates[..]), s, e, m)
    {
      RotateArray(coordinates, s, e, e - m);
      coordinates[e] := coordinates[s];
    }

    /** `cut_ring`: the chain of the ring is appended to the rings and replaces the range.
        Reading the start of an empty ring at the very end of the buffer is an IndexError. */
    method CutRing(a: Ref) returns (r: Result<Ref>)
      requires Valid() && RefBelow(a, |extLines|, |extRings|)
      modifies this`rings, coordinates
      ensures Valid()
      ensures RingStep(Junctions(), extLines, extRings, old(St()), a) ==
              if r.Ok? then Ok((St(), r.value)) else Fail(r.error)
    {
      var ring := Lookup(extLines, extRings, a);
      assert Within(ring, coordinates.Length);
      if ring.start == coordinates.Length {
        return Fail(IndexError);
      }
      ghost var st0 := St();
      ghost var J := Junctions();
      var chain := RingChain(ring.start, ring.end);
      assert Junctions() == J;
      rings := rings + [chain];
      r := Ok(RingRef(|rings| - 1));
      RingStepOk(J, extLines, extRings, st0, a, coordinates[..], chain, St(), r.value);
    }

    /** `list(map(self.cut_line, arcs))`. */
    method CutLines(xs: seq<Ref>) returns (out: seq<Ref>)
      requires Valid() && AllBelow(xs, |extLines|, |extRings|)
      modifies this`lines
      ensures Valid()
      ensures LinesFrom(Junctions(), extLines, extRings, old(St()), xs, 0) == (St(), out)
    {
      ghost var J := Junctions();
      ghost var goal := LinesFrom(J, extLines, extRings, St(), xs, 0);
      LinesLeftInit(J, extLines, extRings, St(), xs);
      out := [];
      for i := 0 to |xs|
        invariant Valid() && Junctions() == J
        invariant LinesLeft(J, extLines, extRings, goal, St(), xs, i, out)
      {
        ghost var st := St();
        var a := CutLine(xs[i]);
        LinesLeftStep(J, extLines, extRings, goal, st, xs, i, out, St(), a);
        out := out + [a];
      }
      LinesLeftDone(J, extLines, extRings, goal, St(), xs, out);
    }

    /** `list(map(self.cut_ring, arcs))`: the first failing ring ends the call. */
    method CutRings(xs: seq<Ref>) returns (r: Result<seq<Ref>>)
      requires Valid() && AllBelow(xs, |extLines|, |extRings|)
      modifies this`rings, coordinates
      ensures Valid()
      ensures RingsFrom(Junctions(), extLines, extRings, old(St()), xs, 0) ==
              if r.Ok? then Ok((St(), r.value)) else Fail(r.error)
    {
      ghost var J := Junctions();
      ghost var goal := RingsFrom(J, extLines, extRings, St(), xs, 0);
      RingsLeftInit(J, extLines, extRings, St(), xs);
      var out := [];
      for i := 0 to |xs|
        invariant Valid() && Junctions() == J
        invariant RingsLeft(J, extLines, extRings, goal, St(), xs, i, out)
      {
        ghost var st := St();
        var a := CutRing(xs[i]);
        if a.Fail? {
          RingsLeftFail(J, extLines, extRings, goal, st, xs, i, out, a.error);
          return Fail(a.error);
        }
        RingsLeftStep(J, extLines, extRings, goal, st, xs, i, out, St(), a.value);
        out := out + [a.value];
      }
      RingsLeftDone(J, extLines, extRings, goal, St(), xs, out);
      r := Ok(out);
    }

    /** `list(map(self.cut_multi_ring, arcs))`. */
    method CutPolygons(ps: seq<seq<Ref>>) returns (r: Result<seq<seq<Ref>>>)
      requires Valid() && PolysBelow(ps, |extLines|, |extRings|)
      modifies this`rings, coordinates
      ensures Valid()
      ensures PolysFrom(Junctions(), extLines, extRings, old(St()), ps, 0) ==
              if r.Ok? then Ok((St(), r.value)) else Fail(r.error)
    {
      ghost var J := Junctions();
      ghost var goal := PolysFrom(J, extLines, extRings, St(), ps, 0);
      PolysLeftInit(J, extLines, extRings, St(), ps);
      var out := [];
      for i := 0 to |ps|
        invariant Valid() && Junctions() == J
        invariant PolysLeft(J, extLines, extRings, goal, St(), ps, i, out)
      {
        ghost var st := St();
        var p := CutRings(ps[i]);
        if p.Fail? {
          PolysLeftFail(J, extLines, extRings, goal, st, ps, i, out, p.error);
          return Fail(p.error);
        }
        PolysLeftStep(J, extLines, extRings, goal, st, ps, i, out, St(), p.value);
        out := out + [p.value];
      }
      PolysLeftDone(J, extLines, extRings, goal, St(), ps, out);
      r := Ok(out);
    }

    /** `cut_geometry`: dispatch on the type; types without an entry are left alone. */
    method CutGeometry(g: Geom<Ref>) returns (r: Result<Geom<Ref>>)
      requires Valid() && RefsBelow(g, |extLines|, |extRings|)
      modifies this`lines, this`rings, coordinates
      ensures Valid()
      ensures GeomCut(Junctions(), extLines, extRings, old(St()), g) ==
              if r.Ok? then Ok((St(), r.value)) else Fail(r.error)
      decreases g
    {
      match g.kind
      case LineString(a) =>
        var a' := CutLine(a);
        r := Ok(g.(kind := LineString(a')));
      case MultiLineString(xs) =>
        var xs' := CutLines(xs);
        r := Ok(g.(kind := MultiLineString(xs')));
      case Polygon(xs) =>
        var x := CutRings(xs);
        if x.Fail? {
          return Fail(x.error);
        }
        r := Ok(g.(kind := Polygon(x.value)));
      case MultiPolygon(ps) =>
        var x := CutPolygons(ps);
        if x.Fail? {
          return Fail(x.error);
        }
        r := Ok(g.(kind := MultiPolygon(x.value)));
      case GeometryCollection(gs) =>
        var x := CutGeometries(gs);
        if x.Fail? {
          return Fail(x.error);
        }
        r := Ok(g.(kind := GeometryCollection(x.value)));
      case _ =>
        r := Ok(g);
    }

    /** `_geometry_collection_call`: each member in turn. */
    method CutGeometries(gs: seq<Geom<Ref>>) returns (r: Result<seq<Geom<Ref>>>)
      requires Valid() && forall t :: 0 <= t < |gs| ==> RefsBelow(gs[t], |extLines|, |extRings|)
      modifies this`lines, this`rings, coordinates
      ensures Valid()
      ensures GeomsFrom(Junctions(), extLines, extRings, old(St()), gs, 0) ==
              if r.Ok? then Ok((St(), r.value)) else Fail(r.error)
      decreases gs
    {
      ghost var J := Junctions();
      ghost var goal := GeomsFrom(J, extLines, extRings, St(), gs, 0);
      GeomsLeftInit(J, extLines, extRings, St(), gs);
      var out := [];
      for i := 0 to |gs|
        invariant Valid() && Junctions() == J
        invariant GeomsLeft(J, extLines, extRings, goal, St(), gs, i, out)
      {
        ghost var st := St();
        var g := CutGeometry(gs[i]);
        if g.Fail? {
          GeomsLeftFail(J, extLines, extRings, goal, st, gs, i, out, g.error);
          return Fail(g.error);
        }
        GeomsLeftStep(J, extLines, extRings, goal, st, gs, i, out, St(), g.value);
        out := out + [g.value];
      }
      GeomsLeftDone(J, extLines, extRings, goal, St(), gs, out);
      r := Ok(out);
    }

    /** The loop of `__call__` over the objects, in order. */
    method CutObjects(os: seq<Named<Ref>>) returns (r: Result<seq<Named<Ref>>>)
      requires Valid() && forall t :: 0 <= t < |os| ==> RefsBelow(os[t].geom, |extLines|, |extRings|)
      modifies this`lines, this`rings, coordinates
      ensures Valid()
      ensures ObjectsFrom(Junctions(), extLines, extRings, old(St()), os, 0) ==
              if r.Ok? then Ok((St(), r.value)) else Fail(r.error)
    {
      ghost var J := Junctions();
      ghost var goal := ObjectsFrom(J, extLines, extRings, St(), os, 0);
      ObjectsLeftInit(J, extLines, extRings, St(), os);
      var out := [];
      for i := 0 to |os|
        invariant Valid() && Junctions() == J
        invariant ObjectsLeft(J, extLines, extRings, goal, St(), os, i, out)
      {
        ghost var st := St();
        var g := CutGeometry(os[i].geom);
        if g.Fail? {
          ObjectsLeftFail(J, extLines, extRings, goal, st, os, i, out, g.error);
          return Fail(g.error);
        }
        ObjectsLeftStep(J, extLines, extRings, goal, st, os, i, out, St(), g.value);
        out := out + [Named(os[i].name, g.value)];
      }
      ObjectsLeftDone(J, extLines, extRings, goal, St(), os, out);
      r := Ok(out);
    }

    /** The fields `__call__` sets before its loop: the junction set, the buffer (a list the
        program shares with the topology; an array filled from it here), no chains yet. */
    method Start(h: HashSet<Pos>, c: seq<Pos>, ls: seq<Range>, rs: seq<Range>)
      requires h.Valid() && h.equal == PointEqual && Tables(c, ls, rs)
      modifies this`junctions, this`coordinates, this`extLines, this`extRings, this`lines, this`rings
      ensures Valid() && junctions == h && fresh(coordinates)
      ensures St() == CState(c, [], []) && extLines == ls && extRings == rs
    {
      junctions := h;
      coordinates := new Pos[|c|](i requires 0 <= i < |c| => c[i]);
      assert coordinates[..] == c;
      extLines, extRings := ls, rs;
      lines, rings := [], [];
    }

    /** `__call__`: the junctions of the extracted topology, then every object cut in order;
        afterwards the buffer, the lines and the rings are the topology's new ones. */
    method Call(bits: real -> bv64, c: seq<Pos>, ls: seq<Range>, rs: seq<Range>, os: seq<Named<Ref>>)
      returns (r: Result<seq<Named<Ref>>>)
      requires Tables(c, ls, rs) && forall t :: 0 <= t < |os| ==> RefsBelow(os[t].geom, |ls|, |rs|)
      modifies this, join
      ensures join.coordinates == c && join.lines == ls && join.rings == rs && join.Valid() && |join.indexes| == |c|
      ensures forall i :: 0 <= i < |c| ==> Join.IsFirst(c, i, join.indexes[i])
      ensures Join.Junctions(join.indexes, ls, rs).Fail? ==> r == Fail(Join.Junctions(join.indexes, ls, rs).error)
      ensures Join.Junctions(join.indexes, ls, rs).Ok? ==> join.State() == Join.Junctions(join.indexes, ls, rs).value
      ensures Join.Junctions(join.indexes, ls, rs).Ok? ==>
                Valid() && extLines == ls && extRings == rs &&
                Junctions() == Join.JunctionPoints(c, join.indexes, join.State().junction) &&
                ObjectsFrom(Junctions(), ls, rs, CState(c, [], []), os, 0) ==
                  if r.Ok? then Ok((St(), r.value)) else Fail(r.error)
    {
      var found := join.Call(bits, c, ls, rs);
      if found.Fail? {
        return Fail(found.error);
      }
      Start(found.value, c, ls, rs);
      ghost var J := Junctions();
      r := CutObjects(os);
      assert Junctions() == J;
    }
  }
}
