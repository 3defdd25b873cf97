/** dedup.py: the pieces the cut left behind are compared with the arcs kept so far, and a
    piece equal to one of them (in order or backwards, and for a whole ring up to rotation)
    is rewritten to that arc's range instead of becoming a new arc. Kept arcs are found
    through the buffer positions they are registered under. */
module Dedup {
  import opened Base
  import opened PointHash

  // ---------------------------------------------------------------- comparing ranges

  /** A piece [start, end] of the buffer with both ends inside it. */
  predicate InBuf(r: Range, n: int)
  {
    0 <= r.start <= r.end < n
  }

  /** A sequence read backwards. */
  function Backward(s: seq<Pos>): (r: seq<Pos>)
    ensures |r| == |s|
  {
    seq(|s|, i requires 0 <= i < |s| => s[|s| - 1 - i])
  }

  lemma BackwardTwice(s: seq<Pos>)
    ensures Backward(Backward(s)) == s
  {
  }

  /** The positions of a piece, both ends included. */
  function Piece(c: seq<Pos>, r: Range): (p: seq<Pos>)
    requires InBuf(r, |c|)
    ensures |p| == r.end - r.start + 1
  {
    c[r.start..r.end + 1]
  }

  /** `equal_line`: two pieces with the same positions in the same order. */
  predicate SameLine(c: seq<Pos>, a: Range, b: Range)
    requires InBuf(a, |c|) && InBuf(b, |c|)
  {
    Piece(c, a) == Piece(c, b)
  }

  /** `reverse_equal_line`: two pieces, the second read backwards. */
  predicate ReverseLine(c: seq<Pos>, a: Range, b: Range)
    requires InBuf(a, |c|) && InBuf(b, |c|)
  {
    Piece(c, a) == Backward(Piece(c, b))
  }

  /** Reading backwards is symmetric. */
  lemma ReverseLineSymmetric(c: seq<Pos>, a: Range, b: Range)
    requires InBuf(a, |c|) && InBuf(b, |c|)
    ensures ReverseLine(c, a, b) <==> ReverseLine(c, b, a)
  {
    BackwardTwice(Piece(c, a));
    BackwardTwice(Piece(c, b));
  }

  /** The order `find_minimum_offset` ranks positions by: x first, then y. */
  predicate LexLess(p: Pos, q: Pos)
  {
    p.x < q.x || (p.x == q.x && p.y < q.y)
  }

  lemma LexTotal(p: Pos, q: Pos)
    ensures !LexLess(p, p)
    ensures LexLess(p, q) ==> !LexLess(q, p)
    ensures !LexLess(p, q) && !LexLess(q, p) ==> p == q
  {
  }

  /** The scan of `find_minimum_offset` from mid on, with the least position so far at m. */
  function MinFrom(c: seq<Pos>, s: int, e: int, mid: int, m: int): (k: int)
    requires 0 <= s <= m < mid && s <= e < |c| && (m < e || m == s)
    ensures 0 <= k <= e - s && (k < e - s || k == 0)
    decreases e - mid
  {
    if mid >= e then m - s
    else MinFrom(c, s, e, mid + 1, if LexLess(c[mid], c[m]) then mid else m)
  }

  /** `find_minimum_offset`: where in the window [start, end) the ring's least position is. */
  function MinOffset(c: seq<Pos>, r: Range): (k: int)
    requires InBuf(r, |c|)
    ensures 0 <= k <= r.end - r.start && (k < r.end - r.start || k == 0)
  {
    MinFrom(c, r.start, r.end, r.start + 1, r.start)
  }

  lemma {:induction false} MinFromLeast(c: seq<Pos>, s: int, e: int, mid: int, m: int)
    requires 0 <= s <= m < mid && s <= e < |c| && (mid <= e || (mid == s + 1 && m == s))
    requires forall t :: s <= t < mid ==> !LexLess(c[t], c[m])
    requires forall t :: s <= t < m ==> LexLess(c[m], c[t])
    ensures var k := MinFrom(c, s, e, mid, m);
            0 <= k <= e - s && (k < e - s || k == 0) &&
            (forall t :: s <= t < e ==> !LexLess(c[t], c[s + k])) &&
            (forall t :: s <= t < s + k ==> LexLess(c[s + k], c[t]))
    decreases e - mid
  {
    if mid < e {
      var m' := if LexLess(c[mid], c[m]) then mid else m;
      forall t | s <= t < mid + 1 ensures !LexLess(c[t], c[m']) {
        LexTotal(c[t], c[m]);
        LexTotal(c[mid], c[m]);
        if t < mid {
          assert !LexLess(c[t], c[m]);
        }
      }
      forall t | s <= t < m' ensures LexLess(c[m'], c[t]) {
        LexTotal(c[t], c[m]);
        if m' == mid && t >= m {
          LexTotal(c[mid], c[t]);
        }
      }
      MinFromLeast(c, s, e, mid + 1, m');
    }
  }

  /** The offset lies in the window (it is 0 for a ring of one position), the position there
      is not above any other of the window, and it is strictly below every earlier one: ties
      go to the earliest. */
  lemma MinOffsetLeast(c: seq<Pos>, r: Range)
    requires InBuf(r, |c|)
    ensures var k := MinOffset(c, r);
            0 <= k && (k < r.end - r.start || k == 0 == r.end - r.start) &&
            (forall t :: r.start <= t < r.end ==> !LexLess(c[t], c[r.start + k])) &&
            (forall t :: r.start <= t < r.start + k ==> LexLess(c[r.start + k], c[t]))
  {
    LexTotal(c[r.start], c[r.start]);
    MinFromLeast(c, r.start, r.end, r.start + 1, r.start);
  }

  /** The sequence s read cyclically from its k-th element on. */
  function Rot<T>(s: seq<T>, k: int): (r: seq<T>)
    requires 0 <= k <= |s|
    ensures |r| == |s|
  {
    s[k..] + s[..k]
  }

  /** x brought back into [0, n) by one turn at most: x modulo n for x in [-n, 2n). */
  function Cyc(x: int, n: int): int
  {
    if x < 0 then x + n else if x < n then x else x - n
  }

  lemma ModSmall(x: int, n: int)
    requires 0 < n && -n <= x < 2 * n
    ensures x % n == Cyc(x, n)
  {
    if x < 0 {
      assert x == (x + n) - n;
    } else if x >= n {
      assert x == (x - n) + n;
    }
  }

  /** Reading cyclically is indexing modulo the length. */
  lemma RotAt<T>(s: seq<T>, k: int, i: int)
    requires 0 <= k <= |s| && 0 <= i < |s|
    ensures Rot(s, k)[i] == s[Cyc(i + k, |s|)]
  {
  }

  /** The window [start, end) of a ring: its positions without the closing one. */
  function Window(c: seq<Pos>, r: Range): (w: seq<Pos>)
    requires InBuf(r, |c|)
    ensures |w| == r.end - r.start
  {
    c[r.start..r.end]
  }

  /** The positions (start, end] of a ring read backwards from the end. */
  function BackWindow(c: seq<Pos>, r: Range): (w: seq<Pos>)
    requires InBuf(r, |c|)
    ensures |w| == r.end - r.start
  {
    Backward(c[r.start + 1..r.end + 1])
  }

  /** `equal_ring`: two rings of the same size read cyclically from their least positions on
      are the same. */
  predicate SameRing(c: seq<Pos>, a: Range, b: Range)
    requires InBuf(a, |c|) && InBuf(b, |c|)
  {
    a.end - a.start == b.end - b.start &&
    Rot(Window(c, a), MinOffset(c, a)) == Rot(Window(c, b), MinOffset(c, b))
  }

  /** `reverse_equal_ring`: the second ring is read backwards from its end, starting n minus
      its least offset further on. */
  predicate ReverseRing(c: seq<Pos>, a: Range, b: Range)
    requires InBuf(a, |c|) && InBuf(b, |c|)
  {
    var n := a.end - a.start;
    n == b.end - b.start &&
    Rot(Window(c, a), MinOffset(c, a)) == Rot(BackWindow(c, b), n - MinOffset(c, b))
  }
  // ---------------------------------------------------------------- rings up to rotation

  /** k is where the least element of w stands, and nothing before it ties with it. */
  predicate IsMinAt(w: seq<Pos>, k: int)
  {
    0 <= k < |w| &&
    (forall t :: 0 <= t < |w| ==> !LexLess(w[t], w[k])) &&
    (forall t :: 0 <= t < k ==> LexLess(w[k], w[t]))
  }

  /** ... and the least element occurs only there. */
  predicate LoneMin(w: seq<Pos>, k: int)
  {
    IsMinAt(w, k) && forall t :: 0 <= t < |w| && w[t] == w[k] ==> t == k
  }

  lemma MinUnique(w: seq<Pos>, k1: int, k2: int)
    requires IsMinAt(w, k1) && IsMinAt(w, k2)
    ensures k1 == k2
  {
    assert !LexLess(w[k2], w[k1]) && !LexLess(w[k1], w[k2]);
  }

  /** The offset `find_minimum_offset` computes is where the window's least position is. */
  lemma WindowMin(c: seq<Pos>, r: Range)
    requires InBuf(r, |c|) && r.start < r.end
    ensures IsMinAt(Window(c, r), MinOffset(c, r))
  {
    MinOffsetLeast(c, r);
    var w := Window(c, r);
    var k := MinOffset(c, r);
    forall t | 0 <= t < |w| ensures !LexLess(w[t], w[k]) {
      assert w[t] == c[r.start + t];
    }
    forall t | 0 <= t < k ensures LexLess(w[k], w[t]) {
      assert w[t] == c[r.start + t];
    }
  }

  /** A lone least element moves with the rotation. */
  lemma RotMin(w: seq<Pos>, q: int, k: int)
    requires LoneMin(w, k) && 0 <= q < |w|
    ensures LoneMin(Rot(w, q), Cyc(k - q, |w|))
  {
    var n := |w|;
    var v := Rot(w, q);
    var k' := Cyc(k - q, n);
    RotAt(w, q, k');
    assert v[k'] == w[k];
    forall t | 0 <= t < n
      ensures !LexLess(v[t], v[k']) && (t != k' ==> v[t] != v[k'] && LexLess(v[k'], v[t]))
    {
      RotAt(w, q, t);
      var j := Cyc(t + q, n);
      if t != k' {
        assert j != k;
        LexTotal(w[j], w[k]);
      }
    }
  }

  /** Rotating twice is rotating by the sum. */
  lemma RotRot(w: seq<Pos>, r: int, k: int)
    requires 0 <= r < |w| && 0 <= k <= |w|
    ensures Rot(Rot(w, r), k) == Rot(w, Cyc(r + k, |w|))
  {
    var n := |w|;
    var m := Cyc(r + k, n);
    forall i | 0 <= i < n ensures Rot(Rot(w, r), k)[i] == Rot(w, m)[i] {
      RotAt(Rot(w, r), k, i);
      RotAt(w, r, Cyc(i + k, n));
      RotAt(w, m, i);
    }
  }

  /** A ring and any rotation of it are equal as rings, provided the least position occurs
      once in the ring. */
  lemma RotatedRingSame(c: seq<Pos>, a: Range, b: Range, r: int)
    requires InBuf(a, |c|) && InBuf(b, |c|) && a.end - a.start == b.end - b.start
    requires 0 <= r < a.end - a.start && Window(c, b) == Rot(Window(c, a), r)
    requires LoneMin(Window(c, a), MinOffset(c, a))
    ensures SameRing(c, a, b)
  {
    var wa, wb := Window(c, a), Window(c, b);
    var n := |wa|;
    var ka := MinOffset(c, a);
    var kb := Cyc(ka - r, n);
    RotMin(wa, r, ka);
    WindowMin(c, b);
    MinUnique(wb, MinOffset(c, b), kb);
    RotRot(wa, r, kb);
  }

  /** A lone least element, read backwards. */
  lemma ReversedMin(w: seq<Pos>, k: int)
    requires LoneMin(w, k)
    ensures LoneMin(Backward(w), |w| - 1 - k)
  {
    var n := |w|;
    var v := Backward(w);
    var k' := n - 1 - k;
    forall t | 0 <= t < n
      ensures !LexLess(v[t], v[k']) && (t != k' ==> v[t] != v[k'] && LexLess(v[k'], v[t]))
    {
      LexTotal(w[n - 1 - t], w[k]);
    }
  }

  /** Reading a rotation backwards is a rotation of the reading backwards. */
  lemma ReversedRot(w: seq<Pos>, k: int)
    requires 0 <= k < |w|
    ensures Backward(Rot(w, k)) == Rot(Backward(w), Cyc(|w| - k, |w|))
  {
    var n := |w|;
    var m := Cyc(n - k, n);
    forall i | 0 <= i < n ensures Backward(Rot(w, k))[i] == Rot(Backward(w), m)[i] {
      RotAt(w, k, n - 1 - i);
      RotAt(Backward(w), m, i);
    }
  }

  /** A closed ring read from its second position on is its window rotated by one. */
  lemma ClosedShift(c: seq<Pos>, b: Range)
    requires InBuf(b, |c|) && b.start < b.end && c[b.end] == c[b.start]
    ensures c[b.start + 1..b.end + 1] == Rot(Window(c, b), 1)
  {
    var w := Window(c, b);
    assert c[b.start + 1..b.end + 1] == c[b.start + 1..b.end] + [c[b.end]];
    assert w[1..] == c[b.start + 1..b.end];
  }

  /** A rotation of wa read backwards, shifted by one more and read backwards again, is a
      rotation of wa. */
  lemma BackShiftRot(wa: seq<Pos>, wb: seq<Pos>, sh: seq<Pos>, r: int)
    requires 0 <= r < |wa| && wb == Rot(Backward(wa), r) && sh == Rot(wb, 1)
    ensures Backward(sh) == Rot(wa, Cyc(|wa| - Cyc(r + 1, |wa|), |wa|))
  {
    var ba := Backward(wa);
    RotRot(ba, r, 1);
    ReversedRot(ba, Cyc(r + 1, |wa|));
    BackwardTwice(wa);
  }

  /** Read backwards from its end, a closed ring that is a's ring traversed the other way is a
      rotation of a's window. */
  lemma BackWindowRot(c: seq<Pos>, a: Range, b: Range, r: int)
    requires InBuf(a, |c|) && InBuf(b, |c|) && a.end - a.start == b.end - b.start
    requires 0 <= r < a.end - a.start && Window(c, b) == Rot(Backward(Window(c, a)), r)
    requires c[b.end] == c[b.start]
    ensures var n := a.end - a.start;
            BackWindow(c, b) == Rot(Window(c, a), Cyc(n - Cyc(r + 1, n), n))
  {
    ClosedShift(c, b);
    BackShiftRot(Window(c, a), Window(c, b), c[b.start + 1..b.end + 1], r);
  }

  /** The offsets of the proof below: with mb = -1 - ka - r and q = -(r + 1), both modulo n,
      q + n - mb is ka modulo n. */
  lemma CycBack(n: int, ka: int, r: int)
    requires 0 <= ka < n && 0 <= r < n
    ensures var mb := Cyc(n - 1 - ka - r, n);
            var q := Cyc(n - Cyc(r + 1, n), n);
            0 <= mb < n && 0 <= q < n && Cyc(q + (n - mb), n) == ka
  {
  }

  /** The same on sequences: wb is wa backwards from r on, and bw is wa from q on. */
  lemma BackRotSame(wa: seq<Pos>, wb: seq<Pos>, bw: seq<Pos>, r: int, ka: int, kb: int)
    requires 0 <= r < |wa| && LoneMin(wa, ka) && wb == Rot(Backward(wa), r) && IsMinAt(wb, kb)
    requires bw == Rot(wa, Cyc(|wa| - Cyc(r + 1, |wa|), |wa|))
    ensures Rot(bw, |wa| - kb) == Rot(wa, ka)
  {
    var n := |wa|;
    ReversedMin(wa, ka);
    RotMin(Backward(wa), r, n - 1 - ka);
    var mb := Cyc(n - 1 - ka - r, n);
    MinUnique(wb, kb, mb);
    CycBack(n, ka, r);
    RotRot(wa, Cyc(n - Cyc(r + 1, n), n), n - mb);
  }

  /** A closed ring and the same ring traversed the other way, from any position, are equal as
      rings read backwards, again provided the least position occurs once. */
  lemma ReversedRingSame(c: seq<Pos>, a: Range, b: Range, r: int)
    requires InBuf(a, |c|) && InBuf(b, |c|) && a.end - a.start == b.end - b.start
    requires 0 <= r < a.end - a.start && Window(c, b) == Rot(Backward(Window(c, a)), r)
    requires c[b.end] == c[b.start]
    requires LoneMin(Window(c, a), MinOffset(c, a))
    ensures ReverseRing(c, a, b)
  {
    var wa, wb, bw := Window(c, a), Window(c, b), BackWindow(c, b);
    var n, ka, kb := |wa|, MinOffset(c, a), MinOffset(c, b);
    assert IsMinAt(wb, kb) by { WindowMin(c, b); }
    assert bw == Rot(wa, Cyc(n - Cyc(r + 1, n), n)) by { BackWindowRot(c, a, b, r); }
    assert Rot(bw, n - kb) == Rot(wa, ka) by { BackRotSame(wa, wb, bw, r, ka, kb); }
  }

  /** Without that proviso a rotation can be missed by both comparisons: the window
      [m, a, m, b, d] and its rotation by two, [m, b, d, m, a], are both read from their first
      position, differ there on, and the second read backwards differs too. */
  lemma RotationMissed()
    ensures var m, a, b, d := Pos(0.0, 0.0), Pos(1.0, 0.0), Pos(2.0, 0.0), Pos(3.0, 0.0);
            var c := [m, a, m, b, d, m, m, b, d, m, a, m];
            var x, y := Range(0, 5), Range(6, 11);
            InBuf(x, |c|) && InBuf(y, |c|) && c[x.end] == c[x.start] && c[y.end] == c[y.start] &&
            Window(c, y) == Rot(Window(c, x), 2) && !SameRing(c, x, y) && !ReverseRing(c, x, y)
  {
    var m, a, b, d := Pos(0.0, 0.0), Pos(1.0, 0.0), Pos(2.0, 0.0), Pos(3.0, 0.0);
    var c := [m, a, m, b, d, m, m, b, d, m, a, m];
    var x, y := Range(0, 5), Range(6, 11);
    assert MinFrom(c, 0, 5, 5, 0) == 0;
    assert MinFrom(c, 0, 5, 1, 0) == MinFrom(c, 0, 5, 2, 0) == MinFrom(c, 0, 5, 3, 0) == MinFrom(c, 0, 5, 4, 0) == 0;
    assert MinFrom(c, 6, 11, 11, 6) == 0;
    assert MinFrom(c, 6, 11, 7, 6) == MinFrom(c, 6, 11, 8, 6) == MinFrom(c, 6, 11, 9, 6) == MinFrom(c, 6, 11, 10, 6) == 0;
    assert Rot(Window(c, x), 0)[1] == a && Rot(Window(c, y), 0)[1] == b;
    assert Rot(Window(c, x), 0)[3] == b && Rot(BackWindow(c, y), 5)[3] == d;
    assert Window(c, y) == Rot(Window(c, x), 2);
  }

  /** Hence deduplication keeps the rotated copy as a second arc: from no arcs, the ring x is
      kept and registered under m, and the ring y, registered under m too, is tried against x
      in that list under both comparisons, matches neither, and is appended. */
  lemma RotationKeptTwice()
    ensures var m, a, b, d := Pos(0.0, 0.0), Pos(1.0, 0.0), Pos(2.0, 0.0), Pos(3.0, 0.0);
            var c := [m, a, m, b, d, m, m, b, d, m, a, m];
            var x, y := Range(0, 5), Range(6, 11);
            var (st1, x') := RingStep(c, DState(map[], []), x);
            var (st2, y') := RingStep(c, st1, y);
            x' == x && y' == y && st1.arcs == [x] && st2.arcs == [x, y] &&
            st2.byEnd == map[m := [x, y]]
  {
    var m, a, b, d := Pos(0.0, 0.0), Pos(1.0, 0.0), Pos(2.0, 0.0), Pos(3.0, 0.0);
    var c := [m, a, m, b, d, m, m, b, d, m, a, m];
    var x, y := Range(0, 5), Range(6, 11);
    RotationMissed();
    var st1 := DState(map[m := [x]], [x]);
    assert RingKey(c, x) == m by {
      assert MinFrom(c, 0, 5, 1, 0) == MinFrom(c, 0, 5, 2, 0) == MinFrom(c, 0, 5, 3, 0) == MinFrom(c, 0, 5, 4, 0) == MinFrom(c, 0, 5, 5, 0) == 0;
    }
    assert RingKey(c, y) == m by {
      assert MinFrom(c, 6, 11, 7, 6) == MinFrom(c, 6, 11, 8, 6) == MinFrom(c, 6, 11, 9, 6) == MinFrom(c, 6, 11, 10, 6) == MinFrom(c, 6, 11, 11, 6) == 0;
    }
    var st0 := DState(map[], []);
    assert Bucket(st0, c[x.start]) == [] && Bucket(st0, m) == [];
    assert RingScan(c, [], x) == None;
    assert [] + [x] == [x];
    assert st0.byEnd[m := [] + [x]] == map[m := [x]] by {
      assert st0.byEnd[m := [] + [x]].Keys == {m};
    }
    assert RingStep(c, st0, x) == (st1, x);
    assert c[y.start] == m && Bucket(st1, m) == [x];
    assert !Hits(c, Ring, x, y);
    assert First(c, Ring, [x], y, 1) == None;
    assert First(c, Ring, [x], y, 0) == None;
    assert RingScan(c, [x], y) == None;
    assert [x] + [y] == [x, y];
    assert st1.byEnd[m := [x] + [y]] == map[m := [x, y]] by {
      assert st1.byEnd[m := [x] + [y]].Keys == {m};
    }
    assert RingStep(c, st1, y) == (DState(map[m := [x, y]], [x, y]), y);
  }

  // ---------------------------------------------------------------- rings up to any rotation

  /** v is w read cyclically from some position on. */
  predicate IsRotation(w: seq<Pos>, v: seq<Pos>)
  {
    exists t :: 0 <= t <= |w| && v == Rot(w, t)
  }

  /** Ring equality as it is meant: two rings of the same size whose windows are rotations of
      each other, or the second read backwards is a rotation of the first; unlike `equal_ring`
      it does not depend on where the least position stands. */
  predicate RingsEqual(c: seq<Pos>, a: Range, b: Range)
    requires InBuf(a, |c|) && InBuf(b, |c|)
  {
    a.end - a.start == b.end - b.start &&
    (IsRotation(Window(c, a), Window(c, b)) || IsRotation(Window(c, a), BackWindow(c, b)))
  }

  /** Two sequences that read alike from some positions on are rotations of each other. */
  lemma RotInverse(w: seq<Pos>, v: seq<Pos>, k1: int, k2: int)
    requires |w| == |v| && 0 <= k1 <= |w| && 0 <= k2 <= |v| && Rot(w, k1) == Rot(v, k2)
    ensures IsRotation(w, v)
  {
    var n := |w|;
    if n == 0 {
      assert v == Rot(w, 0);
    } else {
      var a := if k1 == n then 0 else k1;
      var b := if k2 == n then 0 else k2;
      assert Rot(w, a) == Rot(w, k1);
      assert Rot(v, b) == Rot(v, k2);
      RotRot(v, b, n - b);
      assert Rot(v, 0) == v;
      RotRot(w, a, n - b);
      assert v == Rot(w, Cyc(a + n - b, n));
    }
  }

  /** Every rotation of a ring, and every rotation of the closed ring traversed the other way,
      is equal to it as a ring, whatever its least positions. */
  lemma EveryRotationEqual(c: seq<Pos>, a: Range, b: Range, r: int)
    requires InBuf(a, |c|) && InBuf(b, |c|) && a.end - a.start == b.end - b.start
    requires 0 <= r < a.end - a.start
    ensures Window(c, b) == Rot(Window(c, a), r) ==> RingsEqual(c, a, b)
    ensures Window(c, b) == Rot(Backward(Window(c, a)), r) && c[b.end] == c[b.start] ==> RingsEqual(c, a, b)
  {
    var n := a.end - a.start;
    if Window(c, b) == Rot(Window(c, a), r) {
      assert IsRotation(Window(c, a), Window(c, b));
    }
    if Window(c, b) == Rot(Backward(Window(c, a)), r) && c[b.end] == c[b.start] {
      BackWindowRot(c, a, b, r);
      assert IsRotation(Window(c, a), BackWindow(c, b)) by {
        assert BackWindow(c, b) == Rot(Window(c, a), Cyc(n - Cyc(r + 1, n), n));
      }
    }
  }

  /** What `equal_ring` and `reverse_equal_ring` accept is equal as a ring: their check only
      misses rotations, it never accepts a different ring. */
  lemma CheckedRingsEqual(c: seq<Pos>, a: Range, b: Range)
    requires InBuf(a, |c|) && InBuf(b, |c|)
    ensures SameRing(c, a, b) ==> RingsEqual(c, a, b)
    ensures ReverseRing(c, a, b) ==> RingsEqual(c, a, b)
  {
    var n := a.end - a.start;
    if SameRing(c, a, b) {
      RotInverse(Window(c, a), Window(c, b), MinOffset(c, a), MinOffset(c, b));
    }
    if ReverseRing(c, a, b) {
      RotInverse(Window(c, a), BackWindow(c, b), MinOffset(c, a), n - MinOffset(c, b));
    }
  }

  /** The rings `RotationMissed` shows both comparisons missing are equal as rings. */
  lemma RotationMissedEqual()
    ensures var m, a, b, d := Pos(0.0, 0.0), Pos(1.0, 0.0), Pos(2.0, 0.0), Pos(3.0, 0.0);
            var c := [m, a, m, b, d, m, m, b, d, m, a, m];
            RingsEqual(c, Range(0, 5), Range(6, 11))
  {
    var m, a, b, d := Pos(0.0, 0.0), Pos(1.0, 0.0), Pos(2.0, 0.0), Pos(3.0, 0.0);
    var c := [m, a, m, b, d, m, m, b, d, m, a, m];
    assert Window(c, Range(6, 11)) == Rot(Window(c, Range(0, 5)), 2);
    EveryRotationEqual(c, Range(0, 5), Range(6, 11), 2);
  }

  // ---------------------------------------------------------------- the kept arcs

  /** Every piece of a list lies in the buffer. */
  predicate AllIn(bs: seq<Range>, n: int)
  {
    forall t :: 0 <= t < |bs| ==> InBuf(bs[t], n)
  }

  /** The arcs kept so far (`self.arcs`) and the lists of them registered under a buffer
      position (`self.arcs_by_end`). */
  datatype DState = DState(byEnd: map<Pos, seq<Range>>, arcs: seq<Range>)

  /** The arcs registered under p; none when p has no list. */
  function Bucket(st: DState, p: Pos): seq<Range>
  {
    if p in st.byEnd then st.byEnd[p] else []
  }

  /** All kept arcs lie in the buffer, and every registered arc is a kept one. */
  ghost predicate Stored(c: seq<Pos>, st: DState)
  {
    AllIn(st.arcs, |c|) &&
    forall p :: p in st.byEnd ==> forall t :: 0 <= t < |st.byEnd[p]| ==> st.byEnd[p][t] in st.arcs
  }

  lemma StoredBucket(c: seq<Pos>, st: DState, p: Pos)
    requires Stored(c, st)
    ensures AllIn(Bucket(st, p), |c|)
  {
    if p in st.byEnd {
      forall t | 0 <= t < |st.byEnd[p]| ensures InBuf(st.byEnd[p][t], |c|) {
        var u :| 0 <= u < |st.arcs| && st.arcs[u] == st.byEnd[p][t];
      }
    }
  }

  /** The comparisons a list of registered arcs is searched with. */
  datatype Test = Equal | Reverse | Ring

  /** Whether the registered arc e answers the piece x: `equal_line`, `reverse_equal_line`,
      or for a ring `equal_ring` or else `reverse_equal_ring`. (Registered arcs always lie in
      the buffer, by Stored below.) */
  predicate Hits(c: seq<Pos>, test: Test, e: Range, x: Range)
    requires InBuf(x, |c|)
  {
    InBuf(e, |c|) &&
    match test
    case Equal => SameLine(c, e, x)
    case Reverse => ReverseLine(c, e, x)
    case Ring => SameRing(c, e, x) || ReverseRing(c, e, x)
  }

  /** The first position from i on whose arc answers x, as the `for` loops over a list find it. */
  function First(c: seq<Pos>, test: Test, bs: seq<Range>, x: Range, i: nat): (r: Option<nat>)
    requires InBuf(x, |c|) && i <= |bs|
    ensures r.Some? ==> i <= r.value < |bs| && Hits(c, test, bs[r.value], x)
    decreases |bs| - i
  {
    if i == |bs| then None
    else if Hits(c, test, bs[i], x) then Some(i)
    else First(c, test, bs, x, i + 1)
  }

  /** First finds the earliest answering arc, and finds none only when no arc answers. */
  lemma {:induction false} FirstFinds(c: seq<Pos>, test: Test, bs: seq<Range>, x: Range, i: nat)
    requires InBuf(x, |c|) && i <= |bs|
    ensures var r := First(c, test, bs, x, i);
            (r.Some? ==> i <= r.value < |bs| && Hits(c, test, bs[r.value], x) &&
                         forall u :: i <= u < r.value ==> !Hits(c, test, bs[u], x)) &&
            (r.None? <==> forall u :: i <= u < |bs| ==> !Hits(c, test, bs[u], x))
    decreases |bs| - i
  {
    if i < |bs| && !Hits(c, test, bs[i], x) {
      FirstFinds(c, test, bs, x, i + 1);
    }
  }

  /** The range a matched ring takes: the arc itself, or the arc with its ends exchanged when
      only the backward comparison held. */
  function RingAlias(c: seq<Pos>, e: Range, x: Range): Range
    requires InBuf(e, |c|) && InBuf(x, |c|)
  {
    if SameRing(c, e, x) then e else Range(e.end, e.start)
  }

  /** One bucket scan of `dedup_ring`: what the ring x becomes through the first arc of bs it
      matches, if any. */
  function RingScan(c: seq<Pos>, bs: seq<Range>, x: Range): Option<Range>
    requires InBuf(x, |c|)
  {
    match First(c, Ring, bs, x, 0)
    case Some(t) => Some(RingAlias(c, bs[t], x))
    case None => None
  }

  /** y is what the ring x becomes through the arc e: e itself when they are equal up to
      rotation, or else e with its ends exchanged when they are equal up to rotation backwards. */
  predicate RingAnswer(c: seq<Pos>, e: Range, x: Range, y: Range)
    requires InBuf(e, |c|) && InBuf(x, |c|)
  {
    (SameRing(c, e, x) && y == e) || (!SameRing(c, e, x) && ReverseRing(c, e, x) && y == Range(e.end, e.start))
  }

  /** `dedup_line` of the piece x: the new state and the range x now is. */
  function LineStep(c: seq<Pos>, st: DState, x: Range): (r: (DState, Range))
    requires InBuf(x, |c|)
  {
    var sp, ep := c[x.start], c[x.end];
    var s, e := Bucket(st, sp), Bucket(st, ep);
    match First(c, Equal, s, x, 0)
    case Some(t) => (st, s[t])
    case None =>
      match First(c, Reverse, e, x, 0)
      case Some(t) => (st, Range(e[t].end, e[t].start))
      case None =>
        var m1 := st.byEnd[sp := s + [x]];
        var m2 := m1[ep := if e != [] then m1[ep] + [x] else [x]];
        (DState(m2, st.arcs + [x]), x)
  }

  /** The buffer position a ring is registered under: its least position. */
  function RingKey(c: seq<Pos>, x: Range): Pos
    requires InBuf(x, |c|)
  {
    c[x.start + MinOffset(c, x)]
  }

  /** `dedup_ring` of the ring x: the arcs under its first position are tried, then those
      under its least position, where a new ring is registered. */
  function RingStep(c: seq<Pos>, st: DState, x: Range): (r: (DState, Range))
    requires InBuf(x, |c|)
  {
    match RingScan(c, Bucket(st, c[x.start]), x)
    case Some(y) => (st, y)
    case None =>
      var p := RingKey(c, x);
      var e := Bucket(st, p);
      match RingScan(c, e, x)
      case Some(y) => (st, y)
      case None => (DState(st.byEnd[p := e + [x]], st.arcs + [x]), x)
  }

  /** The first outcome of `dedup_line`: a piece equal to an arc registered under its start
      becomes that arc, and nothing else changes. */
  lemma LineForward(c: seq<Pos>, st: DState, x: Range)
    requires Stored(c, st) && InBuf(x, |c|)
    requires var s := Bucket(st, c[x.start]); exists t :: 0 <= t < |s| && SameLine(c, s[t], x)
    ensures var (st', y) := LineStep(c, st, x);
            var s := Bucket(st, c[x.start]);
            st' == st && exists t :: 0 <= t < |s| && y == s[t] && SameLine(c, s[t], x)
  {
    StoredBucket(c, st, c[x.start]);
    FirstFinds(c, Equal, Bucket(st, c[x.start]), x, 0);
  }

  /** The second: otherwise a piece equal backwards to an arc registered under its end becomes
      that arc with its ends exchanged, and nothing else changes. */
  lemma LineBackward(c: seq<Pos>, st: DState, x: Range)
    requires Stored(c, st) && InBuf(x, |c|)
    requires var s := Bucket(st, c[x.start]); forall t :: 0 <= t < |s| ==> !SameLine(c, s[t], x)
    requires var e := Bucket(st, c[x.end]); exists t :: 0 <= t < |e| && ReverseLine(c, e[t], x)
    ensures var (st', y) := LineStep(c, st, x);
            var e := Bucket(st, c[x.end]);
            st' == st && exists t :: 0 <= t < |e| && y == Swap(e[t]) && ReverseLine(c, e[t], x)
  {
    StoredBucket(c, st, c[x.start]);
    StoredBucket(c, st, c[x.end]);
    FirstFinds(c, Equal, Bucket(st, c[x.start]), x, 0);
    FirstFinds(c, Reverse, Bucket(st, c[x.end]), x, 0);
  }

  /** The third: otherwise the piece is kept as a new arc, registered under both its ends, and
      no other list changes. */
  lemma LineFresh(c: seq<Pos>, st: DState, x: Range)
    requires Stored(c, st) && InBuf(x, |c|)
    requires var s := Bucket(st, c[x.start]); forall t :: 0 <= t < |s| ==> !SameLine(c, s[t], x)
    requires var e := Bucket(st, c[x.end]); forall t :: 0 <= t < |e| ==> !ReverseLine(c, e[t], x)
    ensures var (st', y) := LineStep(c, st, x);
            var sp, ep := c[x.start], c[x.end];
            y == x && st'.arcs == st.arcs + [x] &&
            x in Bucket(st', sp) && x in Bucket(st', ep) &&
            (sp != ep ==> Bucket(st', sp) == Bucket(st, sp) + [x] && Bucket(st', ep) == Bucket(st, ep) + [x]) &&
            forall p :: p != sp && p != ep ==> Bucket(st', p) == Bucket(st, p)
  {
    StoredBucket(c, st, c[x.start]);
    StoredBucket(c, st, c[x.end]);
    FirstFinds(c, Equal, Bucket(st, c[x.start]), x, 0);
    FirstFinds(c, Reverse, Bucket(st, c[x.end]), x, 0);
  }

  /** The first outcome of `dedup_ring`: a ring that equals, up to rotation, an arc registered
      under its first position becomes that arc, or that arc with its ends exchanged when they
      are equal backwards; nothing else changes. */
  lemma RingAtStart(c: seq<Pos>, st: DState, x: Range)
    requires Stored(c, st) && InBuf(x, |c|)
    requires var s := Bucket(st, c[x.start]); exists t :: 0 <= t < |s| && Hits(c, Ring, s[t], x)
    ensures var (st', y) := RingStep(c, st, x);
            var s := Bucket(st, c[x.start]);
            st' == st && exists t :: 0 <= t < |s| && RingAnswer(c, s[t], x, y)
  {
    StoredBucket(c, st, c[x.start]);
    FirstFinds(c, Ring, Bucket(st, c[x.start]), x, 0);
  }

  /** The second: otherwise the same with the arcs registered under its least position. */
  lemma RingAtKey(c: seq<Pos>, st: DState, x: Range)
    requires Stored(c, st) && InBuf(x, |c|)
    requires var s := Bucket(st, c[x.start]); forall t :: 0 <= t < |s| ==> !Hits(c, Ring, s[t], x)
    requires var e := Bucket(st, RingKey(c, x)); exists t :: 0 <= t < |e| && Hits(c, Ring, e[t], x)
    ensures var (st', y) := RingStep(c, st, x);
            var e := Bucket(st, RingKey(c, x));
            st' == st && exists t :: 0 <= t < |e| && RingAnswer(c, e[t], x, y)
  {
    StoredBucket(c, st, c[x.start]);
    StoredBucket(c, st, RingKey(c, x));
    FirstFinds(c, Ring, Bucket(st, c[x.start]), x, 0);
    FirstFinds(c, Ring, Bucket(st, RingKey(c, x)), x, 0);
  }

  /** The third: otherwise the ring is kept as a new arc, registered under its least position
      only. */
  lemma RingFresh(c: seq<Pos>, st: DState, x: Range)
    requires Stored(c, st) && InBuf(x, |c|)
    requires var s := Bucket(st, c[x.start]); forall t :: 0 <= t < |s| ==> !SameRing(c, s[t], x) && !ReverseRing(c, s[t], x)
    requires var e := Bucket(st, RingKey(c, x)); forall t :: 0 <= t < |e| ==> !SameRing(c, e[t], x) && !ReverseRing(c, e[t], x)
    ensures var (st', y) := RingStep(c, st, x);
            y == x && st'.arcs == st.arcs + [x] && Bucket(st', RingKey(c, x)) == Bucket(st, RingKey(c, x)) + [x] &&
            forall p :: p != RingKey(c, x) ==> Bucket(st', p) == Bucket(st, p)
  {
    StoredBucket(c, st, c[x.start]);
    StoredBucket(c, st, RingKey(c, x));
    FirstFinds(c, Ring, Bucket(st, c[x.start]), x, 0);
    FirstFinds(c, Ring, Bucket(st, RingKey(c, x)), x, 0);
  }

  /** `dedup_line` keeps the state well formed and only adds arcs. */
  lemma LineStepStored(c: seq<Pos>, st: DState, x: Range)
    requires Stored(c, st) && InBuf(x, |c|)
    ensures var st' := LineStep(c, st, x).0;
            Stored(c, st') && st.arcs <= st'.arcs
  {
    var st' := LineStep(c, st, x).0;
    if First(c, Equal, Bucket(st, c[x.start]), x, 0).None? && First(c, Reverse, Bucket(st, c[x.end]), x, 0).None? {
      StoredGrows(c, st, x, st');
    }
  }

  /** `dedup_ring` keeps the state well formed and only adds arcs. */
  lemma RingStepStored(c: seq<Pos>, st: DState, x: Range)
    requires Stored(c, st) && InBuf(x, |c|)
    ensures var st' := RingStep(c, st, x).0;
            Stored(c, st') && st.arcs <= st'.arcs
  {
    var st' := RingStep(c, st, x).0;
    if First(c, Ring, Bucket(st, c[x.start]), x, 0).None? && First(c, Ring, Bucket(st, RingKey(c, x)), x, 0).None? {
      StoredGrows(c, st, x, st');
    }
  }

  /** Adding x to the kept arcs and to some lists keeps the state well formed. */
  lemma StoredGrows(c: seq<Pos>, st: DState, x: Range, st': DState)
    requires Stored(c, st) && InBuf(x, |c|) && st'.arcs == st.arcs + [x]
    requires forall p :: p in st'.byEnd ==> forall t :: 0 <= t < |st'.byEnd[p]| ==>
               st'.byEnd[p][t] == x || st'.byEnd[p][t] in st.arcs
    ensures Stored(c, st')
  {
  }

  // ---------------------------------------------------------------- the whole traversal

  /** Every chain from the i-th on has pieces in the buffer, and at least one piece. */
  ghost predicate ChainsFrom(ls: seq<seq<Range>>, n: int, i: nat)
  {
    forall k :: i <= k < |ls| ==> |ls[k]| >= 1 && AllIn(ls[k], n)
  }

  /** `dedup_line` of the pieces of a chain from the j-th on, each rewritten where it stands. */
  function PiecesFrom(c: seq<Pos>, st: DState, ch: seq<Range>, j: nat): (r: (DState, seq<Range>))
    requires j <= |ch| && forall t :: j <= t < |ch| ==> InBuf(ch[t], |c|)
    decreases |ch| - j
  {
    if j == |ch| then (st, ch)
    else
      var (st1, y) := LineStep(c, st, ch[j]);
      PiecesFrom(c, st1, ch[j := y], j + 1)
  }

  /** The loop over `self.lines`: every chain from the i-th on, piece by piece. */
  function LinesFrom(c: seq<Pos>, st: DState, ls: seq<seq<Range>>, i: nat): (r: (DState, seq<seq<Range>>))
    requires i <= |ls| && ChainsFrom(ls, |c|, i)
    decreases |ls| - i
  {
    if i == |ls| then (st, ls)
    else
      var (st1, ch) := PiecesFrom(c, st, ls[i], 0);
      LinesFrom(c, st1, ls[i := ch], i + 1)
  }

  /** The loop over `self.rings`: a ring that was cut is a chain of lines, a whole ring is
      compared as a ring. */
  function RingsFrom(c: seq<Pos>, st: DState, rs: seq<seq<Range>>, i: nat): (r: (DState, seq<seq<Range>>))
    requires i <= |rs| && ChainsFrom(rs, |c|, i)
    decreases |rs| - i
  {
    if i == |rs| then (st, rs)
    else if |rs[i]| > 1 then
      var (st1, ch) := PiecesFrom(c, st, rs[i], 0);
      RingsFrom(c, st1, rs[i := ch], i + 1)
    else
      var (st1, y) := RingStep(c, st, rs[i][0]);
      RingsFrom(c, st1, rs[i := rs[i][0 := y]], i + 1)
  }

  /** `Dedup.__call__`: the kept arcs and the rewritten line and ring chains. */
  function DedupAll(c: seq<Pos>, lines: seq<seq<Range>>, rings: seq<seq<Range>>): (r: (seq<Range>, seq<seq<Range>>, seq<seq<Range>>))
    requires ChainsFrom(lines, |c|, 0) && ChainsFrom(rings, |c|, 0)
  {
    var (st1, ls) := LinesFrom(c, DState(map[], []), lines, 0);
    var (st2, rs) := RingsFrom(c, st1, rings, 0);
    (st2.arcs, ls, rs)
  }

  /** DedupAll from the results of its two phases. */
  lemma DedupAllParts(c: seq<Pos>, ls: seq<seq<Range>>, rs: seq<seq<Range>>, st1: DState, ls1: seq<seq<Range>>, st2: DState, rs2: seq<seq<Range>>)
    requires ChainsFrom(ls, |c|, 0) && ChainsFrom(rs, |c|, 0)
    requires (st1, ls1) == LinesFrom(c, DState(map[], []), ls, 0) && (st2, rs2) == RingsFrom(c, st1, rs, 0)
    ensures DedupAll(c, ls, rs) == (st2.arcs, ls1, rs2)
  {
  }

  // ---------------------------------------------------------------- what the rewriting keeps

  /** A range with its ends exchanged. */
  function Swap(y: Range): Range
  {
    Range(y.end, y.start)
  }

  /** The rewritten piece y reads the line positions x read: y has the same positions, or y
      has its ends exchanged and read backwards has x's positions. */
  ghost predicate LineReads(c: seq<Pos>, x: Range, y: Range)
    requires InBuf(x, |c|)
  {
    (InBuf(y, |c|) && Piece(c, y) == Piece(c, x)) ||
    (InBuf(Swap(y), |c|) && Backward(Piece(c, Swap(y))) == Piece(c, x))
  }

  /** The rewritten ring y reads the ring x read, up to rotation: in order, or with its ends
      exchanged backwards. */
  ghost predicate RingReads(c: seq<Pos>, x: Range, y: Range)
    requires InBuf(x, |c|)
  {
    (InBuf(y, |c|) && SameRing(c, y, x)) ||
    (InBuf(Swap(y), |c|) && ReverseRing(c, Swap(y), x))
  }

  /** ... so a rewritten ring is a ring equal to the one it replaced. */
  lemma RingReadsEqual(c: seq<Pos>, x: Range, y: Range)
    requires InBuf(x, |c|) && RingReads(c, x, y)
    ensures (InBuf(y, |c|) && RingsEqual(c, y, x)) || (InBuf(Swap(y), |c|) && RingsEqual(c, Swap(y), x))
  {
    if InBuf(y, |c|) && SameRing(c, y, x) {
      CheckedRingsEqual(c, y, x);
    } else {
      CheckedRingsEqual(c, Swap(y), x);
    }
  }

  /** y names a kept arc, in order or with its ends exchanged. */
  predicate Covered(y: Range, arcs: seq<Range>)
  {
    y in arcs || Swap(y) in arcs
  }

  lemma CoveredGrows(y: Range, a: seq<Range>, b: seq<Range>)
    requires Covered(y, a) && a <= b
    ensures Covered(y, b)
  {
    var z := if y in a then y else Swap(y);
    var t :| 0 <= t < |a| && a[t] == z;
    assert b[t] == z;
  }

  /** `dedup_line` leaves the piece reading what it read, through a kept arc. */
  lemma LineStepReads(c: seq<Pos>, st: DState, x: Range)
    requires Stored(c, st) && InBuf(x, |c|)
    ensures var (st', y) := LineStep(c, st, x);
            LineReads(c, x, y) && Covered(y, st'.arcs)
  {
    var (st', y) := LineStep(c, st, x);
    var s, e := Bucket(st, c[x.start]), Bucket(st, c[x.end]);
    if exists t :: 0 <= t < |s| && SameLine(c, s[t], x) {
      LineForward(c, st, x);
    } else if exists t :: 0 <= t < |e| && ReverseLine(c, e[t], x) {
      LineBackward(c, st, x);
      var t :| 0 <= t < |e| && y == Swap(e[t]) && ReverseLine(c, e[t], x);
      BackwardTwice(Piece(c, x));
      assert Swap(y) == e[t];
    } else {
      LineFresh(c, st, x);
    }
  }

  /** `dedup_ring` leaves the ring reading what it read up to rotation, through a kept arc. */
  lemma RingStepReads(c: seq<Pos>, st: DState, x: Range)
    requires Stored(c, st) && InBuf(x, |c|)
    ensures var (st', y) := RingStep(c, st, x);
            RingReads(c, x, y) && Covered(y, st'.arcs)
  {
    var (st', y) := RingStep(c, st, x);
    var s, e := Bucket(st, c[x.start]), Bucket(st, RingKey(c, x));
    if exists t :: 0 <= t < |s| && Hits(c, Ring, s[t], x) {
      RingAtStart(c, st, x);
      var t :| 0 <= t < |s| && RingAnswer(c, s[t], x, y);
      assert Swap(Range(s[t].end, s[t].start)) == s[t];
    } else if exists t :: 0 <= t < |e| && Hits(c, Ring, e[t], x) {
      RingAtKey(c, st, x);
      var t :| 0 <= t < |e| && RingAnswer(c, e[t], x, y);
      assert Swap(Range(e[t].end, e[t].start)) == e[t];
    } else {
      RingFresh(c, st, x);
      assert SameRing(c, x, x);
    }
  }

  /** The chain cur is the line chain ch with its pieces before j rewritten: each reads what it
      read, through an arc of arcs; the others are as they were. */
  ghost predicate LinesDone(c: seq<Pos>, ch: seq<Range>, cur: seq<Range>, arcs: seq<Range>, j: int)
    requires AllIn(ch, |c|)
  {
    |cur| == |ch| &&
    forall t :: 0 <= t < |ch| ==>
      if t < j then LineReads(c, ch[t], cur[t]) && Covered(cur[t], arcs) else cur[t] == ch[t]
  }

  lemma LinesDoneGrows(c: seq<Pos>, ch: seq<Range>, cur: seq<Range>, a: seq<Range>, b: seq<Range>, j: int)
    requires AllIn(ch, |c|) && LinesDone(c, ch, cur, a, j) && a <= b
    ensures LinesDone(c, ch, cur, b, j)
  {
    forall t | 0 <= t < j && t < |ch| ensures Covered(cur[t], b) {
      CoveredGrows(cur[t], a, b);
    }
  }

  /** The rest of a chain, deduplicated as lines, ends up fully rewritten. */
  lemma {:induction false} PiecesRewrite(c: seq<Pos>, st: DState, ch: seq<Range>, cur: seq<Range>, j: nat)
    requires Stored(c, st) && AllIn(ch, |c|) && j <= |ch| && LinesDone(c, ch, cur, st.arcs, j)
    ensures var (st', cur') := PiecesFrom(c, st, cur, j);
            Stored(c, st') && st.arcs <= st'.arcs && LinesDone(c, ch, cur', st'.arcs, |ch|)
    decreases |ch| - j
  {
    if j < |ch| {
      var (st1, y) := LineStep(c, st, cur[j]);
      LineStepReads(c, st, ch[j]);
      LineStepStored(c, st, ch[j]);
      LinesDoneGrows(c, ch, cur, st.arcs, st1.arcs, j);
      PiecesRewrite(c, st1, ch, cur[j := y], j + 1);
    }
  }

  /** The chains cur are the line chains ls with the chains before i rewritten. */
  ghost predicate LineChainsDone(c: seq<Pos>, ls: seq<seq<Range>>, cur: seq<seq<Range>>, arcs: seq<Range>, i: int)
    requires ChainsFrom(ls, |c|, 0)
  {
    |cur| == |ls| &&
    forall k :: 0 <= k < |ls| ==> if k < i then LinesDone(c, ls[k], cur[k], arcs, |ls[k]|) else cur[k] == ls[k]
  }

  lemma LineChainsGrow(c: seq<Pos>, ls: seq<seq<Range>>, cur: seq<seq<Range>>, a: seq<Range>, b: seq<Range>, i: int)
    requires ChainsFrom(ls, |c|, 0) && LineChainsDone(c, ls, cur, a, i) && a <= b
    ensures LineChainsDone(c, ls, cur, b, i)
  {
    forall k | 0 <= k < |ls| && k < i ensures LinesDone(c, ls[k], cur[k], b, |ls[k]|) {
      LinesDoneGrows(c, ls[k], cur[k], a, b, |ls[k]|);
    }
  }

  /** The rest of the line chains end up fully rewritten. */
  lemma {:induction false} LinesRewrite(c: seq<Pos>, st: DState, ls: seq<seq<Range>>, cur: seq<seq<Range>>, i: nat)
    requires Stored(c, st) && ChainsFrom(ls, |c|, 0) && i <= |ls| && LineChainsDone(c, ls, cur, st.arcs, i)
    ensures ChainsFrom(cur, |c|, i)
    ensures var (st', cur') := LinesFrom(c, st, cur, i);
            Stored(c, st') && st.arcs <= st'.arcs && LineChainsDone(c, ls, cur', st'.arcs, |ls|)
    decreases |ls| - i
  {
    assert forall k :: i <= k < |cur| ==> cur[k] == ls[k];
    if i < |ls| {
      var (st1, ch) := PiecesFrom(c, st, cur[i], 0);
      PiecesRewrite(c, st, ls[i], cur[i], 0);
      LineChainsGrow(c, ls, cur, st.arcs, st1.arcs, i);
      LinesRewrite(c, st1, ls, cur[i := ch], i + 1);
    }
  }

  /** The ring chain cur is the ring chain ch rewritten: as lines when it was cut, as a ring
      otherwise. */
  ghost predicate RingDone(c: seq<Pos>, ch: seq<Range>, cur: seq<Range>, arcs: seq<Range>)
    requires AllIn(ch, |c|) && |ch| >= 1
  {
    if |ch| > 1 then LinesDone(c, ch, cur, arcs, |ch|)
    else |cur| == 1 && RingReads(c, ch[0], cur[0]) && Covered(cur[0], arcs)
  }

  /** The chains cur are the ring chains rs with the chains before i rewritten. */
  ghost predicate RingChainsDone(c: seq<Pos>, rs: seq<seq<Range>>, cur: seq<seq<Range>>, arcs: seq<Range>, i: int)
    requires ChainsFrom(rs, |c|, 0)
  {
    |cur| == |rs| &&
    forall k :: 0 <= k < |rs| ==> if k < i then RingDone(c, rs[k], cur[k], arcs) else cur[k] == rs[k]
  }

  lemma RingChainsGrow(c: seq<Pos>, rs: seq<seq<Range>>, cur: seq<seq<Range>>, a: seq<Range>, b: seq<Range>, i: int)
    requires ChainsFrom(rs, |c|, 0) && RingChainsDone(c, rs, cur, a, i) && a <= b
    ensures RingChainsDone(c, rs, cur, b, i)
  {
    forall k | 0 <= k < |rs| && k < i ensures RingDone(c, rs[k], cur[k], b) {
      if |rs[k]| > 1 {
        LinesDoneGrows(c, rs[k], cur[k], a, b, |rs[k]|);
      } else {
        CoveredGrows(cur[k][0], a, b);
      }
    }
  }

  /** Deduplicating a cut ring as lines rewrites it, and the earlier rings stay rewritten. */
  lemma RingCutStep(c: seq<Pos>, st: DState, rs: seq<seq<Range>>, cur: seq<seq<Range>>, i: nat, st1: DState, ch: seq<Range>)
    requires Stored(c, st) && ChainsFrom(rs, |c|, 0) && i < |rs| && RingChainsDone(c, rs, cur, st.arcs, i)
    requires |rs[i]| > 1 && cur[i] == rs[i] && (st1, ch) == PiecesFrom(c, st, rs[i], 0)
    ensures Stored(c, st1) && st.arcs <= st1.arcs && RingChainsDone(c, rs, cur[i := ch], st1.arcs, i + 1)
  {
    PiecesRewrite(c, st, rs[i], rs[i], 0);
    RingChainsGrow(c, rs, cur, st.arcs, st1.arcs, i);
  }

  /** Deduplicating a whole ring as a ring rewrites it, and the earlier rings stay rewritten. */
  lemma RingWholeStep(c: seq<Pos>, st: DState, rs: seq<seq<Range>>, cur: seq<seq<Range>>, i: nat, st1: DState, y: Range)
    requires Stored(c, st) && ChainsFrom(rs, |c|, 0) && i < |rs| && RingChainsDone(c, rs, cur, st.arcs, i)
    requires |rs[i]| == 1 && cur[i] == rs[i] && (st1, y) == RingStep(c, st, rs[i][0])
    ensures Stored(c, st1) && st.arcs <= st1.arcs && RingChainsDone(c, rs, cur[i := [y]], st1.arcs, i + 1)
  {
    RingStepReads(c, st, rs[i][0]);
    RingStepStored(c, st, rs[i][0]);
    RingChainsGrow(c, rs, cur, st.arcs, st1.arcs, i);
  }

  /** The rest of the ring chains end up fully rewritten. */
  lemma {:induction false} RingsRewrite(c: seq<Pos>, st: DState, rs: seq<seq<Range>>, cur: seq<seq<Range>>, i: nat)
    requires Stored(c, st) && ChainsFrom(rs, |c|, 0) && i <= |rs| && RingChainsDone(c, rs, cur, st.arcs, i)
    ensures ChainsFrom(cur, |c|, i)
    ensures var (st', cur') := RingsFrom(c, st, cur, i);
            Stored(c, st') && st.arcs <= st'.arcs && RingChainsDone(c, rs, cur', st'.arcs, |rs|)
    decreases |rs| - i
  {
    assert forall k :: i <= k < |cur| ==> cur[k] == rs[k];
    if i < |rs| {
      if |cur[i]| > 1 {
        var (st1, ch) := PiecesFrom(c, st, cur[i], 0);
        RingCutStep(c, st, rs, cur, i, st1, ch);
        RingsRewrite(c, st1, rs, cur[i := ch], i + 1);
      } else {
        var (st1, y) := RingStep(c, st, cur[i][0]);
        RingWholeStep(c, st, rs, cur, i, st1, y);
        assert cur[i][0 := y] == [y];
        RingsRewrite(c, st1, rs, cur[i := [y]], i + 1);
      }
    }
  }

  /** What deduplication guarantees: every piece of every line chain, and of every cut ring,
      reads the positions it read before; every whole ring reads its ring up to rotation; and
      each of them names a kept arc, in order or with its ends exchanged. */
  lemma DedupRewrites(c: seq<Pos>, lines: seq<seq<Range>>, rings: seq<seq<Range>>)
    requires ChainsFrom(lines, |c|, 0) && ChainsFrom(rings, |c|, 0)
    ensures var (arcs, ls, rs) := DedupAll(c, lines, rings);
            AllIn(arcs, |c|) && LineChainsDone(c, lines, ls, arcs, |lines|) && RingChainsDone(c, rings, rs, arcs, |rings|)
  {
    var st0 := DState(map[], []);
    LinesRewrite(c, st0, lines, lines, 0);
    var (st1, ls) := LinesFrom(c, st0, lines, 0);
    RingsRewrite(c, st1, rings, rings, 0);
    var (st2, rs) := RingsFrom(c, st1, rings, 0);
    LineChainsGrow(c, lines, ls, st1.arcs, st2.arcs, |lines|);
  }

  // ---------------------------------------------------------------- no duplicate lines

  /** Every kept arc is registered under both of its end positions. */
  ghost predicate Indexed(c: seq<Pos>, st: DState)
    requires Stored(c, st)
  {
    forall t :: 0 <= t < |st.arcs| ==>
      st.arcs[t] in Bucket(st, c[st.arcs[t].start]) && st.arcs[t] in Bucket(st, c[st.arcs[t].end])
  }

  /** No two kept arcs have the same positions, in order or backwards. */
  ghost predicate Distinct(c: seq<Pos>, arcs: seq<Range>)
    requires AllIn(arcs, |c|)
  {
    forall t, u :: 0 <= t < u < |arcs| ==> !SameLine(c, arcs[t], arcs[u]) && !ReverseLine(c, arcs[t], arcs[u])
  }

  /** A new line only adds to the lists it is registered in. */
  lemma LineStepGrows(c: seq<Pos>, st: DState, x: Range)
    requires Stored(c, st) && InBuf(x, |c|)
    ensures forall p :: Bucket(st, p) <= Bucket(LineStep(c, st, x).0, p)
  {
  }

  /** A line no arc under its start equals, and no arc under its end equals backwards,
      equals no kept arc either way. */
  lemma UnmatchedIsNew(c: seq<Pos>, st: DState, x: Range)
    requires Stored(c, st) && Indexed(c, st) && InBuf(x, |c|)
    requires var s := Bucket(st, c[x.start]); forall u :: 0 <= u < |s| ==> !SameLine(c, s[u], x)
    requires var e := Bucket(st, c[x.end]); forall u :: 0 <= u < |e| ==> !ReverseLine(c, e[u], x)
    ensures forall t :: 0 <= t < |st.arcs| ==> !SameLine(c, st.arcs[t], x) && !ReverseLine(c, st.arcs[t], x)
  {
    forall t | 0 <= t < |st.arcs|
      ensures !SameLine(c, st.arcs[t], x) && !ReverseLine(c, st.arcs[t], x)
    {
      var a := st.arcs[t];
      if c[a.start] == c[x.start] {
        var s := Bucket(st, c[x.start]);
        var u :| 0 <= u < |s| && s[u] == a;
      } else {
        assert Piece(c, a)[0] != Piece(c, x)[0];
      }
      if c[a.start] == c[x.end] {
        var e := Bucket(st, c[x.end]);
        var u :| 0 <= u < |e| && e[u] == a;
      } else {
        assert Piece(c, a)[0] != Backward(Piece(c, x))[0];
      }
    }
  }

  /** When `dedup_line` changes the state, no arc answered and the line is a new arc. */
  lemma LineStepNew(c: seq<Pos>, st: DState, x: Range)
    requires Stored(c, st) && InBuf(x, |c|)
    ensures var st' := LineStep(c, st, x).0;
            var s, e := Bucket(st, c[x.start]), Bucket(st, c[x.end]);
            st' != st ==>
              (forall u :: 0 <= u < |s| ==> !SameLine(c, s[u], x)) &&
              (forall u :: 0 <= u < |e| ==> !ReverseLine(c, e[u], x)) &&
              st'.arcs == st.arcs + [x] && x in Bucket(st', c[x.start]) && x in Bucket(st', c[x.end])
  {
    FirstFinds(c, Equal, Bucket(st, c[x.start]), x, 0);
    FirstFinds(c, Reverse, Bucket(st, c[x.end]), x, 0);
  }

  /** `dedup_line` keeps every kept arc registered under its ends and no two of them equal. */
  lemma LineStepDistinct(c: seq<Pos>, st: DState, x: Range)
    requires Stored(c, st) && Indexed(c, st) && Distinct(c, st.arcs) && InBuf(x, |c|)
    ensures var st' := LineStep(c, st, x).0;
            Stored(c, st') && Indexed(c, st') && Distinct(c, st'.arcs)
  {
    LineStepStored(c, st, x);
    LineStepNew(c, st, x);
    LineStepGrows(c, st, x);
    var st' := LineStep(c, st, x).0;
    if st' != st {
      UnmatchedIsNew(c, st, x);
      NewIndexed(c, st, x, st');
      NewKeepsDistinct(c, st.arcs, x, st'.arcs);
    }
  }

  lemma NewIndexed(c: seq<Pos>, st: DState, x: Range, st': DState)
    requires Stored(c, st) && Stored(c, st') && Indexed(c, st) && InBuf(x, |c|)
    requires st'.arcs == st.arcs + [x] && x in Bucket(st', c[x.start]) && x in Bucket(st', c[x.end])
    requires forall p :: Bucket(st, p) <= Bucket(st', p)
    ensures Indexed(c, st')
  {
    forall t | 0 <= t < |st'.arcs|
      ensures st'.arcs[t] in Bucket(st', c[st'.arcs[t].start]) && st'.arcs[t] in Bucket(st', c[st'.arcs[t].end])
    {
      if t < |st.arcs| {
        var a := st.arcs[t];
        PrefixIn(a, Bucket(st, c[a.start]), Bucket(st', c[a.start]));
        PrefixIn(a, Bucket(st, c[a.end]), Bucket(st', c[a.end]));
      }
    }
  }

  lemma PrefixIn(a: Range, s: seq<Range>, s': seq<Range>)
    requires a in s && s <= s'
    ensures a in s'
  {
    var t :| 0 <= t < |s| && s[t] == a;
    assert s'[t] == a;
  }

  lemma NewKeepsDistinct(c: seq<Pos>, arcs: seq<Range>, x: Range, arcs': seq<Range>)
    requires AllIn(arcs, |c|) && InBuf(x, |c|) && Distinct(c, arcs) && arcs' == arcs + [x]
    requires forall t :: 0 <= t < |arcs| ==> !SameLine(c, arcs[t], x) && !ReverseLine(c, arcs[t], x)
    ensures AllIn(arcs', |c|) && Distinct(c, arcs')
  {
    assert forall t :: 0 <= t < |arcs| ==> arcs'[t] == arcs[t];
  }

  lemma {:induction false} PiecesDistinct(c: seq<Pos>, st: DState, ch: seq<Range>, j: nat)
    requires Stored(c, st) && Indexed(c, st) && Distinct(c, st.arcs)
    requires j <= |ch| && forall t :: j <= t < |ch| ==> InBuf(ch[t], |c|)
    ensures var st' := PiecesFrom(c, st, ch, j).0;
            Stored(c, st') && Indexed(c, st') && Distinct(c, st'.arcs)
    decreases |ch| - j
  {
    if j < |ch| {
      var (st1, y) := LineStep(c, st, ch[j]);
      LineStepDistinct(c, st, ch[j]);
      PiecesDistinct(c, st1, ch[j := y], j + 1);
    }
  }

  lemma {:induction false} LinesDistinct(c: seq<Pos>, st: DState, ls: seq<seq<Range>>, i: nat)
    requires Stored(c, st) && Indexed(c, st) && Distinct(c, st.arcs)
    requires i <= |ls| && ChainsFrom(ls, |c|, i)
    ensures var st' := LinesFrom(c, st, ls, i).0;
            Stored(c, st') && Indexed(c, st') && Distinct(c, st'.arcs)
    decreases |ls| - i
  {
    if i < |ls| {
      var (st1, ch) := PiecesFrom(c, st, ls[i], 0);
      PiecesDistinct(c, st, ls[i], 0);
      LinesDistinct(c, st1, ls[i := ch], i + 1);
    }
  }

  /** After the loop over the lines, no two kept arcs have the same positions, in order or
      backwards, and each is registered under both its ends. */
  lemma LinePhaseDistinct(c: seq<Pos>, lines: seq<seq<Range>>)
    requires ChainsFrom(lines, |c|, 0)
    ensures var st := LinesFrom(c, DState(map[], []), lines, 0).0;
            Stored(c, st) && Indexed(c, st) && Distinct(c, st.arcs)
  {
    LinesDistinct(c, DState(map[], []), lines, 0);
  }

  /** Position i of a ring read from offset k is the buffer position the ring loops index. */
  lemma WindowRotAt(c: seq<Pos>, a: Range, k: int, i: int)
    requires InBuf(a, |c|) && 0 <= k <= a.end - a.start && 0 <= i < a.end - a.start
    ensures var n := a.end - a.start;
            a.start <= a.start + (i + k) % n < a.end &&
            Rot(Window(c, a), k)[i] == c[a.start + (i + k) % n]
  {
    var n := a.end - a.start;
    ModSmall(i + k, n);
    RotAt(Window(c, a), k, i);
  }

  /** The same for a ring read backwards from its end. */
  lemma BackWindowRotAt(c: seq<Pos>, b: Range, k: int, i: int)
    requires InBuf(b, |c|) && 0 <= k <= b.end - b.start && 0 <= i < b.end - b.start
    ensures var n := b.end - b.start;
            b.start < b.end - (i + k) % n <= b.end &&
            Rot(BackWindow(c, b), k)[i] == c[b.end - (i + k) % n]
  {
    var n := b.end - b.start;
    ModSmall(i + k, n);
    RotAt(BackWindow(c, b), k, i);
  }

  // ---------------------------------------------------------------- the class

  /** The number of pieces of all chains. */
  function Pieces(ls: seq<seq<Range>>): nat
  {
    if ls == [] then 0 else Pieces(ls[..|ls| - 1]) + |ls[|ls| - 1]|
  }

  lemma BackwardCons(v: Pos, s: seq<Pos>)
    ensures Backward([v] + s) == Backward(s) + [v]
  {
  }

  /** `Dedup`: the buffer, the line and ring chains being rewritten, the number of pieces, the
      lists of arcs by end position and the kept arcs. */
  class Dedup {
    var coordinates: seq<Pos>
    var lines: seq<seq<Range>>
    var rings: seq<seq<Range>>
    var arcCount: int
    var arcsByEnd: map<Pos, seq<Range>>
    var arcs: seq<Range>

    constructor ()
    {
    }

    function St(): DState
      reads this
    {
      DState(arcsByEnd, arcs)
    }

    /** `find_minimum_offset`: the offset of the ring's least position, the first if it
        occurs more than once. */
    method FindMinimumOffset(x: Range) returns (k: int)
      requires InBuf(x, |coordinates|)
      ensures k == MinOffset(coordinates, x)
    {
      var c := coordinates;
      var mid := x.start;
      var minimum := mid;
      var minimumPoint := c[mid];
      mid := mid + 1;
      while mid < x.end
        invariant x.start < mid <= x.end + 1 && x.start <= minimum < mid && (minimum < x.end || minimum == x.start)
        invariant minimumPoint == c[minimum]
        invariant MinFrom(c, x.start, x.end, mid, minimum) == MinOffset(c, x)
        decreases x.end - mid
      {
        var point := c[mid];
        if point.x < minimumPoint.x || (point.x == minimumPoint.x && point.y < minimumPoint.y) {
          minimum := mid;
          minimumPoint := point;
        }
        mid := mid + 1;
      }
      k := minimum - x.start;
    }

    /** `equal_line`: the two pieces have the same positions in the same order. */
    method EqualLine(a: Range, b: Range) returns (eq: bool)
      requires InBuf(a, |coordinates|) && InBuf(b, |coordinates|)
      ensures eq == SameLine(coordinates, a, b)
    {
      var c := coordinates;
      if a.start - a.end != b.start - b.end {
        return false;
      }
      var ia, ib := a.start, b.start;
      while ia <= a.end
        invariant a.start <= ia <= a.end + 1 && ib - b.start == ia - a.start
        invariant c[a.start..ia] == c[b.start..ib]
        decreases a.end - ia
      {
        if !PointEqual(c[ia], c[ib]) {
          assert Piece(c, a)[ia - a.start] != Piece(c, b)[ia - a.start];
          return false;
        }
        assert c[a.start..ia + 1] == c[a.start..ia] + [c[ia]];
        assert c[b.start..ib + 1] == c[b.start..ib] + [c[ib]];
        ia, ib := ia + 1, ib + 1;
      }
      return true;
    }

    /** `reverse_equal_line`: the first piece has the positions of the second read backwards. */
    method ReverseEqualLine(a: Range, b: Range) returns (eq: bool)
      requires InBuf(a, |coordinates|) && InBuf(b, |coordinates|)
      ensures eq == ReverseLine(coordinates, a, b)
    {
      var c := coordinates;
      if a.start - a.end != b.start - b.end {
        return false;
      }
      var ia, jb := a.start, b.end;
      while ia <= a.end
        invariant a.start <= ia <= a.end + 1 && b.end - jb == ia - a.start
        invariant c[a.start..ia] == Backward(c[jb + 1..b.end + 1])
        decreases a.end - ia
      {
        if !PointEqual(c[ia], c[jb]) {
          assert Piece(c, a)[ia - a.start] != Backward(Piece(c, b))[ia - a.start];
          return false;
        }
        assert c[a.start..ia + 1] == c[a.start..ia] + [c[ia]];
        assert c[jb..b.end + 1] == [c[jb]] + c[jb + 1..b.end + 1];
        BackwardCons(c[jb], c[jb + 1..b.end + 1]);
        ia, jb := ia + 1, jb - 1;
      }
      return true;
    }
  
    /** `equal_ring`: the two rings have the same positions once each is read from its least
        position. */
    method EqualRing(a: Range, b: Range) returns (eq: bool)
      requires InBuf(a, |coordinates|) && InBuf(b, |coordinates|)
      ensures eq == SameRing(coordinates, a, b)
    {
      var c := coordinates;
      var n := a.end - a.start;
      if n != b.end - b.start {
        return false;
      }
      var ka := FindMinimumOffset(a);
      var kb := FindMinimumOffset(b);
      ghost var ra, rb := Rot(Window(c, a), ka), Rot(Window(c, b), kb);
      for i := 0 to n
        invariant forall u :: 0 <= u < i ==> ra[u] == rb[u]
      {
        WindowRotAt(c, a, ka, i);
        WindowRotAt(c, b, kb, i);
        if !PointEqual(c[a.start + (i + ka) % n], c[b.start + (i + kb) % n]) {
          assert ra[i] != rb[i];
          return false;
        }
      }
      assert ra == rb;
      return true;
    }

    /** `reverse_equal_ring`: the first ring read from its least position has the positions of
        the second read backwards from its least position. */
    method ReverseEqualRing(a: Range, b: Range) returns (eq: bool)
      requires InBuf(a, |coordinates|) && InBuf(b, |coordinates|)
      ensures eq == ReverseRing(coordinates, a, b)
    {
      var c := coordinates;
      var n := a.end - a.start;
      if n != b.end - b.start {
        return false;
      }
      var ka := FindMinimumOffset(a);
      var mb := FindMinimumOffset(b);
      var kb := n - mb;
      ghost var ra, rb := Rot(Window(c, a), ka), Rot(BackWindow(c, b), kb);
      for i := 0 to n
        invariant forall u :: 0 <= u < i ==> ra[u] == rb[u]
      {
        WindowRotAt(c, a, ka, i);
        BackWindowRotAt(c, b, kb, i);
        if !PointEqual(c[a.start + (i + ka) % n], c[b.end - (i + kb) % n]) {
          assert ra[i] != rb[i];
          return false;
        }
      }
      assert ra == rb;
      return true;
    }
  
    /** `dedup_line`: the range the piece x now is, and the state that follows. */
    method DedupLine(x: Range) returns (y: Range)
      requires Stored(coordinates, St()) && InBuf(x, |coordinates|)
      modifies this`arcsByEnd, this`arcs
      ensures (St(), y) == LineStep(coordinates, old(St()), x)
    {
      var c := coordinates;
      var startPoint := c[x.start];
      var startArcs := if startPoint in arcsByEnd then arcsByEnd[startPoint] else [];
      StoredBucket(c, St(), startPoint);
      for t := 0 to |startArcs|
        invariant First(c, Equal, startArcs, x, t) == First(c, Equal, startArcs, x, 0)
        invariant arcsByEnd == old(arcsByEnd) && arcs == old(arcs)
      {
        var eq := EqualLine(startArcs[t], x);
        if eq {
          return startArcs[t];
        }
      }
      var endPoint := c[x.end];
      var endArcs := if endPoint in arcsByEnd then arcsByEnd[endPoint] else [];
      StoredBucket(c, St(), endPoint);
      for t := 0 to |endArcs|
        invariant First(c, Reverse, endArcs, x, t) == First(c, Reverse, endArcs, x, 0)
        invariant arcsByEnd == old(arcsByEnd) && arcs == old(arcs)
      {
        var eq := ReverseEqualLine(endArcs[t], x);
        if eq {
          return Range(endArcs[t].end, endArcs[t].start);
        }
      }
      assert First(c, Equal, startArcs, x, 0).None? && First(c, Reverse, endArcs, x, 0).None?;
      assert [] + [x] == [x];
      if startArcs != [] {
        arcsByEnd := arcsByEnd[startPoint := startArcs + [x]];
      } else {
        arcsByEnd := arcsByEnd[startPoint := [x]];
      }
      if endArcs != [] {
        arcsByEnd := arcsByEnd[endPoint := arcsByEnd[endPoint] + [x]];
      } else {
        arcsByEnd := arcsByEnd[endPoint := [x]];
      }
      arcs := arcs + [x];
      y := x;
    }

    /** One of the two bucket scans of `dedup_ring`: the first arc of bs that is the ring x up
        to rotation, in either direction, and the range x becomes through it. */
    method FindRing(bs: seq<Range>, x: Range) returns (found: Option<Range>)
      requires AllIn(bs, |coordinates|) && InBuf(x, |coordinates|)
      ensures found == RingScan(coordinates, bs, x)
    {
      var c := coordinates;
      for t := 0 to |bs|
        invariant First(c, Ring, bs, x, t) == First(c, Ring, bs, x, 0)
      {
        var eq := EqualRing(bs[t], x);
        if eq {
          return Some(bs[t]);
        }
        eq := ReverseEqualRing(bs[t], x);
        if eq {
          return Some(Range(bs[t].end, bs[t].start));
        }
      }
      return None;
    }

    /** `dedup_ring`: the range the whole ring x now is, and the state that follows. */
    method DedupRing(x: Range) returns (y: Range)
      requires Stored(coordinates, St()) && InBuf(x, |coordinates|)
      modifies this`arcsByEnd, this`arcs
      ensures (St(), y) == RingStep(coordinates, old(St()), x)
    {
      var c := coordinates;
      var endPoint := c[x.start];
      var endArcs := if endPoint in arcsByEnd then arcsByEnd[endPoint] else [];
      StoredBucket(c, St(), endPoint);
      var found := FindRing(endArcs, x);
      if found.Some? {
        return found.value;
      }
      var k := FindMinimumOffset(x);
      endPoint := c[x.start + k];
      endArcs := if endPoint in arcsByEnd then arcsByEnd[endPoint] else [];
      StoredBucket(c, St(), endPoint);
      found := FindRing(endArcs, x);
      if found.Some? {
        return found.value;
      }
      assert [] + [x] == [x];
      if endArcs != [] {
        arcsByEnd := arcsByEnd[endPoint := endArcs + [x]];
      } else {
        arcsByEnd := arcsByEnd[endPoint := [x]];
      }
      arcs := arcs + [x];
      y := x;
    }

    /** The count of `__call__` that sizes `arcs_by_end`: one per chain, and one more for each
        `next` link. */
    method CountArcs()
      requires forall k :: 0 <= k < |lines| ==> |lines[k]| >= 1
      requires forall k :: 0 <= k < |rings| ==> |rings[k]| >= 1
      modifies this`arcCount
      ensures arcCount == Pieces(lines) + Pieces(rings)
    {
      arcCount := |lines| + |rings|;
      for i := 0 to |lines|
        invariant arcCount == |lines| + |rings| + Pieces(lines[..i]) - i
      {
        var j := 1;
        while j < |lines[i]|
          invariant 1 <= j <= |lines[i]|
          invariant arcCount == |lines| + |rings| + Pieces(lines[..i]) - i + (j - 1)
        {
          arcCount := arcCount + 1;
          j := j + 1;
        }
        assert lines[..i + 1][..i] == lines[..i];
      }
      assert lines[..|lines|] == lines;
      for i := 0 to |rings|
        invariant arcCount == |rings| + Pieces(lines) + Pieces(rings[..i]) - i
      {
        var j := 1;
        while j < |rings[i]|
          invariant 1 <= j <= |rings[i]|
          invariant arcCount == |rings| + Pieces(lines) + Pieces(rings[..i]) - i + (j - 1)
        {
          arcCount := arcCount + 1;
          j := j + 1;
        }
        assert rings[..i + 1][..i] == rings[..i];
      }
      assert rings[..|rings|] == rings;
    }

    /** The walk along one chain in `__call__`: `dedup_line` of every piece. */
    method DedupPieces(ch: seq<Range>) returns (ch': seq<Range>)
      requires Stored(coordinates, St()) && AllIn(ch, |coordinates|)
      modifies this`arcsByEnd, this`arcs
      ensures Stored(coordinates, St()) && (St(), ch') == PiecesFrom(coordinates, old(St()), ch, 0)
    {
      ch' := ch;
      for j := 0 to |ch|
        invariant |ch'| == |ch| && Stored(coordinates, St())
        invariant forall t :: j <= t < |ch| ==> ch'[t] == ch[t]
        invariant PiecesFrom(coordinates, St(), ch', j) == PiecesFrom(coordinates, old(St()), ch, 0)
      {
        ghost var st := St();
        var y := DedupLine(ch'[j]);
        LineStepStored(coordinates, st, ch'[j]);
        ch' := ch'[j := y];
      }
    }

    /** The loop over `self.lines` in `__call__`. */
    method DedupLines()
      requires Stored(coordinates, St()) && ChainsFrom(lines, |coordinates|, 0)
      modifies this`lines, this`arcsByEnd, this`arcs
      ensures Stored(coordinates, St()) && (St(), lines) == LinesFrom(coordinates, old(St()), old(lines), 0)
    {
      for i := 0 to |lines|
        invariant |lines| == |old(lines)| && Stored(coordinates, St()) && ChainsFrom(lines, |coordinates|, i)
        invariant LinesFrom(coordinates, St(), lines, i) == LinesFrom(coordinates, old(St()), old(lines), 0)
      {
        var ch := DedupPieces(lines[i]);
        lines := lines[i := ch];
      }
    }

    /** The loop over `self.rings` in `__call__`: a ring with a `next` link is a chain of
        lines, any other is compared as a ring. */
    method DedupRings()
      requires Stored(coordinates, St()) && ChainsFrom(rings, |coordinates|, 0)
      modifies this`rings, this`arcsByEnd, this`arcs
      ensures (St(), rings) == RingsFrom(coordinates, old(St()), old(rings), 0)
    {
      for i := 0 to |rings|
        invariant |rings| == |old(rings)| && Stored(coordinates, St()) && ChainsFrom(rings, |coordinates|, i)
        invariant RingsFrom(coordinates, St(), rings, i) == RingsFrom(coordinates, old(St()), old(rings), 0)
      {
        if |rings[i]| > 1 {
          var ch := DedupPieces(rings[i]);
          rings := rings[i := ch];
        } else {
          ghost var st := St();
          var y := DedupRing(rings[i][0]);
          RingStepStored(coordinates, st, rings[i][0]);
          rings := rings[i := rings[i][0 := y]];
        }
      }
    }

    /** `__call__`: the kept arcs; the fields `lines` and `rings` end up holding the rewritten
        chains the geometries refer to. */
    method Call(c: seq<Pos>, ls: seq<seq<Range>>, rs: seq<seq<Range>>) returns (out: seq<Range>)
      requires ChainsFrom(ls, |c|, 0) && ChainsFrom(rs, |c|, 0)
      modifies this
      ensures coordinates == c && arcCount == Pieces(ls) + Pieces(rs)
      ensures (out, lines, rings) == DedupAll(c, ls, rs)
    {
      coordinates := c;
      lines := ls;
      rings := rs;
      CountArcs();
      arcsByEnd := map[];
      arcs := [];
      DedupLines();
      ghost var st1, ls1 := St(), lines;
      DedupRings();
      DedupAllParts(c, ls, rs, st1, ls1, St(), rings);
      out := arcs;
    }
  }
}
