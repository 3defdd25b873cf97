/** join.py: finding the junctions, the positions where the lines and rings have to be cut so
    that every shared stretch becomes one arc. A position is a junction when it ends a line, or
    when two lines or rings pass through it with different unordered pairs of neighbours. */
module Join {
  import opened Base
  import opened Hash
  import opened PointHash

  // ---------------------------------------------------------------- the position index

  /** Position j is the first in the buffer equal to position i. */
  ghost predicate IsFirst(c: seq<Pos>, i: int, j: int)
    requires 0 <= i < |c|
  {
    0 <= j <= i && c[j] == c[i] && forall t :: 0 <= t < j ==> c[t] != c[i]
  }

  /** `hash_index` and `equal_index`: buffer positions hashed and compared by coordinate.
      Positions outside the buffer, which never occur, hash to 0 and equal only themselves. */
  function IndexHash(bits: real -> bv64, c: seq<Pos>): int -> int
  {
    (i: int) => if 0 <= i < |c| then HashOf(bits, c[i]) else 0
  }

  function IndexEqual(c: seq<Pos>): (int, int) -> bool
  {
    (i: int, j: int) => if 0 <= i < |c| && 0 <= j < |c| then c[i] == c[j] else i == j
  }

  lemma IndexTableProper(bits: real -> bv64, c: seq<Pos>)
    ensures Proper(IndexHash(bits, c), IndexEqual(c))
  {
  }

  /** A table of a quarter more slots than keys, and at least 16, always has two to spare. */
  lemma Headroom(n: nat, i: nat)
    requires i < n
    ensures TableSize(n as real * 1.4) >= i + 2
  {
  }

  /** What the table and the index hold after `index` has seen positions 0..i-1: each stored
      key is the first of its coordinates and maps to itself, each seen position has its first
      equal position in `ix` and that position stored in slot home[t], and at most i slots are
      taken. */
  ghost predicate IndexInv(c: seq<Pos>, slots: seq<Slot<int>>, vals: seq<int>, i: nat, ix: seq<int>, home: seq<nat>)
  {
    |slots| == |vals| && i <= |c| && |ix| == i && |home| == i &&
    CountEmpty(slots) + i >= |slots| &&
    (forall j :: 0 <= j < |slots| && slots[j].Full? ==>
       0 <= slots[j].key < i && IsFirst(c, slots[j].key, slots[j].key) && vals[j] == slots[j].key) &&
    (forall t :: 0 <= t < i ==> IsFirst(c, t, ix[t])) &&
    (forall t :: 0 <= t < i ==> home[t] < |slots| && slots[home[t]] == Full(ix[t]))
  }

  /** `maybe_set(i, i)` never runs out of room: at most i of at least i + 2 slots are taken. */
  lemma IndexRoom(bits: real -> bv64, c: seq<Pos>, slots: seq<Slot<int>>, vals: seq<int>, i: nat, ix: seq<int>, home: seq<nat>)
    requires i < |c| && |slots| == TableSize(|c| as real * 1.4)
    requires IndexInv(c, slots, vals, i, ix, home)
    ensures Place(slots, IndexHash(bits, c), IndexEqual(c), i, |slots| - 1).Some?
  {
    Headroom(|c|, i);
    if Place(slots, IndexHash(bits, c), IndexEqual(c), i, |slots| - 1).None? {
      MaybeSetRoom(slots, IndexHash(bits, c), IndexEqual(c), i);
    }
  }

  /** When the probe for i stops at a taken slot, that slot holds the first position equal to
      i, and nothing is stored. */
  lemma IndexFound(bits: real -> bv64, c: seq<Pos>, slots: seq<Slot<int>>, vals: seq<int>, i: nat, ix: seq<int>, home: seq<nat>, p: nat)
    requires i < |c| && p < |slots|
    requires IndexInv(c, slots, vals, i, ix, home)
    requires Stops(slots, IndexEqual(c), i, p) && slots[p].Full?
    ensures IndexInv(c, slots, vals, i + 1, ix + [vals[p]], home + [p])
  {
    assert IndexEqual(c)(slots[p].key, i);
  }

  /** When the probe for i stops at an empty slot, no earlier position has i's coordinates. */
  lemma IndexNew(bits: real -> bv64, c: seq<Pos>, slots: seq<Slot<int>>, vals: seq<int>, i: nat, ix: seq<int>, home: seq<nat>)
    requires i < |c| && 0 < |slots|
    requires NoHoles(slots, IndexHash(bits, c))
    requires IndexInv(c, slots, vals, i, ix, home)
    requires var p := Place(slots, IndexHash(bits, c), IndexEqual(c), i, |slots| - 1);
             p.Some? && slots[p.value].Empty?
    ensures IsFirst(c, i, i)
  {
    var hash := IndexHash(bits, c);
    var equal := IndexEqual(c);
    IndexTableProper(bits, c);
    PlaceWider(slots, hash, equal, i, |slots| - 1, |slots|);
    AbsentNowhere(slots, hash, equal, i);
    forall t | 0 <= t < i
      ensures c[t] != c[i]
    {
      assert slots[home[t]] == Full(ix[t]);
      assert !equal(ix[t], i);
    }
  }

  /** Storing a new first position i in an empty slot p keeps the invariant. */
  lemma IndexStore(c: seq<Pos>, slots: seq<Slot<int>>, vals: seq<int>, i: nat, ix: seq<int>, home: seq<nat>, p: nat)
    requires i < |c| && p < |slots| && slots[p].Empty?
    requires IndexInv(c, slots, vals, i, ix, home)
    requires IsFirst(c, i, i)
    ensures IndexInv(c, slots[p := Full(i)], vals[p := i], i + 1, ix + [i], home + [p])
  {
    CountEmptyAt(slots, p, i);
    var s2 := slots[p := Full(i)];
    forall t | 0 <= t < i + 1
      ensures (home + [p])[t] < |s2| && s2[(home + [p])[t]] == Full((ix + [i])[t])
    {
      if t < i {
        assert (home + [p])[t] == home[t] && (ix + [i])[t] == ix[t];
        assert slots[home[t]].Full?;
      }
    }
  }

  /** One `maybe_set(i, i)`: it stops at slot p and returns v, the first position equal to i;
      the tables become slots' and vals', and the invariant holds for one more position. */
  lemma IndexStep(bits: real -> bv64, c: seq<Pos>, slots: seq<Slot<int>>, vals: seq<int>, i: nat, ix: seq<int>, home: seq<nat>)
    returns (p: nat, v: int, slots': seq<Slot<int>>, vals': seq<int>)
    requires i < |c| && |slots| == TableSize(|c| as real * 1.4)
    requires NoHoles(slots, IndexHash(bits, c))
    requires IndexInv(c, slots, vals, i, ix, home)
    requires |vals| == |slots|
    ensures MaybeSetOutcome(slots, vals, IndexHash(bits, c), IndexEqual(c), i, i) == Ok((v, slots', vals'))
    ensures IndexInv(c, slots', vals', i + 1, ix + [v], home + [p])
  {
    IndexRoom(bits, c, slots, vals, i, ix, home);
    p := Place(slots, IndexHash(bits, c), IndexEqual(c), i, |slots| - 1).value;
    if slots[p].Full? {
      v, slots', vals' := vals[p], slots, vals;
      IndexFound(bits, c, slots, vals, i, ix, home, p);
    } else {
      v, slots', vals' := i, slots[p := Full(i)], vals[p := i];
      IndexNew(bits, c, slots, vals, i, ix, home);
      IndexStore(c, slots, vals, i, ix, home, p);
    }
  }

  /** One iteration of `index`: `maybe_set(i, i)` on the position table. */
  method IndexOne(m: HashMap<int, int>, bits: real -> bv64, c: seq<Pos>, i: nat, ghost ix: seq<int>, ghost home: seq<nat>)
    returns (v: int, ghost p: nat)
    requires m.Valid() && m.hash == IndexHash(bits, c) && m.equal == IndexEqual(c)
    requires i < |c| && m.size == TableSize(|c| as real * 1.4)
    requires IndexInv(c, m.keyStore[..], m.valStore[..], i, ix, home)
    modifies m.keyStore, m.valStore
    ensures m.Valid()
    ensures IndexInv(c, m.keyStore[..], m.valStore[..], i + 1, ix + [v], home + [p])
  {
    ghost var w, slots', vals';
    p, w, slots', vals' := IndexStep(bits, c, m.keyStore[..], m.valStore[..], i, ix, home);
    var tmp := m.MaybeSet(i, i);
    v := tmp.value;
  }

  /** `index`: for every buffer position, the first position holding the same coordinates.
      `maybe_set(i, i)` stores i under its coordinates unless an equal position is already
      stored, and returns what is stored. */
  method IndexPositions(bits: real -> bv64, c: seq<Pos>) returns (indexes: array<int>)
    ensures fresh(indexes) && indexes.Length == |c|
    ensures forall i :: 0 <= i < |c| ==> IsFirst(c, i, indexes[i])
  {
    var indexByPoint := new HashMap<int, int>(|c| as real * 1.4, IndexHash(bits, c), IndexEqual(c), 0);
    indexes := new int[|c|];
    AllEmptyCount(indexByPoint.keyStore[..]);
    ghost var home: seq<nat> := [];
    for i := 0 to |c|
      invariant indexByPoint.Valid() && indexByPoint.hash == IndexHash(bits, c) && indexByPoint.equal == IndexEqual(c)
      invariant indexByPoint.size == TableSize(|c| as real * 1.4)
      invariant fresh(indexByPoint.keyStore) && fresh(indexByPoint.valStore)
      invariant IndexInv(c, indexByPoint.keyStore[..], indexByPoint.valStore[..], i, indexes[..i], home)
    {
      ghost var ix := indexes[..i];
      var v;
      ghost var p;
      v, p := IndexOne(indexByPoint, bits, c, i, ix, home);
      indexes[i] := v;
      home := home + [p];
      assert indexes[..i + 1] == ix + [v];
    }
    assert indexes[..|c|] == indexes[..];
  }

  // ---------------------------------------------------------------- the junction passes

  /** What `__call__` keeps per buffer position: `visited_by_index` (the last line or ring
      that passed, -1 for none), `left_by_index` and `right_by_index` (the neighbours of the
      first pass, -1 for none yet), `junction_by_index` (true for 1) and `junction_count`. */
  datatype JState = JState(visited: seq<int>, left: seq<int>, right: seq<int>, junction: seq<bool>, count: nat)

  predicate Sized(st: JState, n: nat)
  {
    |st.visited| == n && |st.left| == n && |st.right| == n && |st.junction| == n
  }

  /** What `index` produces: a buffer position for each buffer position. */
  predicate IndexesIn(ix: seq<int>)
  {
    forall t :: 0 <= t < |ix| ==> 0 <= ix[t] < |ix|
  }

  /** A value read from `indexes`: a position, or None past the end. */
  predicate InRange(v: Option<int>, n: nat)
  {
    v.Some? ==> 0 <= v.value < n
  }

  /** The state after the initialisation loop: everything -1, no junction, count 0. */
  function Initial(n: nat): (st: JState)
    ensures Sized(st, n) && st.count == 0
    ensures forall t :: 0 <= t < n ==> !st.junction[t] && st.visited[t] == -1 && st.left[t] == -1
  {
    JState(seq(n, _ => -1), seq(n, _ => -1), seq(n, _ => -1), seq(n, _ => false), 0)
  }

  /** `self.indexes[k]` on the Int32Array: None at or past the end, Python's negative indexing
      below zero, and IndexError before the start. */
  function IxGet(ix: seq<int>, k: int): (r: Result<Option<int>>)
    ensures r.Fail? <==> k < -|ix|
    ensures r.Ok? && IndexesIn(ix) ==> InRange(r.value, |ix|)
    ensures 0 <= k < |ix| ==> r == Ok(Some(ix[k]))
    ensures k >= |ix| ==> r == Ok(None)
  {
    if k < |ix| then
      if k >= 0 then Ok(Some(ix[k]))
      else if k >= -|ix| then Ok(Some(ix[|ix| + k]))
      else Fail(IndexError)
    else Ok(None)
  }

  /** The number of flagged positions. */
  function CountTrue(s: seq<bool>): (n: nat)
    ensures n <= |s|
  {
    if s == [] then 0 else CountTrue(s[..|s| - 1]) + (if s[|s| - 1] then 1 else 0)
  }

  /** Flagging one more position adds at most one to the number flagged. */
  lemma {:induction false} CountTrueSet(s: seq<bool>, c: nat)
    requires c < |s|
    ensures CountTrue(s[c := true]) <= CountTrue(s) + 1
  {
    if c < |s| - 1 {
      assert s[c := true][..|s| - 1] == s[..|s| - 1][c := true];
      CountTrueSet(s[..|s| - 1], c);
    } else {
      assert s[c := true][..|s| - 1] == s[..|s| - 1];
    }
  }

  lemma {:induction false} CountTrueNone(s: seq<bool>)
    requires forall t :: 0 <= t < |s| ==> !s[t]
    ensures CountTrue(s) == 0
  {
    if s != [] {
      CountTrueNone(s[..|s| - 1]);
    }
  }

  /** A state whose count covers its flags, as the program relies on when it sizes the set. */
  predicate Counted(st: JState)
  {
    st.count >= CountTrue(st.junction)
  }

  /** Flags are only ever set, and the count only grows. */
  predicate Grows(st: JState, st': JState)
  {
    |st'.junction| == |st.junction| && st.count <= st'.count &&
    forall t :: 0 <= t < |st.junction| && st.junction[t] ==> st'.junction[t]
  }

  /** {l, r} and {p, q} are the same unordered pair. */
  predicate SamePair(l: int, r: int, p: Option<int>, q: Option<int>)
  {
    (Some(l) == p && Some(r) == q) || (Some(l) == q && Some(r) == p)
  }

  function OrZero(v: Option<int>): int
  {
    if v.Some? then v.value else 0
  }

  /** `sequence(o, previous, current, next)`: a revisit by the same line or ring o changes
      nothing; a first visit records the neighbours (None as 0); a later visit by another one
      flags the position unless its neighbours are the recorded pair in either order. A None
      current position fails as Python's comparison of None with an int. */
  function Visit(st: JState, o: int, prev: Option<int>, cur: Option<int>, next: Option<int>): (r: Result<JState>)
    requires Sized(st, |st.visited|) && InRange(cur, |st.visited|)
    ensures r.Fail? <==> cur.None?
    ensures r.Ok? ==> Sized(r.value, |st.visited|) && Grows(st, r.value)
    ensures r.Ok? && Counted(st) ==> Counted(r.value)
    ensures r.Ok? ==> forall t :: 0 <= t < |st.visited| && t != cur.value ==> r.value.left[t] == st.left[t]
    ensures r.Ok? && st.left[cur.value] < 0 ==> r.value.junction == st.junction
  {
    if cur.None? then Fail(TypeError)
    else
      var c := cur.value;
      if st.visited[c] == o then Ok(st)
      else
        var seen := st.(visited := st.visited[c := o]);
        var l := st.left[c];
        if 0 <= l then
          var rr := st.right[c];
          if (Some(l) != prev || Some(rr) != next) && (Some(l) != next || Some(rr) != prev) then
            CountTrueSet(st.junction, c);
            Ok(seen.(junction := st.junction[c := true], count := st.count + 1))
          else Ok(seen)
        else Ok(seen.(left := st.left[c := OrZero(prev)], right := st.right[c := OrZero(next)]))
  }

  /** What one visit of position c by line or ring o does: a revisit by o changes nothing; a
      first visit records the neighbours (None as 0); a later visit by another one flags c
      unless its neighbours are the recorded pair in either order. Other positions keep
      everything. */
  lemma VisitRule(st: JState, o: int, prev: Option<int>, c: int, next: Option<int>)
    requires Sized(st, |st.visited|) && 0 <= c < |st.visited|
    ensures var r := Visit(st, o, prev, Some(c), next).value;
            (forall t :: 0 <= t < |st.visited| && t != c ==>
               r.junction[t] == st.junction[t] && r.visited[t] == st.visited[t] &&
               r.left[t] == st.left[t] && r.right[t] == st.right[t]) &&
            (st.visited[c] == o ==> r == st) &&
            (st.visited[c] != o ==>
               r.visited[c] == o &&
               if st.left[c] < 0 then
                 r.left[c] == OrZero(prev) && r.right[c] == OrZero(next) && r.junction == st.junction
               else
                 r.left[c] == st.left[c] && r.right[c] == st.right[c] &&
                 (r.junction[c] <==> st.junction[c] || !SamePair(st.left[c], st.right[c], prev, next)))
  {
  }

  /** `junction_count += 1; junction_by_index[v] = 1` at an end of a line. */
  function Mark(st: JState, v: Option<int>): (r: Result<JState>)
    requires Sized(st, |st.visited|) && InRange(v, |st.visited|)
    ensures r.Fail? <==> v.None?
    ensures r.Ok? ==> Sized(r.value, |st.visited|) && Grows(st, r.value) && r.value.junction[v.value]
    ensures r.Ok? && Counted(st) ==> Counted(r.value)
  {
    if v.None? then Fail(TypeError)
    else
      CountTrueSet(st.junction, v.value);
      Ok(st.(junction := st.junction[v.value := true], count := st.count + 1))
  }

  /** The while loop shared by both passes: for k = from..e, shift the window (current, next)
      one step, read indexes[k] as the new next, and visit the current position. Returns the
      state and the final next. */
  function Walk(st: JState, o: int, ix: seq<int>, cur: Option<int>, next: Option<int>, k: int, e: int): (r: Result<(JState, Option<int>)>)
    requires IndexesIn(ix) && Sized(st, |ix|) && InRange(cur, |ix|) && InRange(next, |ix|)
    ensures r.Ok? ==> Sized(r.value.0, |ix|) && Grows(st, r.value.0) && InRange(r.value.1, |ix|)
    ensures r.Ok? && Counted(st) ==> Counted(r.value.0)
    ensures r.Ok? && k <= e ==> IxGet(ix, e) == Ok(r.value.1)
    ensures r.Ok? && k > e ==> r.value.1 == next
    ensures 1 <= k && k - 1 <= e < |ix| && next == Some(ix[k - 1]) && Unseen(st, ix, k - 1, e) ==>
              r.Ok? && r.value.0.junction == st.junction
    decreases e - k + 1
  {
    if k > e then Ok((st, next))
    else
      var nx :- IxGet(ix, k);
      var st' :- Visit(st, o, cur, next, nx);
      UnseenAfterVisit(st, st', ix, next.value, k - 1, e);
      Walk(st', o, ix, next, nx, k + 1, e)
  }

  /** What is left of a walk at position k: the rest of it takes st to goal. */
  predicate WalkLeft(st: JState, o: int, ix: seq<int>, cur: Option<int>, next: Option<int>, k: int, e: int,
                     goal: Result<(JState, Option<int>)>)
    requires IndexesIn(ix) && Sized(st, |ix|) && InRange(cur, |ix|) && InRange(next, |ix|)
  {
    Walk(st, o, ix, cur, next, k, e) == goal
  }

  /** Positions ix[a..b] are distinct and have no recorded neighbours yet: the first visit of
      each only records its neighbours. */
  predicate Unseen(st: JState, ix: seq<int>, a: int, b: int)
    requires IndexesIn(ix) && Sized(st, |ix|) && 0 <= a && b <= |ix|
  {
    (forall t :: a <= t < b ==> st.left[ix[t]] < 0) &&
    (forall t, u :: a <= t < u < b ==> ix[t] != ix[u])
  }

  /** Visiting ix[a] leaves the rest of an unseen stretch unseen. */
  lemma UnseenAfterVisit(st: JState, st': JState, ix: seq<int>, c: int, a: int, b: int)
    requires IndexesIn(ix) && Sized(st, |ix|) && Sized(st', |ix|) && 0 <= c < |ix|
    requires forall t :: 0 <= t < |ix| && t != c ==> st'.left[t] == st.left[t]
    ensures 0 <= a < b <= |ix| && ix[a] == c && Unseen(st, ix, a, b) ==> Unseen(st', ix, a + 1, b)
  {
    if 0 <= a < b <= |ix| && ix[a] == c && Unseen(st, ix, a, b) {
      forall t | a + 1 <= t < b
        ensures st'.left[ix[t]] < 0
      {
        assert ix[t] != ix[a];
      }
    }
  }

  /** The pass over line o with range [s, e] (join.py:46-65): flag indexes[s], walk s + 2..e,
      flag the last next. A line of two or more positions has both ends flagged, even when it
      is closed. */
  function JoinLine(st: JState, o: int, ix: seq<int>, l: Range): (r: Result<JState>)
    requires IndexesIn(ix) && Sized(st, |ix|)
    ensures r.Ok? ==> Sized(r.value, |ix|) && Grows(st, r.value)
    ensures r.Ok? && Counted(st) ==> Counted(r.value)
    ensures r.Ok? ==> EndsFlagged(r.value, ix, l)
  {
    var cur :- IxGet(ix, l.start);
    var next := IxGet(ix, l.start + 1).value;
    var st1 :- Mark(st, cur);
    var w :- Walk(st1, o, ix, cur, next, l.start + 2, l.end);
    Mark(w.0, w.1)
  }

  /** The pass over ring o with range [s, e] (join.py:71-88): visit s with neighbours
      indexes[e - 1] and indexes[s + 1], then walk s + 2..e. An isolated ring, one whose
      positions before the closing one are distinct and not seen before, flags nothing. */
  function JoinRing(st: JState, o: int, ix: seq<int>, l: Range): (r: Result<JState>)
    requires IndexesIn(ix) && Sized(st, |ix|)
    ensures r.Ok? ==> Sized(r.value, |ix|) && Grows(st, r.value)
    ensures r.Ok? && Counted(st) ==> Counted(r.value)
    ensures 0 <= l.start < l.end < |ix| && Unseen(st, ix, l.start, l.end) ==> r.Ok? && r.value.junction == st.junction
  {
    var h :- RingStart(st, o, ix, l);
    var w :- Walk(h.0, o, ix, h.1, h.2, l.start + 2, l.end);
    Ok(w.0)
  }

  /** The head of the ring pass: read indexes[e - 1], indexes[s] and indexes[s + 1] and visit
      s; gives the state and the (current, next) window the walk starts from. */
  function RingStart(st: JState, o: int, ix: seq<int>, l: Range): (r: Result<(JState, Option<int>, Option<int>)>)
    requires IndexesIn(ix) && Sized(st, |ix|)
    ensures r.Ok? ==> Sized(r.value.0, |ix|) && Grows(st, r.value.0) &&
                      InRange(r.value.1, |ix|) && InRange(r.value.2, |ix|)
    ensures r.Ok? && Counted(st) ==> Counted(r.value.0)
    ensures 0 <= l.start < l.end < |ix| && Unseen(st, ix, l.start, l.end) ==>
              r.Ok? && r.value.0.junction == st.junction && r.value.2 == Some(ix[l.start + 1]) &&
              Unseen(r.value.0, ix, l.start + 1, l.end)
  {
    var prev :- IxGet(ix, l.end - 1);
    var cur :- IxGet(ix, l.start);
    var next := IxGet(ix, l.start + 1).value;
    var st1 :- Visit(st, o, prev, cur, next);
    UnseenAfterVisit(st, st1, ix, cur.value, l.start, l.end);
    Ok((st1, cur, next))
  }

  // ---------------------------------------------------------------- repeated rings

  /** The position before t on ring l, cyclically: indexes[e - 1] for the first one. */
  function RingPrev(ix: seq<int>, l: Range, t: int): int
    requires 0 <= l.start <= t < l.end <= |ix|
  {
    if t == l.start then ix[l.end - 1] else ix[t - 1]
  }

  /** Position c has recorded neighbours, and they are {p, q}. */
  predicate Agrees(st: JState, c: int, p: int, q: int)
    requires 0 <= c < |st.left| && |st.right| == |st.left|
  {
    0 <= st.left[c] && SamePair(st.left[c], st.right[c], Some(p), Some(q))
  }

  /** The index of ring l's u-th position. */
  function Node(ix: seq<int>, l: Range, u: int): int
    requires 0 <= l.start && 0 <= u && l.start + u < |ix|
  {
    ix[l.start + u]
  }

  /** Every position of ring l has its ring neighbours recorded, in the ring's direction. */
  predicate Recorded(st: JState, ix: seq<int>, l: Range)
    requires IndexesIn(ix) && Sized(st, |ix|) && 0 <= l.start < l.end < |ix|
  {
    forall u :: 0 <= u < l.end - l.start ==>
      st.left[Node(ix, l, u)] == RingPrev(ix, l, l.start + u) && st.right[Node(ix, l, u)] == ix[l.start + u + 1]
  }

  /** Every position of ring l has its ring neighbours recorded, in either direction. */
  predicate RingAgrees(st: JState, ix: seq<int>, l: Range)
    requires IndexesIn(ix) && Sized(st, |ix|) && 0 <= l.start < l.end < |ix|
  {
    forall t :: l.start <= t < l.end ==> Agrees(st, ix[t], RingPrev(ix, l, t), ix[t + 1])
  }

  /** A walk over positions not seen before records each one's neighbours and leaves every
      other position's neighbours as they were. */
  lemma {:induction false} WalkRecords(st: JState, o: int, ix: seq<int>, cur: Option<int>, next: Option<int>, k: int, e: int)
    requires IndexesIn(ix) && Sized(st, |ix|) && 2 <= k && k - 1 <= e < |ix|
    requires cur == Some(ix[k - 2]) && next == Some(ix[k - 1])
    requires Unseen(st, ix, k - 1, e) && forall t :: k - 1 <= t < e ==> st.visited[ix[t]] != o
    ensures Walk(st, o, ix, cur, next, k, e).Ok?
    ensures var r := Walk(st, o, ix, cur, next, k, e).value.0;
            (forall t :: k - 1 <= t < e ==> r.left[ix[t]] == ix[t - 1] && r.right[ix[t]] == ix[t + 1]) &&
            (forall q :: 0 <= q < |ix| && (forall t :: k - 1 <= t < e ==> ix[t] != q) ==>
               r.left[q] == st.left[q] && r.right[q] == st.right[q])
    decreases e - k + 1
  {
    if k <= e {
      var c := ix[k - 1];
      var nx := Some(ix[k]);
      VisitRule(st, o, cur, c, nx);
      var st' := Visit(st, o, cur, next, nx).value;
      UnseenAfterVisit(st, st', ix, c, k - 1, e);
      assert forall t :: k <= t < e ==> ix[t] != c;
      WalkRecords(st', o, ix, next, nx, k + 1, e);
      assert Walk(st, o, ix, cur, next, k, e) == Walk(st', o, ix, next, nx, k + 1, e);
    }
  }

  /** The first visit of a ring's pass over positions not seen before records indexes[e - 1]
      and indexes[s + 1] at indexes[s] and leaves the rest of the ring unseen. */
  lemma RingStartRecords(st: JState, o: int, ix: seq<int>, l: Range)
    requires IndexesIn(ix) && Sized(st, |ix|) && 0 <= l.start < l.end < |ix|
    requires Unseen(st, ix, l.start, l.end) && forall t :: l.start <= t < l.end ==> st.visited[ix[t]] != o
    ensures var h := RingStart(st, o, ix, l);
            h.Ok? && h.value.1 == Some(ix[l.start]) && h.value.2 == Some(ix[l.start + 1]) &&
            h.value.0.left[ix[l.start]] == ix[l.end - 1] && h.value.0.right[ix[l.start]] == ix[l.start + 1] &&
            Unseen(h.value.0, ix, l.start + 1, l.end) &&
            forall t :: l.start + 1 <= t < l.end ==> h.value.0.visited[ix[t]] != o
  {
    var (s, e) := (l.start, l.end);
    var c := ix[s];
    VisitRule(st, o, Some(ix[e - 1]), c, Some(ix[s + 1]));
    assert forall t :: s < t < e ==> ix[t] != c;
  }

  /** The neighbours recorded at the ring's first position and by the walk over the others
      make up the whole ring's record. */
  lemma RecordedOfParts(st1: JState, r: JState, ix: seq<int>, l: Range)
    requires IndexesIn(ix) && Sized(st1, |ix|) && Sized(r, |ix|) && 0 <= l.start < l.end < |ix|
    requires st1.left[ix[l.start]] == ix[l.end - 1] && st1.right[ix[l.start]] == ix[l.start + 1]
    requires forall t, u :: l.start <= t < u < l.end ==> ix[t] != ix[u]
    requires forall t :: l.start + 1 <= t < l.end ==> r.left[ix[t]] == ix[t - 1] && r.right[ix[t]] == ix[t + 1]
    requires forall q :: 0 <= q < |ix| && (forall t :: l.start + 1 <= t < l.end ==> ix[t] != q) ==>
               r.left[q] == st1.left[q] && r.right[q] == st1.right[q]
    ensures Recorded(r, ix, l)
  {
    assert forall t :: l.start + 1 <= t < l.end ==> ix[t] != ix[l.start];
    forall u | 0 <= u < l.end - l.start
      ensures r.left[Node(ix, l, u)] == RingPrev(ix, l, l.start + u) && r.right[Node(ix, l, u)] == ix[l.start + u + 1]
    {
      assert Node(ix, l, u) == ix[l.start + u];
    }
  }

  /** The pass of a ring over positions not seen before records, at each of them, its two
      neighbours on the ring. */
  lemma RingRecords(st: JState, o: int, ix: seq<int>, l: Range)
    requires IndexesIn(ix) && Sized(st, |ix|) && 0 <= l.start < l.end < |ix|
    requires Unseen(st, ix, l.start, l.end) && forall t :: l.start <= t < l.end ==> st.visited[ix[t]] != o
    ensures JoinRing(st, o, ix, l).Ok? && Recorded(JoinRing(st, o, ix, l).value, ix, l)
  {
    RingStartRecords(st, o, ix, l);
    var h := RingStart(st, o, ix, l).value;
    WalkRecords(h.0, o, ix, h.1, h.2, l.start + 2, l.end);
    RecordedOfParts(h.0, JoinRing(st, o, ix, l).value, ix, l);
  }

  /** A walk over positions whose recorded neighbours are their neighbours on the walk flags
      nothing and keeps every recorded pair. */
  lemma {:induction false} WalkAgreed(st: JState, o: int, ix: seq<int>, cur: Option<int>, next: Option<int>, k: int, e: int)
    requires IndexesIn(ix) && Sized(st, |ix|) && 2 <= k && k - 1 <= e < |ix|
    requires cur == Some(ix[k - 2]) && next == Some(ix[k - 1])
    requires forall t :: k - 1 <= t < e ==> Agrees(st, ix[t], ix[t - 1], ix[t + 1])
    ensures Walk(st, o, ix, cur, next, k, e).Ok? && Walk(st, o, ix, cur, next, k, e).value.0.junction == st.junction
    decreases e - k + 1
  {
    if k <= e {
      var c := ix[k - 1];
      var nx := Some(ix[k]);
      VisitRule(st, o, cur, c, nx);
      var st' := Visit(st, o, cur, next, nx).value;
      assert st'.left == st.left && st'.right == st.right && st'.junction == st.junction;
      WalkAgreed(st', o, ix, next, nx, k + 1, e);
      assert Walk(st, o, ix, cur, next, k, e) == Walk(st', o, ix, next, nx, k + 1, e);
    }
  }

  /** The pass of a ring whose every position has its ring neighbours recorded (in either
      direction) flags nothing: the pair test of `sequence` (join.py:111-117) passes at each. */
  lemma RingAgreed(st: JState, o: int, ix: seq<int>, l: Range)
    requires IndexesIn(ix) && Sized(st, |ix|) && 0 <= l.start < l.end < |ix|
    requires RingAgrees(st, ix, l)
    ensures JoinRing(st, o, ix, l).Ok? && JoinRing(st, o, ix, l).value.junction == st.junction
  {
    var (s, e) := (l.start, l.end);
    assert Agrees(st, ix[s], RingPrev(ix, l, s), ix[s + 1]);
    VisitRule(st, o, Some(ix[e - 1]), ix[s], Some(ix[s + 1]));
    var h := RingStart(st, o, ix, l).value;
    assert h.0.left == st.left && h.0.right == st.right && h.0.junction == st.junction;
    forall t | s + 1 <= t < e
      ensures Agrees(h.0, ix[t], ix[t - 1], ix[t + 1])
    {
      assert Agrees(st, ix[t], RingPrev(ix, l, t), ix[t + 1]);
    }
    WalkAgreed(h.0, o, ix, h.1, h.2, s + 2, e);
  }

  /** Position u + k of a ring of n positions, cyclically. */
  function Rot(u: int, k: int, n: int): int
  {
    if u + k < n then u + k else u + k - n
  }

  /** Position k - u of a ring of n positions, cyclically: the ring read backwards from k. */
  function Back(u: int, k: int, n: int): int
  {
    if u <= k then k - u else k - u + n
  }

  /** Ring b has the positions of ring a, read from a's position k onwards, forwards or (when
      reversed) backwards; both are closed (their last position is their first one). */
  predicate SameRing(ix: seq<int>, a: Range, b: Range, k: int, reversed: bool)
    requires IndexesIn(ix) && 0 <= a.start < a.end < |ix| && 0 <= b.start < b.end < |ix|
  {
    var n := a.end - a.start;
    && b.end - b.start == n && 0 <= k < n
    && ix[a.end] == ix[a.start] && ix[b.end] == ix[b.start]
    && forall u :: 0 <= u < n ==> Node(ix, b, u) == Node(ix, a, if reversed then Back(u, k, n) else Rot(u, k, n))
  }

  /** On a ring b that reads ring a forwards from position k, the position before b's u-th is
      the position before a's Rot(u, k, n)-th. */
  lemma RotPrev(ix: seq<int>, a: Range, b: Range, k: int, u: int)
    requires IndexesIn(ix) && 0 <= a.start < a.end < |ix| && 0 <= b.start < b.end < |ix|
    requires SameRing(ix, a, b, k, false) && 0 <= u < b.end - b.start
    ensures RingPrev(ix, b, b.start + u) == RingPrev(ix, a, a.start + Rot(u, k, a.end - a.start))
  {
    var n := a.end - a.start;
    assert Node(ix, b, u) == Node(ix, a, Rot(u, k, n));
    if u > 0 {
      assert Node(ix, b, u - 1) == Node(ix, a, Rot(u - 1, k, n));
    } else {
      assert Node(ix, b, n - 1) == Node(ix, a, Rot(n - 1, k, n));
    }
  }

  /** On a ring b that reads ring a forwards from position k, the position after b's u-th is
      the position after a's Rot(u, k, n)-th. */
  lemma RotNext(ix: seq<int>, a: Range, b: Range, k: int, u: int)
    requires IndexesIn(ix) && 0 <= a.start < a.end < |ix| && 0 <= b.start < b.end < |ix|
    requires SameRing(ix, a, b, k, false) && 0 <= u < b.end - b.start
    ensures ix[b.start + u + 1] == ix[a.start + Rot(u, k, a.end - a.start) + 1]
  {
    var n := a.end - a.start;
    assert Node(ix, b, u) == Node(ix, a, Rot(u, k, n));
    if u + 1 < n {
      assert Node(ix, b, u + 1) == Node(ix, a, Rot(u + 1, k, n));
    } else {
      assert Node(ix, b, 0) == Node(ix, a, Rot(0, k, n));
    }
  }

  /** On a ring b that reads ring a backwards from position k, the position before b's u-th is
      the position after a's Back(u, k, n)-th. */
  lemma BackPrev(ix: seq<int>, a: Range, b: Range, k: int, u: int)
    requires IndexesIn(ix) && 0 <= a.start < a.end < |ix| && 0 <= b.start < b.end < |ix|
    requires SameRing(ix, a, b, k, true) && 0 <= u < b.end - b.start
    ensures RingPrev(ix, b, b.start + u) == ix[a.start + Back(u, k, a.end - a.start) + 1]
  {
    var n := a.end - a.start;
    assert Node(ix, b, u) == Node(ix, a, Back(u, k, n));
    if u > 0 {
      assert Node(ix, b, u - 1) == Node(ix, a, Back(u - 1, k, n));
    } else {
      assert Node(ix, b, n - 1) == Node(ix, a, Back(n - 1, k, n));
    }
  }

  /** On a ring b that reads ring a backwards from position k, the position after b's u-th is
      the position before a's Back(u, k, n)-th. */
  lemma BackNext(ix: seq<int>, a: Range, b: Range, k: int, u: int)
    requires IndexesIn(ix) && 0 <= a.start < a.end < |ix| && 0 <= b.start < b.end < |ix|
    requires SameRing(ix, a, b, k, true) && 0 <= u < b.end - b.start
    ensures ix[b.start + u + 1] == RingPrev(ix, a, a.start + Back(u, k, a.end - a.start))
  {
    var n := a.end - a.start;
    assert Node(ix, b, u) == Node(ix, a, Back(u, k, n));
    if u + 1 < n {
      assert Node(ix, b, u + 1) == Node(ix, a, Back(u + 1, k, n));
    } else {
      assert Node(ix, b, 0) == Node(ix, a, Back(0, k, n));
    }
  }

  /** At position u of ring b, the same ring as a, the ring neighbours are those a recorded
      at the matching position, in the same order or swapped. */
  lemma SameRingAt(st: JState, ix: seq<int>, a: Range, b: Range, k: int, reversed: bool, u: int)
    requires IndexesIn(ix) && Sized(st, |ix|) && 0 <= a.start < a.end < |ix| && 0 <= b.start < b.end < |ix|
    requires Recorded(st, ix, a) && SameRing(ix, a, b, k, reversed) && 0 <= u < b.end - b.start
    ensures Agrees(st, ix[b.start + u], RingPrev(ix, b, b.start + u), ix[b.start + u + 1])
  {
    var n := a.end - a.start;
    var v := if reversed then Back(u, k, n) else Rot(u, k, n);
    assert Node(ix, b, u) == Node(ix, a, v);
    assert st.left[Node(ix, a, v)] == RingPrev(ix, a, a.start + v) && st.right[Node(ix, a, v)] == ix[a.start + v + 1];
    if reversed {
      BackPrev(ix, a, b, k, u);
      BackNext(ix, a, b, k, u);
    } else {
      RotPrev(ix, a, b, k, u);
      RotNext(ix, a, b, k, u);
    }
  }

  /** A ring that is another ring repeated, rotated or reversed agrees everywhere with what the
      other one recorded. */
  lemma SameRingAgrees(st: JState, ix: seq<int>, a: Range, b: Range, k: int, reversed: bool)
    requires IndexesIn(ix) && Sized(st, |ix|) && 0 <= a.start < a.end < |ix| && 0 <= b.start < b.end < |ix|
    requires Recorded(st, ix, a) && SameRing(ix, a, b, k, reversed)
    ensures RingAgrees(st, ix, b)
  {
    forall t | b.start <= t < b.end
      ensures Agrees(st, ix[t], RingPrev(ix, b, t), ix[t + 1])
    {
      SameRingAt(st, ix, a, b, k, reversed, t - b.start);
    }
  }

  /** Rings that share all their points raise no junction (join.py:70-88): a ring that meets
      nothing seen before, followed by a ring with the same positions (repeated, from another
      start, or backwards), leaves every flag as it was. */
  lemma SameRingNoJunction(st: JState, o1: int, o2: int, ix: seq<int>, a: Range, b: Range, k: int, reversed: bool)
    requires IndexesIn(ix) && Sized(st, |ix|) && 0 <= a.start < a.end < |ix| && 0 <= b.start < b.end < |ix|
    requires Unseen(st, ix, a.start, a.end) && forall t :: a.start <= t < a.end ==> st.visited[ix[t]] != o1
    requires SameRing(ix, a, b, k, reversed)
    ensures JoinRing(st, o1, ix, a).Ok?
    ensures var st1 := JoinRing(st, o1, ix, a).value;
            JoinRing(st1, o2, ix, b).Ok? && JoinRing(st1, o2, ix, b).value.junction == st.junction
  {
    RingRecords(st, o1, ix, a);
    var st1 := JoinRing(st, o1, ix, a).value;
    SameRingAgrees(st1, ix, a, b, k, reversed);
    RingAgreed(st1, o2, ix, b);
  }

  /** Lines i, i+1, ... in order, line t owning the visits it makes; the first failure wins. */
  function LinesFrom(st: JState, ix: seq<int>, ls: seq<Range>, i: nat): (r: Result<JState>)
    requires IndexesIn(ix) && Sized(st, |ix|) && i <= |ls|
    ensures r.Ok? ==> Sized(r.value, |ix|) && Grows(st, r.value)
    ensures r.Ok? && Counted(st) ==> Counted(r.value)
    ensures r.Ok? ==> forall t :: i <= t < |ls| ==> EndsFlagged(r.value, ix, ls[t])
    decreases |ls| - i, 1
  {
    if i == |ls| then Ok(st) else LineThen(st, ix, ls, i)
  }

  /** Line i, then the lines after it. */
  function LineThen(st: JState, ix: seq<int>, ls: seq<Range>, i: nat): (r: Result<JState>)
    requires IndexesIn(ix) && Sized(st, |ix|) && i < |ls|
    ensures r.Ok? ==> Sized(r.value, |ix|) && Grows(st, r.value)
    ensures r.Ok? && Counted(st) ==> Counted(r.value)
    ensures r.Ok? ==> forall t :: i <= t < |ls| ==> EndsFlagged(r.value, ix, ls[t])
    decreases |ls| - i, 0
  {
    var st' :- JoinLine(st, i, ix, ls[i]);
    var r := LinesFrom(st', ix, ls, i + 1);
    if r.Ok? then EndsKept(st', r.value, ix, ls, i); r else r
  }

  /** A line of two or more positions has both ends flagged. */
  predicate EndsFlagged(st: JState, ix: seq<int>, l: Range)
    requires IndexesIn(ix) && Sized(st, |ix|)
  {
    0 <= l.start < l.end < |ix| ==> st.junction[ix[l.start]] && st.junction[ix[l.end]]
  }

  /** Flags once raised stay raised, for line i and every later one. */
  lemma EndsKept(st: JState, st': JState, ix: seq<int>, ls: seq<Range>, i: nat)
    requires IndexesIn(ix) && Sized(st, |ix|) && Sized(st', |ix|) && Grows(st, st') && i < |ls|
    requires EndsFlagged(st, ix, ls[i])
    requires forall t :: i < t < |ls| ==> EndsFlagged(st', ix, ls[t])
    ensures forall t :: i <= t < |ls| ==> EndsFlagged(st', ix, ls[t])
  {
  }

  /** Rings i, i+1, ... in order; the first failure wins. */
  function RingsFrom(st: JState, ix: seq<int>, rs: seq<Range>, i: nat): (r: Result<JState>)
    requires IndexesIn(ix) && Sized(st, |ix|) && i <= |rs|
    ensures r.Ok? ==> Sized(r.value, |ix|) && Grows(st, r.value)
    ensures r.Ok? && Counted(st) ==> Counted(r.value)
    decreases |rs| - i, 1
  {
    if i == |rs| then Ok(st) else RingThen(st, ix, rs, i)
  }

  /** Ring i, then the rings after it. */
  function RingThen(st: JState, ix: seq<int>, rs: seq<Range>, i: nat): (r: Result<JState>)
    requires IndexesIn(ix) && Sized(st, |ix|) && i < |rs|
    ensures r.Ok? ==> Sized(r.value, |ix|) && Grows(st, r.value)
    ensures r.Ok? && Counted(st) ==> Counted(r.value)
    decreases |rs| - i, 0
  {
    var st' :- JoinRing(st, i, ix, rs[i]);
    RingsFrom(st', ix, rs, i + 1)
  }

  /** What is left of a pass at line i: the rest of the lines take st to goal. */
  predicate LinesLeft(st: JState, ix: seq<int>, ls: seq<Range>, i: nat, goal: Result<JState>)
    requires IndexesIn(ix) && Sized(st, |ix|) && i <= |ls|
  {
    LinesFrom(st, ix, ls, i) == goal
  }

  predicate RingsLeft(st: JState, ix: seq<int>, rs: seq<Range>, i: nat, goal: Result<JState>)
    requires IndexesIn(ix) && Sized(st, |ix|) && i <= |rs|
  {
    RingsFrom(st, ix, rs, i) == goal
  }

  /** The reset of `visited_by_index` between the passes. */
  function Unvisit(st: JState): (r: JState)
    ensures r.visited == seq(|st.visited|, _ => -1)
    ensures r.left == st.left && r.right == st.right && r.junction == st.junction && r.count == st.count
  {
    st.(visited := seq(|st.visited|, _ => -1))
  }

  /** Both passes from the initial state. */
  function Junctions(ix: seq<int>, ls: seq<Range>, rs: seq<Range>): (r: Result<JState>)
    requires IndexesIn(ix)
    ensures r.Ok? ==> Sized(r.value, |ix|) && Counted(r.value)
    ensures r.Ok? ==> forall t :: 0 <= t < |ls| ==> EndsFlagged(r.value, ix, ls[t])
  {
    CountTrueNone(Initial(|ix|).junction);
    var a :- LinesFrom(Initial(|ix|), ix, ls, 0);
    var r := RingsFrom(Unvisit(a), ix, rs, 0);
    if r.Ok? then FlagsKept(Unvisit(a), r.value, ix, ls); r else r
  }

  /** The coordinates `__call__` returns: those whose first equal position is flagged. */
  ghost function JunctionPoints(c: seq<Pos>, ix: seq<int>, junction: seq<bool>): set<Pos>
    requires |ix| == |c| && |junction| == |c| && IndexesIn(ix)
  {
    FlaggedPoints(c, ix, junction, |c|)
  }

  /** The same for the first i positions. */
  ghost function FlaggedPoints(c: seq<Pos>, ix: seq<int>, junction: seq<bool>, i: nat): set<Pos>
    requires |ix| == |c| && |junction| == |c| && IndexesIn(ix) && i <= |c|
  {
    set t | 0 <= t < i && junction[ix[t]] :: c[ix[t]]
  }

  /** The coordinates of every flagged position. */
  ghost function FlagSet(c: seq<Pos>, junction: seq<bool>): set<Pos>
    requires |junction| == |c|
  {
    set j | 0 <= j < |c| && junction[j] :: c[j]
  }

  /** There are no more flagged coordinates than flagged positions. */
  lemma {:induction false} FlagSetSize(c: seq<Pos>, junction: seq<bool>)
    requires |junction| == |c|
    ensures |FlagSet(c, junction)| <= CountTrue(junction)
  {
    if c != [] {
      var n := |c| - 1;
      FlagSetSize(c[..n], junction[..n]);
      var extra: set<Pos> := if junction[n] then {c[n]} else {};
      assert FlagSet(c, junction) == FlagSet(c[..n], junction[..n]) + extra by {
        forall p | p in FlagSet(c, junction) ensures p in FlagSet(c[..n], junction[..n]) + extra {
          var j :| 0 <= j < |c| && junction[j] && c[j] == p;
          if j < n {
            assert c[..n][j] == p && junction[..n][j];
          }
        }
        forall p | p in FlagSet(c[..n], junction[..n]) ensures p in FlagSet(c, junction) {
          var j :| 0 <= j < n && junction[..n][j] && c[..n][j] == p;
          assert junction[j] && c[j] == p;
        }
      }
    }
  }

  /** The points flagged so far are among the flagged coordinates. */
  lemma FlaggedWithin(c: seq<Pos>, ix: seq<int>, junction: seq<bool>, i: nat)
    requires |ix| == |c| && |junction| == |c| && IndexesIn(ix) && i <= |c|
    ensures FlaggedPoints(c, ix, junction, i) <= FlagSet(c, junction)
  {
  }

  lemma FlaggedPointsSnoc(c: seq<Pos>, ix: seq<int>, junction: seq<bool>, i: nat)
    requires |ix| == |c| && |junction| == |c| && IndexesIn(ix) && i < |c|
    ensures FlaggedPoints(c, ix, junction, i + 1) ==
            FlaggedPoints(c, ix, junction, i) + (if junction[ix[i]] then {c[ix[i]]} else {})
  {
  }

  /** A method's outcome and the state it leaves, as the value of the function it follows. */
  function Outcome(r: Result<()>, st: JState): Result<JState>
  {
    if r.Ok? then Ok(st) else Fail(r.error)
  }

  // ---------------------------------------------------------------- the Join object

  class Join {
    var coordinates: seq<Pos>
    var lines: seq<Range>
    var rings: seq<Range>
    var indexes: seq<int>
    var visitedByIndex: array<int>
    var leftByIndex: array<int>
    var rightByIndex: array<int>
    var junctionByIndex: array<bool>
    var junctionCount: nat

    /** The per-position arrays have one slot per buffer position and are distinct. */
    ghost predicate Valid()
      reads this
    {
      IndexesIn(indexes) &&
      visitedByIndex.Length == |indexes| && leftByIndex.Length == |indexes| &&
      rightByIndex.Length == |indexes| && junctionByIndex.Length == |indexes| &&
      visitedByIndex != leftByIndex && visitedByIndex != rightByIndex && leftByIndex != rightByIndex
    }

    /** The arrays and the count as a value. */
    function State(): (st: JState)
      reads this, visitedByIndex, leftByIndex, rightByIndex, junctionByIndex
      ensures Valid() ==> Sized(st, |indexes|)
    {
      JState(visitedByIndex[..], leftByIndex[..], rightByIndex[..], junctionByIndex[..], junctionCount)
    }

    constructor ()
      ensures Valid() && indexes == [] && coordinates == [] && lines == [] && rings == []
    {
      coordinates, lines, rings, indexes := [], [], [], [];
      visitedByIndex := new int[0];
      leftByIndex := new int[0];
      rightByIndex := new int[0];
      junctionByIndex := new bool[0];
      junctionCount := 0;
    }

    /** `index` on the object's coordinates. */
    method Index(bits: real -> bv64) returns (ix: array<int>)
      ensures fresh(ix) && ix.Length == |coordinates|
      ensures forall i :: 0 <= i < |coordinates| ==> IsFirst(coordinates, i, ix[i])
    {
      ix := IndexPositions(bits, coordinates);
    }

    /** `sequence(i, previous_index, current_index, next_index)`. */
    method Sequence(i: int, prev: Option<int>, cur: Option<int>, next: Option<int>) returns (r: Result<()>)
      requires Valid() && InRange(cur, |indexes|)
      modifies visitedByIndex, leftByIndex, rightByIndex, junctionByIndex, this`junctionCount
      ensures Valid()
      ensures r.Ok? <==> Visit(old(State()), i, prev, cur, next).Ok?
      ensures r.Ok? ==> State() == Visit(old(State()), i, prev, cur, next).value
      ensures r.Fail? ==> r.error == TypeError
    {
      if cur.None? {
        return Fail(TypeError);
      }
      var c := cur.value;
      if visitedByIndex[c] == i {
        return Ok(());
      }
      visitedByIndex[c] := i;
      var leftIndex := leftByIndex[c];
      if 0 <= leftIndex {
        var rightIndex := rightByIndex[c];
        if (Some(leftIndex) != prev || Some(rightIndex) != next) && (Some(leftIndex) != next || Some(rightIndex) != prev) {
          junctionCount := junctionCount + 1;
          junctionByIndex[c] := true;
        }
      } else {
        leftByIndex[c] := if prev.None? then 0 else prev.value;
        rightByIndex[c] := if next.None? then 0 else next.value;
      }
      return Ok(());
    }

    /** The while loop shared by both passes, from position k to e. */
    method WalkFrom(i: int, cur: Option<int>, next: Option<int>, k: int, e: int) returns (r: Result<Option<int>>)
      requires Valid() && InRange(cur, |indexes|) && InRange(next, |indexes|)
      modifies visitedByIndex, leftByIndex, rightByIndex, junctionByIndex, this`junctionCount
      ensures Valid()
      ensures r.Ok? <==> Walk(old(State()), i, indexes, cur, next, k, e).Ok?
      ensures r.Ok? ==> (State(), r.value) == Walk(old(State()), i, indexes, cur, next, k, e).value
      ensures r.Fail? ==> r.error == Walk(old(State()), i, indexes, cur, next, k, e).error
    {
      var current, following, j := cur, next, k;
      ghost var goal := Walk(State(), i, indexes, cur, next, k, e);
      while j <= e
        invariant Valid() && InRange(current, |indexes|) && InRange(following, |indexes|)
        invariant WalkLeft(State(), i, indexes, current, following, j, e, goal)
        decreases e - j + 1
      {
        var prev := current;
        current := following;
        following :- IxGet(indexes, j);
        var s := Sequence(i, prev, current, following);
        if s.Fail? {
          return Fail(s.error);
        }
        j := j + 1;
      }
      return Ok(following);
    }

    /** The body of the line loop of `__call__` for line i. */
    method PassLine(i: int, l: Range) returns (r: Result<()>)
      requires Valid()
      modifies visitedByIndex, leftByIndex, rightByIndex, junctionByIndex, this`junctionCount
      ensures Valid()
      ensures r.Ok? <==> JoinLine(old(State()), i, indexes, l).Ok?
      ensures r.Ok? ==> State() == JoinLine(old(State()), i, indexes, l).value
      ensures r.Fail? ==> r.error == JoinLine(old(State()), i, indexes, l).error
    {
      ghost var st0 := State();
      var cur :- IxGet(indexes, l.start);
      var next := IxGet(indexes, l.start + 1).value;
      var m :- MarkAt(cur);
      ghost var w := Walk(State(), i, indexes, cur, next, l.start + 2, l.end);
      assert JoinLine(st0, i, indexes, l) == if w.Fail? then Fail(w.error) else Mark(w.value.0, w.value.1);
      var last :- WalkFrom(i, cur, next, l.start + 2, l.end);
      r := MarkAt(last);
    }

    /** `junction_count += 1; junction_by_index[v] = 1`. */
    method MarkAt(v: Option<int>) returns (r: Result<()>)
      requires Valid() && InRange(v, |indexes|)
      modifies junctionByIndex, this`junctionCount
      ensures Valid()
      ensures r.Ok? <==> Mark(old(State()), v).Ok?
      ensures r.Ok? ==> State() == Mark(old(State()), v).value
      ensures r.Fail? ==> r.error == TypeError
    {
      if v.None? {
        return Fail(TypeError);
      }
      junctionCount := junctionCount + 1;
      junctionByIndex[v.value] := true;
      return Ok(());
    }

    /** The body of the ring loop of `__call__` for ring i. */
    method PassRing(i: int, l: Range) returns (r: Result<()>)
      requires Valid()
      modifies visitedByIndex, leftByIndex, rightByIndex, junctionByIndex, this`junctionCount
      ensures Valid()
      ensures r.Ok? <==> JoinRing(old(State()), i, indexes, l).Ok?
      ensures r.Ok? ==> State() == JoinRing(old(State()), i, indexes, l).value
      ensures r.Fail? ==> r.error == JoinRing(old(State()), i, indexes, l).error
    {
      var h :- StartRing(i, l);
      var last :- WalkFrom(i, h.0, h.1, l.start + 2, l.end);
      return Ok(());
    }

    /** The reads and the first `sequence` call of ring i. */
    method StartRing(i: int, l: Range) returns (r: Result<(Option<int>, Option<int>)>)
      requires Valid()
      modifies visitedByIndex, leftByIndex, rightByIndex, junctionByIndex, this`junctionCount
      ensures Valid()
      ensures r.Ok? ==> InRange(r.value.0, |indexes|) && InRange(r.value.1, |indexes|)
      ensures RingStart(old(State()), i, indexes, l) ==
              if r.Ok? then Ok((State(), r.value.0, r.value.1)) else Fail(r.error)
    {
      var prev :- IxGet(indexes, l.end - 1);
      var cur :- IxGet(indexes, l.start);
      var next := IxGet(indexes, l.start + 1).value;
      var s := Sequence(i, prev, cur, next);
      if s.Fail? {
        return Fail(s.error);
      }
      return Ok((cur, next));
    }
  
    /** One turn of the line loop, seen from the pass over the remaining lines. */
    method StepLine(i: nat) returns (r: Result<()>)
      requires Valid() && i < |lines|
      modifies visitedByIndex, leftByIndex, rightByIndex, junctionByIndex, this`junctionCount
      ensures Valid()
      ensures LinesFrom(old(State()), indexes, lines, i) ==
              if r.Ok? then LinesFrom(State(), indexes, lines, i + 1) else Fail(r.error)
    {
      LinesFromStep(State(), indexes, lines, i);
      r := PassLine(i, lines[i]);
    }

    /** The line loop of `__call__`. */
    method RunLines() returns (r: Result<()>)
      requires Valid()
      modifies visitedByIndex, leftByIndex, rightByIndex, junctionByIndex, this`junctionCount
      ensures Valid()
      ensures LinesFrom(old(State()), indexes, lines, 0) == Outcome(r, State())
    {
      ghost var goal := LinesFrom(State(), indexes, lines, 0);
      for i := 0 to |lines|
        invariant Valid()
        invariant LinesLeft(State(), indexes, lines, i, goal)
      {
        var s := StepLine(i);
        if s.Fail? {
          return Fail(s.error);
        }
      }
      return Ok(());
    }

    /** One turn of the ring loop, seen from the pass over the remaining rings. */
    method StepRing(i: nat) returns (r: Result<()>)
      requires Valid() && i < |rings|
      modifies visitedByIndex, leftByIndex, rightByIndex, junctionByIndex, this`junctionCount
      ensures Valid()
      ensures RingsFrom(old(State()), indexes, rings, i) ==
              if r.Ok? then RingsFrom(State(), indexes, rings, i + 1) else Fail(r.error)
    {
      RingsFromStep(State(), indexes, rings, i);
      r := PassRing(i, rings[i]);
    }

    /** The ring loop of `__call__`. */
    method RunRings() returns (r: Result<()>)
      requires Valid()
      modifies visitedByIndex, leftByIndex, rightByIndex, junctionByIndex, this`junctionCount
      ensures Valid()
      ensures RingsFrom(old(State()), indexes, rings, 0) == Outcome(r, State())
    {
      ghost var goal := RingsFrom(State(), indexes, rings, 0);
      for i := 0 to |rings|
        invariant Valid()
        invariant RingsLeft(State(), indexes, rings, i, goal)
      {
        var s := StepRing(i);
        if s.Fail? {
          return Fail(s.error);
        }
      }
      return Ok(());
    }

    /** The loop that sets every `visited_by_index` entry back to -1. */
    method Unmark()
      requires Valid()
      modifies visitedByIndex
      ensures Valid() && State() == Unvisit(old(State()))
    {
      for i := 0 to visitedByIndex.Length
        invariant forall t :: 0 <= t < i ==> visitedByIndex[t] == -1
      {
        visitedByIndex[i] := -1;
      }
      assert visitedByIndex[..] == seq(visitedByIndex.Length, _ => -1);
    }

    /** The set of junction coordinates: for each position i, the coordinates of indexes[i]
        when that position is flagged, in a set sized for `junction_count` entries. While the
        count bounds the flags, that set has more slots than there are distinct flagged
        coordinates, so no `add` finds it full. */
    method Collect(bits: real -> bv64) returns (h: HashSet<Pos>)
      requires Valid() && |coordinates| == |indexes| && junctionCount >= CountTrue(junctionByIndex[..])
      ensures fresh(h) && fresh(h.store) && h.Valid() && h.equal == PointEqual
      ensures Keys(h.store[..]) == JunctionPoints(coordinates, indexes, junctionByIndex[..])
    {
      h := new HashSet<Pos>(junctionCount as real * 1.4, (p: Pos) => HashOf(bits, p), PointEqual);
      assert Keys(h.store[..]) == {};
      AllEmptyCount(h.store[..]);
      FlagSetSize(coordinates, junctionByIndex[..]);
      assert (junctionCount as real) < h.size as real;
      for i := 0 to |coordinates|
        invariant h.Valid() && fresh(h.store)
        invariant h.equal == PointEqual
        invariant Keys(h.store[..]) == FlaggedPoints(coordinates, indexes, junctionByIndex[..], i)
        invariant CountEmpty(h.store[..]) + |Keys(h.store[..])| >= h.size
      {
        AddFlagged(h, i);
      }
    }

    /** One turn of the final loop: add the coordinates of indexes[i] when it is flagged, to a
        set with room for every flagged coordinate. */
    method AddFlagged(h: HashSet<Pos>, i: nat)
      requires Valid() && |coordinates| == |indexes| && i < |coordinates|
      requires h.Valid() && h.equal == PointEqual
      requires Keys(h.store[..]) == FlaggedPoints(coordinates, indexes, junctionByIndex[..], i)
      requires |FlagSet(coordinates, junctionByIndex[..])| < h.size
      requires CountEmpty(h.store[..]) + |Keys(h.store[..])| >= h.size
      modifies h.store
      ensures h.Valid()
      ensures Keys(h.store[..]) == FlaggedPoints(coordinates, indexes, junctionByIndex[..], i + 1)
      ensures CountEmpty(h.store[..]) + |Keys(h.store[..])| >= h.size
    {
      var j := indexes[i];
      FlaggedPointsSnoc(coordinates, indexes, junctionByIndex[..], i);
      FlaggedWithin(coordinates, indexes, junctionByIndex[..], i);
      ghost var before := h.store[..];
      if j < junctionByIndex.Length && junctionByIndex[j] {
        PointTableProper(h.hash);
        AddRoom(before, h.hash, PointEqual, coordinates[j], FlagSet(coordinates, junctionByIndex[..]));
        var added := h.Add(coordinates[j]);
      }
    }

    /** The start of `__call__`: keep the inputs, index the positions, and give every
        position no visit, no neighbours and no flag. */
    method Setup(bits: real -> bv64, c: seq<Pos>, ls: seq<Range>, rs: seq<Range>)
      modifies this
      ensures Valid() && coordinates == c && lines == ls && rings == rs
      ensures |indexes| == |c| && forall i :: 0 <= i < |c| ==> IsFirst(c, i, indexes[i])
      ensures State() == Initial(|c|)
      ensures fresh(visitedByIndex) && fresh(leftByIndex) && fresh(rightByIndex) && fresh(junctionByIndex)
    {
      coordinates, lines, rings := c, ls, rs;
      var ix := Index(bits);
      indexes := ix[..];
      IndexesFromFirst(c, indexes);
      Reset(|c|);
    }

    /** Fresh per-position arrays: no visit (-1), no neighbours (-1), no flag; a zero count. */
    method Reset(n: nat)
      requires IndexesIn(indexes) && |indexes| == n
      modifies this`visitedByIndex, this`leftByIndex, this`rightByIndex, this`junctionByIndex, this`junctionCount
      ensures Valid() && State() == Initial(n)
      ensures fresh(visitedByIndex) && fresh(leftByIndex) && fresh(rightByIndex) && fresh(junctionByIndex)
    {
      visitedByIndex := new int[n](_ => -1);
      leftByIndex := new int[n](_ => -1);
      rightByIndex := new int[n](_ => -1);
      junctionByIndex := new bool[n](_ => false);
      junctionCount := 0;
      assert visitedByIndex[..] == seq(n, _ => -1);
      assert leftByIndex[..] == seq(n, _ => -1);
      assert rightByIndex[..] == seq(n, _ => -1);
      assert junctionByIndex[..] == seq(n, _ => false);
    }

    /** The two passes of `__call__` with the reset of the visits between them. */
    method Passes() returns (r: Result<()>)
      requires Valid() && State() == Initial(|indexes|)
      modifies visitedByIndex, leftByIndex, rightByIndex, junctionByIndex, this`junctionCount
      ensures Valid()
      ensures Junctions(indexes, lines, rings) == Outcome(r, State())
    {
      r := RunLines();
      if r.Fail? {
        return;
      }
      Unmark();
      r := RunRings();
    }

    /** `__call__`: index the positions, run the line pass, reset the visits, run the ring
        pass, and collect the flagged coordinates. */
    method Call(bits: real -> bv64, c: seq<Pos>, ls: seq<Range>, rs: seq<Range>) returns (r: Result<HashSet<Pos>>)
      modifies this
      ensures Valid() && coordinates == c && lines == ls && rings == rs
      ensures |indexes| == |c| && forall i :: 0 <= i < |c| ==> IsFirst(c, i, indexes[i])
      ensures Junctions(indexes, ls, rs).Fail? ==> r == Fail(Junctions(indexes, ls, rs).error)
      ensures Junctions(indexes, ls, rs).Ok? ==>
                State() == Junctions(indexes, ls, rs).value &&
                r.Ok? && fresh(r.value) && r.value.Valid() && r.value.equal == PointEqual &&
                Keys(r.value.store[..]) == JunctionPoints(c, indexes, State().junction)
    {
      Setup(bits, c, ls, rs);
      var s := Passes();
      if s.Fail? {
        return Fail(s.error);
      }
      var h := Collect(bits);
      r := Ok(h);
    }
  }

  /** The ring pass raises no flag the line pass raised. */
  lemma FlagsKept(st: JState, st': JState, ix: seq<int>, ls: seq<Range>)
    requires IndexesIn(ix) && Sized(st, |ix|) && Sized(st', |ix|) && Grows(st, st')
    requires forall t :: 0 <= t < |ls| ==> EndsFlagged(st, ix, ls[t])
    ensures forall t :: 0 <= t < |ls| ==> EndsFlagged(st', ix, ls[t])
  {
    forall t | 0 <= t < |ls|
      ensures EndsFlagged(st', ix, ls[t])
    {
      assert EndsFlagged(st, ix, ls[t]);
    }
  }

  /** Unfolding the pass by one line. */
  lemma LinesFromStep(st: JState, ix: seq<int>, ls: seq<Range>, i: nat)
    requires IndexesIn(ix) && Sized(st, |ix|) && i < |ls|
    ensures JoinLine(st, i, ix, ls[i]).Fail? ==> LinesFrom(st, ix, ls, i) == Fail(JoinLine(st, i, ix, ls[i]).error)
    ensures JoinLine(st, i, ix, ls[i]).Ok? ==> LinesFrom(st, ix, ls, i) == LinesFrom(JoinLine(st, i, ix, ls[i]).value, ix, ls, i + 1)
  {
  }

  /** Unfolding the pass by one ring. */
  lemma RingsFromStep(st: JState, ix: seq<int>, ls: seq<Range>, i: nat)
    requires IndexesIn(ix) && Sized(st, |ix|) && i < |ls|
    ensures JoinRing(st, i, ix, ls[i]).Fail? ==> RingsFrom(st, ix, ls, i) == Fail(JoinRing(st, i, ix, ls[i]).error)
    ensures JoinRing(st, i, ix, ls[i]).Ok? ==> RingsFrom(st, ix, ls, i) == RingsFrom(JoinRing(st, i, ix, ls[i]).value, ix, ls, i + 1)
  {
  }

  /** First-equal indexes are buffer positions. */
  lemma IndexesFromFirst(c: seq<Pos>, ix: seq<int>)
    requires |ix| == |c| && forall i :: 0 <= i < |c| ==> IsFirst(c, i, ix[i])
    ensures IndexesIn(ix)
  {
  }
}
