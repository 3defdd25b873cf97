/** stitch.py: chaining arc references into fragments by their end points. A fragment is a dict
    holding references under the keys 0, 1, … and its "start" and "end"; two dicts map end
    points to fragments. Only two paths through the chaining loop run: opening a fragment for a
    reference that touches no fragment, and appending a reference that starts at a fragment's
    end and ends where some fragment equal to it starts. The others raise: a dict added to a
    dict or an int added to a dict is a TypeError, and `fg` may be read before it was ever set.
    At the end every fragment is emitted as its first one or two references, and an arc that
    no fragment holds would be emitted as the list [i], which the final conversion cannot read
    (a list has no `get`). */
module Stitch {
  import opened Base
  import opened TopoJson
  import opened PointTransform
  import Delta

  // ---------------------------------------------------------------- dicts

  /** A Python dict from end points to fragments, in insertion order. */
  type Dict = seq<(Pos, nat)>

  function Get(d: Dict, k: Pos): (r: Option<nat>)
    ensures r.Some? ==> (k, r.value) in d
    ensures r.None? ==> forall e :: 0 <= e < |d| ==> d[e].0 != k
  {
    if d == [] then None else if d[0].0 == k then Some(d[0].1) else Get(d[1..], k)
  }

  /** d[k] = v: replaces the value in place, or appends the key. */
  function Put(d: Dict, k: Pos, v: nat): (r: Dict)
    ensures forall e :: e in r ==> e in d || e == (k, v)
  {
    if d == [] then [(k, v)] else if d[0].0 == k then [(k, v)] + d[1..] else [d[0]] + Put(d[1..], k, v)
  }

  /** d.pop(k, None). */
  function Pop(d: Dict, k: Pos): (r: Dict)
    ensures forall e :: e in r ==> e in d
  {
    if d == [] then [] else if d[0].0 == k then d[1..] else [d[0]] + Pop(d[1..], k)
  }

  /** After d[k] = v, k maps to v and every other key to what it did. */
  lemma PutGet(d: Dict, k: Pos, v: nat, k': Pos)
    ensures Get(Put(d, k, v), k') == if k' == k then Some(v) else Get(d, k')
  {
  }

  /** d.pop(k) leaves every other key as it was. */
  lemma PopGet(d: Dict, k: Pos, k': Pos)
    requires k' != k
    ensures Get(Pop(d, k), k') == Get(d, k')
  {
  }

  predicate Below(d: Dict, n: nat)
  {
    forall e :: e in d ==> e.1 < n
  }

  // ---------------------------------------------------------------- ends

  /** The sum of every position, as `ends` adds up the deltas of an encoded arc. */
  function Total(arc: seq<Pos>): Pos
  {
    if arc == [] then Origin else Add(Total(arc[..|arc| - 1]), arc[|arc| - 1])
  }

  /** `ends(i)`: the first position of arc ~i or i, and its last one or, with a transform, the
      sum of its deltas; swapped for a reversed reference. An arc that is not there or empty is
      Python's IndexError. */
  function EndsOf(topology: Topo, i: int): Result<(Pos, Pos)>
  {
    var idx := ArcIndex(i);
    if idx >= |topology.arcs| || topology.arcs[idx] == [] then Fail(IndexError)
    else
      var arc := topology.arcs[idx];
      var p1 := if topology.transform.Some? then Total(arc) else arc[|arc| - 1];
      Ok(if i < 0 then (p1, arc[0]) else (arc[0], p1))
  }

  /** A reversed reference has the same ends, swapped. */
  lemma EndsSwap(topology: Topo, i: int)
    ensures EndsOf(topology, Complement(i)).Ok? <==> EndsOf(topology, i).Ok?
    ensures EndsOf(topology, i).Ok? ==>
              EndsOf(topology, Complement(i)).value == (EndsOf(topology, i).value.1, EndsOf(topology, i).value.0)
    ensures EndsOf(topology, i).Fail? ==> EndsOf(topology, Complement(i)) == EndsOf(topology, i)
  {
    ArcIndexComplement(i);
  }

  /** Without a transform the ends of a forward reference are the arc's first and last
      positions. */
  lemma EndsPlain(topology: Topo, i: nat)
    requires topology.transform.None? && i < |topology.arcs| && topology.arcs[i] != []
    ensures EndsOf(topology, i) == Ok((topology.arcs[i][0], topology.arcs[i][|topology.arcs[i]| - 1]))
  {
  }

  /** With a transform the ends are the grid points of the decoded arc's ends: its first position
      and the sum of all its deltas, which the transform maps to the arc's first and last
      decoded positions. */
  lemma EndsEncoded(topology: Topo, i: nat)
    requires topology.transform.Some? && i < |topology.arcs| && topology.arcs[i] != []
    ensures var arc := topology.arcs[i];
            var dec := DecodeArc(topology.transform, arc);
            var t := topology.transform.value;
            && EndsOf(topology, i) == Ok((arc[0], Total(arc)))
            && Scaled(t, arc[0]) == dec[0] && Scaled(t, Total(arc)) == dec[|arc| - 1]
  {
    var arc := topology.arcs[i];
    TotalSums(arc);
    PrefixSumsStep(arc, 0);
  }

  lemma {:induction false} TotalSums(arc: seq<Pos>)
    requires arc != []
    ensures Total(arc) == Delta.PrefixSums(arc)[|arc| - 1]
  {
    var n := |arc| - 1;
    PrefixSumsStep(arc, n);
    if n > 0 {
      TotalSums(arc[..n]);
      PrefixSumsPrefix(arc, n);
      assert Delta.PrefixSums(arc)[n - 1] == Delta.PrefixSums(arc)[..n][n - 1];
    } else {
      assert Total(arc) == Add(Origin, arc[0]);
    }
  }

  // ---------------------------------------------------------------- the pre-pass

  /** Python's position for list index j: negative indexes count from the end. */
  function PyIndex(n: nat, j: int): (r: Option<nat>)
    ensures r.Some? ==> r.value < n && (r.value == j || r.value == n + j)
    ensures r.None? <==> j >= n || j < -(n as int)
  {
    if 0 <= j < n then Some(j) else if -(n as int) <= j < 0 then Some(n + j) else None
  }

  /** One pair (i, j) of the pre-pass: when arc ~i or i has two positions and its second is
      [0, 0], i is written at the next empty slot and what was there at list position j, the
      reference j taken as a position. A one-position arc has no second position: IndexError. */
  function EmptyStep(topology: Topo, arcs: seq<int>, empty: int, i: int, j: int): Result<(seq<int>, int)>
  {
    var idx := ArcIndex(i);
    if idx >= |topology.arcs| then Fail(IndexError)
    else
      var arc := topology.arcs[idx];
      if |arc| >= 3 then Ok((arcs, empty))
      else if |arc| < 2 then Fail(IndexError)
      else if arc[1].x != 0.0 || arc[1].y != 0.0 then Ok((arcs, empty))
      else
        var e := empty + 1;
        match PyIndex(|arcs|, e)
        case None => Fail(IndexError)
        case Some(pe) =>
          var moved := arcs[pe];
          var arcs1 := arcs[pe := i];
          match PyIndex(|arcs1|, j)
          case None => Fail(IndexError)
          case Some(pj) => Ok((arcs1[pj := moved], e))
  }

  /** The first n pairs (arcs[0], arcs[1]), (arcs[2], arcs[3]), … of the list as it was. */
  function EmptyPass(topology: Topo, arcs: seq<int>, n: nat): (r: Result<(seq<int>, int)>)
    requires 2 * n <= |arcs|
    ensures r.Ok? ==> |r.value.0| == |arcs|
  {
    if n == 0 then Ok((arcs, -1))
    else
      var s :- EmptyPass(topology, arcs, n - 1);
      EmptyStep(topology, s.0, s.1, arcs[2 * n - 2], arcs[2 * n - 1])
  }

  /** An arc the pre-pass moves: two positions, the second [0, 0]. */
  predicate Degenerate(arc: seq<Pos>)
  {
    |arc| == 2 && arc[1].x == 0.0 && arc[1].y == 0.0
  }

  /** When the first references of the pairs all name arcs of at least two positions, none of
      them degenerate, the pre-pass changes nothing. */
  lemma {:induction false} EmptyPassKeeps(topology: Topo, arcs: seq<int>, n: nat)
    requires 2 * n <= |arcs|
    requires forall p :: 0 <= p < n ==> ArcIndex(arcs[2 * p]) < |topology.arcs|
    requires forall p :: 0 <= p < n ==> |topology.arcs[ArcIndex(arcs[2 * p])]| >= 2 && !Degenerate(topology.arcs[ArcIndex(arcs[2 * p])])
    ensures EmptyPass(topology, arcs, n) == Ok((arcs, -1))
  {
    if n > 0 {
      EmptyPassKeeps(topology, arcs, n - 1);
      assert ArcIndex(arcs[2 * (n - 1)]) < |topology.arcs|;
    }
  }

  // ---------------------------------------------------------------- the chaining loop

  /** A fragment dict: its references under 0, 1, …, its ends, and whether `flush` has
      already removed "start" and "end". */
  datatype Frag = Frag(refs: seq<int>, start: Pos, end: Pos, open: bool)

  /** The loop state: the two dicts, every fragment dict ever made, and the local `fg`. */
  datatype State = State(byStart: Dict, byEnd: Dict, arena: seq<Frag>, fg: Option<nat>)

  const Start: State := State([], [], [], None)

  /** Every fragment the dicts and `fg` name exists and holds a reference. */
  ghost predicate Wf(st: State)
  {
    Below(st.byStart, |st.arena|) && Below(st.byEnd, |st.arena|) &&
    (st.fg.Some? ==> st.fg.value < |st.arena|) &&
    forall k :: 0 <= k < |st.arena| ==> st.arena[k].refs != []
  }

  /** One reference of the loop. */
  function Step(topology: Topo, st: State, i: int): (r: Result<State>)
    requires Wf(st)
    ensures r.Ok? ==> Wf(r.value) && |r.value.arena| >= |st.arena|
  {
    var e :- EndsOf(topology, i);
    var start, end := e.0, e.1;
    match Get(st.byEnd, start)
    case Some(f) =>
      var byEnd := Pop(st.byEnd, st.arena[f].end);
      var frag := st.arena[f].(refs := st.arena[f].refs + [i], end := end);
      var arena := st.arena[f := frag];
      (match Get(st.byStart, end)
       case Some(g) =>
         if arena[g] == frag then Ok(State(Put(Pop(st.byStart, start), frag.start, f), Put(byEnd, end, f), arena, Some(f)))
         else Fail(TypeError)
       case None =>
         if st.fg.None? then Fail(UnboundLocal)
         else Ok(State(Put(st.byStart, frag.start, st.fg.value), Put(byEnd, end, f), arena, st.fg)))
    case None =>
      if Get(st.byStart, end).Some? then Fail(TypeError)
      else
        var n := |st.arena|;
        Ok(State(Put(st.byStart, start, n), Put(st.byEnd, end, n), st.arena + [Frag([i], start, end, true)], st.fg))
  }

  function Steps(topology: Topo, st: State, refs: seq<int>): (r: Result<State>)
    requires Wf(st)
    ensures r.Ok? ==> Wf(r.value)
  {
    if refs == [] then Ok(st)
    else
      var s :- Steps(topology, st, refs[..|refs| - 1]);
      Step(topology, s, refs[|refs| - 1])
  }

  /** A reference that touches no fragment opens one, found under both of its ends. */
  lemma StepOpens(topology: Topo, st: State, i: int)
    requires Wf(st) && EndsOf(topology, i).Ok?
    requires Get(st.byEnd, EndsOf(topology, i).value.0).None? && Get(st.byStart, EndsOf(topology, i).value.1).None?
    ensures var (start, end) := EndsOf(topology, i).value;
            var n := |st.arena|;
            && Step(topology, st, i).Ok?
            && Step(topology, st, i).value.arena == st.arena + [Frag([i], start, end, true)]
            && Get(Step(topology, st, i).value.byStart, start) == Some(n)
            && Get(Step(topology, st, i).value.byEnd, end) == Some(n)
  {
    var (start, end) := EndsOf(topology, i).value;
    PutGet(st.byStart, start, |st.arena|, start);
    PutGet(st.byEnd, end, |st.arena|, end);
  }

  /** A reference that starts at the end of fragment f and ends where f is registered as
      starting closes f: it is stored at the next integer key, f's end becomes the reference's
      end, f is found under that end, and `fg` is f. */
  lemma StepCloses(topology: Topo, st: State, i: int, f: nat)
    requires Wf(st) && EndsOf(topology, i).Ok?
    requires Get(st.byEnd, EndsOf(topology, i).value.0) == Some(f)
    requires Get(st.byStart, EndsOf(topology, i).value.1) == Some(f)
    ensures var (start, end) := EndsOf(topology, i).value;
            var old_f := st.arena[f];
            && Step(topology, st, i).Ok?
            && Step(topology, st, i).value.arena == st.arena[f := old_f.(refs := old_f.refs + [i], end := end)]
            && Get(Step(topology, st, i).value.byEnd, end) == Some(f)
            && Step(topology, st, i).value.fg == Some(f)
  {
    var (start, end) := EndsOf(topology, i).value;
    var frag := st.arena[f].(refs := st.arena[f].refs + [i], end := end);
    PutGet(Pop(st.byEnd, st.arena[f].end), end, f, end);
  }

  /** The branches that raise: an int added to a dict (a reference ending where a fragment
      starts but starting at no fragment's end), two different dicts added, and `fg` read
      before any fragment was closed. */
  lemma StepRaises(topology: Topo, st: State, i: int)
    requires Wf(st) && EndsOf(topology, i).Ok?
    ensures var (start, end) := EndsOf(topology, i).value;
            && (Get(st.byEnd, start).None? && Get(st.byStart, end).Some? ==> Step(topology, st, i) == Fail(TypeError))
            && (Get(st.byEnd, start).Some? && Get(st.byStart, end).None? && st.fg.None? ==>
                  Step(topology, st, i) == Fail(UnboundLocal))
  {
  }

  // ---------------------------------------------------------------- flush and the output

  /** What `self.fragments` holds: fragment dicts and singleton lists [i]. */
  datatype Piece = Fragment(refs: seq<int>) | Singleton(i: int)

  /** `flush` in progress: the dict it pops from, the fragments, the stitched arcs (the keys of
      `stitched_arcs`) and the emitted pieces. */
  datatype Flushed = Flushed(other: Dict, arena: seq<Frag>, stitched: set<nat>, pieces: seq<Piece>)

  /** The arcs a list of references names. */
  function ArcSet(refs: seq<int>): (r: set<nat>)
    ensures forall k :: 0 <= k < |refs| ==> ArcIndex(refs[k]) in r
    ensures forall a :: a in r ==> exists k :: 0 <= k < |refs| && ArcIndex(refs[k]) == a
  {
    set k | 0 <= k < |refs| :: ArcIndex(refs[k])
  }

  /** One fragment of `flush`: its start popped from the other dict, "start" and "end"
      removed, its arcs marked, the fragment emitted. A fragment already flushed has no
      "start": KeyError. */
  function FlushOne(fl: Flushed, f: nat): Result<Flushed>
    requires f < |fl.arena|
  {
    var frag := fl.arena[f];
    if !frag.open then Fail(KeyError)
    else Ok(Flushed(Pop(fl.other, frag.start), fl.arena[f := frag.(open := false)], fl.stitched + ArcSet(frag.refs), fl.pieces + [Fragment(frag.refs)]))
  }

  /** `flush` over the first n items of d. */
  function FlushAll(d: Dict, n: nat, fl: Flushed): (r: Result<Flushed>)
    requires n <= |d| && Below(d, |fl.arena|)
    ensures r.Ok? ==> |r.value.arena| == |fl.arena|
    ensures r.Ok? && Below(fl.other, |fl.arena|) ==> Below(r.value.other, |fl.arena|)
  {
    if n == 0 then Ok(fl)
    else
      var s :- FlushAll(d, n - 1, fl);
      assert d[n - 1] in d;
      FlushOne(s, d[n - 1].1)
  }

  /** Fragments of the references of arcs whose arc no fragment holds. */
  function Singletons(arcs: seq<int>, stitched: set<nat>): seq<Piece>
  {
    if arcs == [] then []
    else Singletons(arcs[..|arcs| - 1], stitched) + if ArcIndex(arcs[|arcs| - 1]) in stitched then [] else [Singleton(arcs[|arcs| - 1])]
  }

  /** The final conversion: a fragment becomes its first one or two references; a singleton
      list has no `get`: AttributeError. */
  function Convert(pieces: seq<Piece>): Result<seq<seq<int>>>
  {
    if pieces == [] then Ok([])
    else
      var front :- Convert(pieces[..|pieces| - 1]);
      match pieces[|pieces| - 1]
      case Singleton(_) => Fail(AttributeError)
      case Fragment(refs) => Ok(front + [if |refs| >= 2 then [refs[0], refs[1]] else refs])
  }

  /** `__call__`. */
  function StitchOf(topology: Topo, arcs: seq<int>): Result<seq<seq<int>>>
  {
    assert 2 * (|arcs| / 2) <= |arcs|;
    var pre :- EmptyPass(topology, arcs, |arcs| / 2);
    var st :- Steps(topology, Start, pre.0);
    var fl1 :- FlushAll(st.byEnd, |st.byEnd|, Flushed(st.byStart, st.arena, {}, []));
    var fl2 :- FlushAll(fl1.other, |fl1.other|, Flushed(st.byEnd, fl1.arena, fl1.stitched, fl1.pieces));
    Convert(fl2.pieces + Singletons(pre.0, fl2.stitched))
  }

  // ---------------------------------------------------------------- properties of the output

  /** `flush` emits every fragment of the dict once, in order, with its references, and marks
      every arc they name; a fragment found twice raises. */
  lemma FlushEmits(d: Dict, n: nat, fl: Flushed)
    requires n <= |d| && Below(d, |fl.arena|) && FlushAll(d, n, fl).Ok?
    ensures var r := FlushAll(d, n, fl).value;
            && |r.pieces| == |fl.pieces| + n && r.pieces[..|fl.pieces|] == fl.pieces
            && (forall k :: 0 <= k < n ==> r.pieces[|fl.pieces| + k] == Fragment(fl.arena[d[k].1].refs))
            && (forall k :: 0 <= k < n ==> ArcSet(fl.arena[d[k].1].refs) <= r.stitched)
            && fl.stitched <= r.stitched
            && (forall p, q :: 0 <= p < q < n ==> d[p].1 != d[q].1)
            && (forall k :: 0 <= k < n ==> !r.arena[d[k].1].open)
            && (forall f :: 0 <= f < |fl.arena| ==> r.arena[f].refs == fl.arena[f].refs)
  {
    var r := FlushAll(d, n, fl).value;
    FlushCloses(d, n, fl, r);
    FlushPieces(d, n, fl, r);
    var m := |fl.pieces|;
    assert r.pieces[..m] == fl.pieces;
    forall k | 0 <= k < n
      ensures r.pieces[m + k] == Fragment(fl.arena[d[k].1].refs)
      ensures ArcSet(fl.arena[d[k].1].refs) <= r.stitched
    {
      EmittedAt(fl.arena, d, n, k);
    }
  }

  /** The fragments of the dict are distinct, each is closed once flushed, and no fragment's
      references change. */
  lemma {:induction false} FlushCloses(d: Dict, n: nat, fl: Flushed, r: Flushed)
    requires n <= |d| && Below(d, |fl.arena|) && FlushAll(d, n, fl) == Ok(r)
    ensures forall p, q :: 0 <= p < q < n ==> d[p].1 != d[q].1
    ensures forall k :: 0 <= k < n ==> !r.arena[d[k].1].open
    ensures forall f :: 0 <= f < |fl.arena| ==> r.arena[f].refs == fl.arena[f].refs
  {
    if n > 0 {
      var s := FlushAll(d, n - 1, fl).value;
      FlushCloses(d, n - 1, fl, s);
      assert d[n - 1] in d;
      var f := d[n - 1].1;
      FlushOneShape(s, f, r);
      forall p | 0 <= p < n - 1
        ensures d[p].1 != f
      {
        assert !s.arena[d[p].1].open;
      }
    }
  }

  /** The pieces `flush` emits for the first n items of d, reading the fragments of arena. */
  function Emitted(arena: seq<Frag>, d: Dict, n: nat): (r: seq<Piece>)
    requires n <= |d| && Below(d, |arena|)
    ensures |r| == n
  {
    if n == 0 then []
    else
      assert d[n - 1] in d;
      Emitted(arena, d, n - 1) + [Fragment(arena[d[n - 1].1].refs)]
  }

  /** The arcs those pieces name. */
  function EmittedArcs(arena: seq<Frag>, d: Dict, n: nat): set<nat>
    requires n <= |d| && Below(d, |arena|)
  {
    if n == 0 then {}
    else
      assert d[n - 1] in d;
      EmittedArcs(arena, d, n - 1) + ArcSet(arena[d[n - 1].1].refs)
  }

  lemma {:induction false} EmittedAt(arena: seq<Frag>, d: Dict, n: nat, k: nat)
    requires n <= |d| && Below(d, |arena|) && k < n
    ensures d[k] in d && Emitted(arena, d, n)[k] == Fragment(arena[d[k].1].refs)
    ensures ArcSet(arena[d[k].1].refs) <= EmittedArcs(arena, d, n)
  {
    if k < n - 1 {
      EmittedAt(arena, d, n - 1, k);
    }
  }

  /** The fragments of the dict are emitted in order with their references, and their arcs
      marked. */
  lemma {:induction false} FlushPieces(d: Dict, n: nat, fl: Flushed, r: Flushed)
    requires n <= |d| && Below(d, |fl.arena|) && FlushAll(d, n, fl) == Ok(r)
    ensures r.pieces == fl.pieces + Emitted(fl.arena, d, n)
    ensures r.stitched == fl.stitched + EmittedArcs(fl.arena, d, n)
  {
    if n > 0 {
      var s := FlushAll(d, n - 1, fl).value;
      FlushPieces(d, n - 1, fl, s);
      FlushCloses(d, n - 1, fl, s);
      assert d[n - 1] in d;
      var f := d[n - 1].1;
      FlushOneShape(s, f, r);
      assert s.arena[f].refs == fl.arena[f].refs;
    }
  }

  /** One fragment flushed: it was open, is closed now, and is emitted with its arcs marked. */
  lemma FlushOneShape(s: Flushed, f: nat, r: Flushed)
    requires f < |s.arena| && FlushOne(s, f) == Ok(r)
    ensures s.arena[f].open && r.arena == s.arena[f := s.arena[f].(open := false)]
    ensures r.pieces == s.pieces + [Fragment(s.arena[f].refs)]
    ensures r.stitched == s.stitched + ArcSet(s.arena[f].refs)
  {
  }

  /** The singletons are exactly the references whose arc is not stitched. */
  lemma {:induction false} SingletonsIff(arcs: seq<int>, stitched: set<nat>, i: int)
    ensures Singleton(i) in Singletons(arcs, stitched) <==> i in arcs && ArcIndex(i) !in stitched
    ensures forall p :: p in Singletons(arcs, stitched) ==> p.Singleton?
  {
    if arcs != [] {
      var n := |arcs| - 1;
      SingletonsIff(arcs[..n], stitched, i);
      assert arcs == arcs[..n] + [arcs[n]];
    }
  }

  /** The conversion succeeds exactly without singletons, and then keeps at most two references
      of each fragment, in order. */
  lemma {:induction false} ConvertShape(pieces: seq<Piece>)
    ensures Convert(pieces).Ok? <==> forall k :: 0 <= k < |pieces| ==> pieces[k].Fragment?
    ensures Convert(pieces).Fail? ==> Convert(pieces).error == AttributeError
    ensures Convert(pieces).Ok? ==>
              |Convert(pieces).value| == |pieces| &&
              forall k :: 0 <= k < |pieces| ==>
                var refs := pieces[k].refs;
                Convert(pieces).value[k] == if |refs| >= 2 then refs[..2] else refs
  {
    if pieces != [] {
      var n := |pieces| - 1;
      ConvertShape(pieces[..n]);
      assert forall k :: 0 <= k < n ==> pieces[..n][k] == pieces[k];
      if Convert(pieces).Ok? {
        var refs := pieces[n].refs;
        if |refs| >= 2 {
          assert refs[..2] == [refs[0], refs[1]];
        }
      }
    }
  }

  /** The intermediate values of `__call__`: the list after the pre-pass, the loop state and
      the two flushes. */
  datatype Stages = Stages(list: seq<int>, st: State, fl1: Flushed, fl2: Flushed)

  function StagesOf(topology: Topo, arcs: seq<int>): (r: Result<Stages>)
    ensures r.Ok? ==> Wf(r.value.st)
  {
    assert 2 * (|arcs| / 2) <= |arcs|;
    var pre :- EmptyPass(topology, arcs, |arcs| / 2);
    var st :- Steps(topology, Start, pre.0);
    var fl1 :- FlushAll(st.byEnd, |st.byEnd|, Flushed(st.byStart, st.arena, {}, []));
    var fl2 :- FlushAll(fl1.other, |fl1.other|, Flushed(st.byEnd, fl1.arena, fl1.stitched, fl1.pieces));
    Ok(Stages(pre.0, st, fl1, fl2))
  }

  lemma StitchStages(topology: Topo, arcs: seq<int>)
    ensures StitchOf(topology, arcs).Ok? ==> StagesOf(topology, arcs).Ok?
    ensures StagesOf(topology, arcs).Ok? ==>
              var s := StagesOf(topology, arcs).value;
              StitchOf(topology, arcs) == Convert(s.fl2.pieces + Singletons(s.list, s.fl2.stitched))
  {
  }

  /** A conversion that succeeds met no singleton: every reference of the list names a
      stitched arc. */
  lemma SingletonFree(pieces: seq<Piece>, list: seq<int>, stitched: set<nat>)
    requires Convert(pieces + Singletons(list, stitched)).Ok?
    ensures Singletons(list, stitched) == []
    ensures forall i :: i in list ==> ArcIndex(i) in stitched
  {
    var sg := Singletons(list, stitched);
    var all := pieces + sg;
    ConvertShape(all);
    assert forall p :: p in all ==> p.Fragment?;
    forall i | i in list
      ensures ArcIndex(i) in stitched
    {
      SingletonsIff(list, stitched, i);
      assert Singleton(i) in sg ==> Singleton(i) in all;
    }
    SingletonsNone(list, stitched);
  }

  lemma {:induction false} SingletonsNone(list: seq<int>, stitched: set<nat>)
    requires forall i :: i in list ==> ArcIndex(i) in stitched
    ensures Singletons(list, stitched) == []
  {
    if list != [] {
      var n := |list| - 1;
      assert forall i :: i in list[..n] ==> i in list;
      SingletonsNone(list[..n], stitched);
      assert list[n] in list;
    }
  }

  /** A stitch that succeeds held every arc of the list in some fragment: an arc left over
      would be emitted as [i], and the conversion raises on it. */
  lemma EveryArcStitched(topology: Topo, arcs: seq<int>)
    requires StitchOf(topology, arcs).Ok?
    ensures StagesOf(topology, arcs).Ok?
    ensures var s := StagesOf(topology, arcs).value;
            forall i :: i in s.list ==> ArcIndex(i) in s.fl2.stitched
  {
    StitchStages(topology, arcs);
    var s := StagesOf(topology, arcs).value;
    SingletonFree(s.fl2.pieces, s.list, s.fl2.stitched);
  }

  /** Emitted fragments that hold a reference each. */
  ghost predicate Held(pieces: seq<Piece>)
  {
    forall k :: 0 <= k < |pieces| ==> pieces[k].Fragment? && pieces[k].refs != []
  }

  ghost predicate Filled(arena: seq<Frag>)
  {
    forall k :: 0 <= k < |arena| ==> arena[k].refs != []
  }

  lemma {:induction false} FlushHeld(d: Dict, n: nat, fl: Flushed)
    requires n <= |d| && Below(d, |fl.arena|) && FlushAll(d, n, fl).Ok?
    requires Held(fl.pieces) && Filled(fl.arena)
    ensures Held(FlushAll(d, n, fl).value.pieces) && Filled(FlushAll(d, n, fl).value.arena)
  {
    if n > 0 {
      FlushHeld(d, n - 1, fl);
      assert d[n - 1] in d;
    }
  }

  /** Every fragment of a successful stitch is one or two references long. */
  lemma AtMostTwo(topology: Topo, arcs: seq<int>)
    requires StitchOf(topology, arcs).Ok?
    ensures forall k :: 0 <= k < |StitchOf(topology, arcs).value| ==> 1 <= |StitchOf(topology, arcs).value[k]| <= 2
  {
    StitchStages(topology, arcs);
    var s := StagesOf(topology, arcs).value;
    FlushHeld(s.st.byEnd, |s.st.byEnd|, Flushed(s.st.byStart, s.st.arena, {}, []));
    FlushHeld(s.fl1.other, |s.fl1.other|, Flushed(s.st.byEnd, s.fl1.arena, s.fl1.stitched, s.fl1.pieces));
    SingletonFree(s.fl2.pieces, s.list, s.fl2.stitched);
    assert s.fl2.pieces + [] == s.fl2.pieces;
    ConvertShape(s.fl2.pieces);
  }

  // ---------------------------------------------------------------- the object

  class Stitcher {
    var stitchedArcs: set<nat>
    var fragmentByStart: Dict
    var fragmentByEnd: Dict
    /** Every fragment dict made during the call, named by the dicts above. */
    var arena: seq<Frag>
    var fragments: seq<Piece>
    var emptyIndex: int
    var topology: Topo

    constructor ()
      ensures stitchedArcs == {} && fragmentByStart == [] && fragmentByEnd == [] && arena == [] && fragments == []
    {
      stitchedArcs, fragmentByStart, fragmentByEnd, arena, fragments := {}, [], [], [], [];
      emptyIndex := -1;
      topology := Topo(Missing, None, [], []);
    }

    ghost function Current(fg: Option<nat>): State
      reads this
    {
      State(fragmentByStart, fragmentByEnd, arena, fg)
    }

    /** `ends(i)`: the deltas added up one position at a time when there is a transform. */
    method Ends(i: int) returns (r: Result<(Pos, Pos)>)
      ensures r == EndsOf(topology, i)
    {
      var idx := ArcIndex(i);
      if idx >= |topology.arcs| {
        return Fail(IndexError);
      }
      var arc := topology.arcs[idx];
      if arc == [] {
        return Fail(IndexError);
      }
      var p0 := arc[0];
      var p1: Pos;
      if topology.transform.Some? {
        p1 := Origin;
        for k := 0 to |arc|
          invariant p1 == Total(arc[..k])
        {
          p1 := Pos(p1.x + arc[k].x, p1.y + arc[k].y);
          assert arc[..k + 1][..k] == arc[..k];
        }
        assert arc[..|arc|] == arc;
      } else {
        p1 := arc[|arc| - 1];
      }
      return Ok(if i < 0 then (p1, p0) else (p0, p1));
    }

    /** One pass of the chaining loop; `fg` is the caller's local. */
    method Chain(i: int, fg: Option<nat>) returns (r: Result<Option<nat>>)
      requires Wf(Current(fg))
      modifies this`fragmentByStart, this`fragmentByEnd, this`arena
      ensures Step(topology, old(Current(fg)), i) == if r.Ok? then Ok(Current(r.value)) else Fail(r.error)
    {
      var e := Ends(i);
      if e.Fail? {
        return Fail(e.error);
      }
      var start, end := e.value.0, e.value.1;
      var f := Get(fragmentByEnd, start);
      if f.Some? {
        assert (start, f.value) in fragmentByEnd;
        fragmentByEnd := Pop(fragmentByEnd, arena[f.value].end);
        arena := arena[f.value := arena[f.value].(refs := arena[f.value].refs + [i], end := end)];
        var g := Get(fragmentByStart, end);
        if g.Some? {
          assert (end, g.value) in fragmentByStart;
          fragmentByStart := Pop(fragmentByStart, start);
          if arena[g.value] != arena[f.value] {
            return Fail(TypeError);
          }
          fragmentByStart := Put(fragmentByStart, arena[f.value].start, f.value);
          fragmentByEnd := Put(fragmentByEnd, arena[g.value].end, f.value);
          return Ok(f);
        }
        if fg.None? {
          return Fail(UnboundLocal);
        }
        fragmentByStart := Put(fragmentByStart, arena[f.value].start, fg.value);
        fragmentByEnd := Put(fragmentByEnd, arena[f.value].end, f.value);
        return Ok(fg);
      }
      var g := Get(fragmentByStart, end);
      if g.Some? {
        return Fail(TypeError);
      }
      var n := |arena|;
      arena := arena + [Frag([i], start, end, true)];
      fragmentByStart := Put(fragmentByStart, start, n);
      fragmentByEnd := Put(fragmentByEnd, end, n);
      return Ok(fg);
    }

    /** The inner loop of `flush`: every arc a fragment names is added to `stitched_arcs`. */
    method Mark(refs: seq<int>)
      modifies this`stitchedArcs
      ensures stitchedArcs == old(stitchedArcs) + ArcSet(refs)
    {
      ghost var before := stitchedArcs;
      for m := 0 to |refs|
        invariant stitchedArcs == before + ArcSet(refs[..m])
      {
        var idx := ArcIndex(refs[m]);
        stitchedArcs := stitchedArcs + {idx};
        assert ArcSet(refs[..m + 1]) == ArcSet(refs[..m]) + {idx} by {
          assert forall q :: 0 <= q < m ==> refs[..m + 1][q] == refs[..m][q];
          assert refs[..m + 1][m] == refs[m];
        }
      }
      assert refs[..|refs|] == refs;
    }

    /** `flush(items, other)`: the dict popped from is handed back, as both dicts are fields. */
    method Flush(items: Dict, other: Dict) returns (r: Result<Dict>)
      requires Below(items, |arena|)
      modifies this`arena, this`stitchedArcs, this`fragments
      ensures FlushAll(items, |items|, Flushed(other, old(arena), old(stitchedArcs), old(fragments))) ==
              if r.Ok? then Ok(Flushed(r.value, arena, stitchedArcs, fragments)) else Fail(r.error)
    {
      var rest := other;
      ghost var start := Flushed(other, arena, stitchedArcs, fragments);
      for k := 0 to |items|
        invariant |arena| == |start.arena|
        invariant FlushAll(items, k, start) == Ok(Flushed(rest, arena, stitchedArcs, fragments))
      {
        var f := items[k].1;
        assert items[k] in items;
        if !arena[f].open {
          FlushFails(items, k, start);
          return Fail(KeyError);
        }
        rest := Pop(rest, arena[f].start);
        var refs := arena[f].refs;
        arena := arena[f := arena[f].(open := false)];
        Mark(refs);
        fragments := fragments + [Fragment(refs)];
      }
      return Ok(rest);
    }

    /** The chaining loop of `__call__`, from empty dicts; `fg` is handed back. */
    method ChainAll(list: seq<int>) returns (r: Result<Option<nat>>)
      requires fragmentByStart == [] && fragmentByEnd == [] && arena == []
      modifies this`fragmentByStart, this`fragmentByEnd, this`arena
      ensures Steps(topology, Start, list) == if r.Ok? then Ok(Current(r.value)) else Fail(r.error)
    {
      var fg: Option<nat> := None;
      for k := 0 to |list|
        invariant Wf(Current(fg)) && Steps(topology, Start, list[..k]) == Ok(Current(fg))
      {
        var next := Chain(list[k], fg);
        assert list[..k + 1][..k] == list[..k];
        if next.Fail? {
          StepsFails(topology, list, k + 1);
          return Fail(next.error);
        }
        fg := next.value;
      }
      assert list[..|list|] == list;
      return Ok(fg);
    }

    /** The references whose arc no fragment holds, each appended as the list [i]. */
    method AddSingletons(list: seq<int>)
      modifies this`fragments
      ensures fragments == old(fragments) + Singletons(list, stitchedArcs)
    {
      ghost var pieces := fragments;
      for k := 0 to |list|
        invariant fragments == pieces + Singletons(list[..k], stitchedArcs)
      {
        if ArcIndex(list[k]) !in stitchedArcs {
          fragments := fragments + [Singleton(list[k])];
        }
        assert list[..k + 1][..k] == list[..k];
      }
      assert list[..|list|] == list;
    }

    /** The final conversion of `self.fragments`. */
    method Converted() returns (r: Result<seq<seq<int>>>)
      ensures r == Convert(fragments)
    {
      var out: seq<seq<int>> := [];
      for k := 0 to |fragments|
        invariant Convert(fragments[..k]) == Ok(out)
      {
        assert fragments[..k + 1][..k] == fragments[..k];
        match fragments[k]
        case Singleton(_) =>
          ConvertFails(fragments, k);
          return Fail(AttributeError);
        case Fragment(refs) =>
          out := out + [if |refs| >= 2 then [refs[0], refs[1]] else refs];
      }
      assert fragments[..|fragments|] == fragments;
      return Ok(out);
    }

    /** `__call__`. */
    method Call(topology: Topo, arcs: seq<int>) returns (r: Result<seq<seq<int>>>)
      modifies this
      ensures r == StitchOf(topology, arcs)
    {
      stitchedArcs, fragmentByStart, fragmentByEnd, arena, fragments := {}, [], [], [], [];
      emptyIndex := -1;
      this.topology := topology;
      var pre := EmptyPrepass(topology, arcs);
      if pre.Fail? {
        return Fail(pre.error);
      }
      var list := pre.value.0;
      emptyIndex := pre.value.1;
      var fg := ChainAll(list);
      if fg.Fail? {
        return Fail(fg.error);
      }
      ghost var st := Current(fg.value);
      assert Wf(st);
      var byStart := Flush(fragmentByEnd, fragmentByStart);
      if byStart.Fail? {
        return Fail(byStart.error);
      }
      fragmentByStart := byStart.value;
      assert Below(fragmentByStart, |arena|);
      var byEnd := Flush(fragmentByStart, fragmentByEnd);
      if byEnd.Fail? {
        return Fail(byEnd.error);
      }
      fragmentByEnd := byEnd.value;
      AddSingletons(list);
      r := Converted();
    }
  }

  /** One pair of the pre-pass. */
  method EmptyOne(topology: Topo, list: seq<int>, empty: int, i: int, j: int) returns (r: Result<(seq<int>, int)>)
    ensures r == EmptyStep(topology, list, empty, i, j)
  {
    var idx := ArcIndex(i);
    if idx >= |topology.arcs| {
      return Fail(IndexError);
    }
    var arc := topology.arcs[idx];
    if |arc| >= 3 {
      return Ok((list, empty));
    }
    if |arc| < 2 {
      return Fail(IndexError);
    }
    if arc[1].x != 0.0 || arc[1].y != 0.0 {
      return Ok((list, empty));
    }
    var e := empty + 1;
    var pe := PyIndex(|list|, e);
    if pe.None? {
      return Fail(IndexError);
    }
    var moved := list[pe.value];
    var list1 := list[pe.value := i];
    var pj := PyIndex(|list1|, j);
    if pj.None? {
      return Fail(IndexError);
    }
    return Ok((list1[pj.value := moved], e));
  }

  /** The pre-pass, over the pairs of the list as it was before any swap. */
  method EmptyPrepass(topology: Topo, arcs: seq<int>) returns (r: Result<(seq<int>, int)>)
    ensures r == EmptyPass(topology, arcs, |arcs| / 2)
  {
    var list := arcs;
    var empty := -1;
    assert 2 * (|arcs| / 2) <= |arcs|;
    for p := 0 to |arcs| / 2
      invariant EmptyPass(topology, arcs, p) == Ok((list, empty))
    {
      var next := EmptyOne(topology, list, empty, arcs[2 * p], arcs[2 * p + 1]);
      if next.Fail? {
        EmptyPassFails(topology, arcs, |arcs| / 2, p + 1);
        return Fail(next.error);
      }
      list, empty := next.value.0, next.value.1;
    }
    return Ok((list, empty));
  }

  lemma {:induction false} EmptyPassFails(topology: Topo, arcs: seq<int>, n: nat, k: nat)
    requires k <= n && 2 * n <= |arcs| && EmptyPass(topology, arcs, k).Fail?
    ensures EmptyPass(topology, arcs, n) == EmptyPass(topology, arcs, k)
    decreases n
  {
    if k < n {
      EmptyPassFails(topology, arcs, n - 1, k);
    }
  }

  /** Once a prefix of the references fails, the whole loop fails the same way. */
  lemma {:induction false} StepsFails(topology: Topo, refs: seq<int>, k: nat)
    requires k <= |refs| && Steps(topology, Start, refs[..k]).Fail?
    ensures Steps(topology, Start, refs) == Steps(topology, Start, refs[..k])
    decreases |refs| - k
  {
    if k < |refs| {
      assert refs[..k + 1][..k] == refs[..k];
      StepsFails(topology, refs, k + 1);
    } else {
      assert refs[..k] == refs;
    }
  }

  lemma {:induction false} FlushFails(d: Dict, k: nat, fl: Flushed)
    requires k < |d| && Below(d, |fl.arena|) && FlushAll(d, k, fl).Ok?
    requires (assert d[k] in d; FlushOne(FlushAll(d, k, fl).value, d[k].1).Fail?)
    ensures FlushAll(d, |d|, fl).Fail? && FlushAll(d, |d|, fl).error == KeyError
    decreases |d| - k
  {
    FlushFailsFrom(d, k + 1, |d|, fl);
  }

  lemma {:induction false} FlushFailsFrom(d: Dict, k: nat, n: nat, fl: Flushed)
    requires 0 < k <= n <= |d| && Below(d, |fl.arena|) && FlushAll(d, k, fl).Fail? && FlushAll(d, k, fl).error == KeyError
    ensures FlushAll(d, n, fl).Fail? && FlushAll(d, n, fl).error == KeyError
    decreases n
  {
    if k < n {
      FlushFailsFrom(d, k, n - 1, fl);
    }
  }

  lemma {:induction false} ConvertFails(pieces: seq<Piece>, k: nat)
    requires k < |pieces| && pieces[k].Singleton? && Convert(pieces[..k]).Ok?
    ensures Convert(pieces) == Fail(AttributeError)
  {
    ConvertShape(pieces);
  }
}
