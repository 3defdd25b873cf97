/** delta.py: every arc of a quantized topology is rewritten in place as its first position
    followed by the differences between consecutive distinct positions. */
module Delta {
  import opened Base
  import opened Geo
  import opened Runs

  /** The first position, then each position minus the one before it. */
  function Deltas(k: seq<Pos>): (d: seq<Pos>)
    ensures |d| == |k|
  {
    seq(|k|, i requires 0 <= i < |k| => if i == 0 then k[0] else Sub(k[i], k[i - 1]))
  }

  /** What the loop of `__call__` makes of one arc: the deltas of the arc with its runs of
      equal positions collapsed, and [0, 0] after the first position when everything collapsed
      into it. Reading arc[0] of an empty arc, or writing arc[1] of a one-position arc, is
      Python's IndexError. */
  function DeltaArc(ps: seq<Pos>): Result<seq<Pos>>
  {
    if ps == [] then Fail(IndexError)
    else
      var kept := Compress(ps);
      if |kept| > 1 then Ok(Deltas(kept))
      else if |ps| < 2 then Fail(IndexError)
      else Ok([ps[0], Origin])
  }

  /** The running sums of a list of positions: the decoding that `transform` applies. */
  function PrefixSums(s: seq<Pos>): (r: seq<Pos>)
    ensures |r| == |s|
  {
    if s == [] then []
    else
      var r := PrefixSums(s[..|s| - 1]);
      r + [if r == [] then s[|s| - 1] else Add(r[|r| - 1], s[|s| - 1])]
  }

  // ---------------------------------------------------------------- what an encoded arc is

  lemma DeltasPrefix(k: seq<Pos>, n: nat)
    requires n <= |k|
    ensures Deltas(k)[..n] == Deltas(k[..n])
  {
  }

  /** Summing the deltas of a list gives the list back. */
  lemma {:induction false} SumsOfDeltas(k: seq<Pos>)
    ensures PrefixSums(Deltas(k)) == k
    decreases |k|
  {
    if k != [] {
      var n := |k| - 1;
      DeltasPrefix(k, n);
      SumsOfDeltas(k[..n]);
      assert Deltas(k)[..n] == Deltas(k[..n]);
      assert k == k[..n] + [k[n]];
    }
  }

  /** An arc is encoded exactly when it has at least two positions; the encoding starts with
      the arc's first position, has at least two and at most as many positions as the arc, and
      after the first no zero delta unless it is the single [0, 0] of an arc whose positions
      all coincide. */
  lemma DeltaArcShape(ps: seq<Pos>)
    ensures DeltaArc(ps).Ok? <==> |ps| >= 2
    ensures DeltaArc(ps).Ok? ==>
              var out := DeltaArc(ps).value;
              && out[0] == ps[0] && 2 <= |out| <= |ps|
              && (|Compress(ps)| == 1 ==> out == [ps[0], Origin])
              && (|Compress(ps)| > 1 ==> forall i :: 1 <= i < |out| ==> out[i] != Origin)
  {
    if ps != [] {
      CompressRuns(ps);
      var kept := Compress(ps);
      if |kept| > 1 {
        forall i | 1 <= i < |kept| ensures Deltas(kept)[i] != Origin {
          assert kept[i - 1] != kept[i];
        }
      }
    }
  }

  /** Decoding an encoded arc gives the arc with its runs collapsed, padded with its first
      position to two positions. */
  lemma DeltaRoundTrip(ps: seq<Pos>)
    requires DeltaArc(ps).Ok?
    ensures PrefixSums(DeltaArc(ps).value) == Pad(Compress(ps), 2)
  {
    CompressRuns(ps);
    var kept := Compress(ps);
    if |kept| > 1 {
      SumsOfDeltas(kept);
    } else {
      assert [ps[0], Origin][..1] == [ps[0]];
      assert PrefixSums([ps[0]]) == [ps[0]];
    }
  }

  // ---------------------------------------------------------------- the loops

  /** One more kept position adds one delta and leaves the others. */
  lemma DeltasSnoc(b: seq<Pos>, p: Pos)
    requires b != []
    ensures Deltas(b + [p]) == Deltas(b) + [Sub(p, b[|b| - 1])]
  {
  }

  /** The inner loop of `__call__` on one arc, which it overwrites from the front: how many
      positions remain once runs are collapsed, and their deltas in front. */
  method EncodeRuns(arc: array<Pos>) returns (k: nat)
    requires arc.Length >= 1
    modifies arc
    ensures k == |Compress(old(arc[..]))| && arc[..k] == Deltas(Compress(old(arc[..])))
  {
    ghost var ps := arc[..];
    var m := arc.Length;
    var j := 1;
    k := 1;
    var p0 := arc[0];
    ghost var kept := [p0];
    assert ps[..1] == [ps[0]];
    while j < m
      invariant 1 <= k <= j <= m
      invariant kept == Compress(ps[..j]) && |kept| == k && p0 == kept[k - 1]
      invariant forall t :: 0 <= t < k ==> arc[t] == Deltas(kept)[t]
      invariant forall t :: j <= t < m ==> arc[t] == ps[t]
    {
      var p1 := arc[j];
      CompressSnoc(ps, j);
      if p0 != p1 {
        DeltasSnoc(kept, p1);
        arc[k] := Sub(p1, p0);
        kept := kept + [p1];
        p0 := p1;
        k := k + 1;
      }
      j := j + 1;
    }
    assert ps[..m] == ps;
    assert arc[..k] == Deltas(kept);
  }

  /** The inner loop and the padding of `__call__` on one arc: the length of the part to
      keep. */
  method EncodeArc(arc: array<Pos>) returns (r: Result<nat>)
    modifies arc
    ensures match DeltaArc(old(arc[..]))
            case Ok(out) => r == Ok(|out|) && |out| <= arc.Length && arc[..|out|] == out
            case Fail(e) => r == Fail(e)
  {
    ghost var ps := arc[..];
    if arc.Length == 0 {
      return Fail(IndexError);
    }
    var k := EncodeRuns(arc);
    if k == 1 {
      if arc.Length < 2 {
        return Fail(IndexError);
      }
      CompressRuns(ps);
      arc[k] := Origin;
      k := k + 1;
      assert arc[..k] == [ps[0], Origin];
    }
    return Ok(k);
  }

  /** `__call__`: every arc of the list replaced by its encoding; the same list is returned. */
  method Call(arcs: array<seq<Pos>>) returns (r: Result<array<seq<Pos>>>)
    modifies arcs
    ensures match MapAll(old(arcs[..]), DeltaArc)
            case Ok(out) => r == Ok(arcs) && arcs[..] == out
            case Fail(e) => r == Fail(e)
  {
    ghost var xs := arcs[..];
    var i, n := 0, arcs.Length;
    while i < n
      invariant 0 <= i <= n
      invariant forall t :: 0 <= t < i ==> DeltaArc(xs[t]).Ok? && arcs[t] == DeltaArc(xs[t]).value
      invariant forall t :: i <= t < n ==> arcs[t] == xs[t]
    {
      var arc := new Pos[|arcs[i]|](t requires 0 <= t < |arcs[i]| reads arcs => arcs[i][t]);
      assert arc[..] == xs[i];
      var k := EncodeArc(arc);
      if k.Fail? {
        MapAllFirstFailure(xs, DeltaArc, i);
        return Fail(k.error);
      }
      arcs[i] := arc[..k.value];
      i := i + 1;
    }
    return Ok(arcs);
  }
}
