/** Values shared by every stage: optional and failing results, the error kinds the program
    raises, coordinates, the extended reals used for unbounded bounding boxes, buffer ranges,
    and a few sequence facts. */
module Base {

  datatype Option<T> = None | Some(value: T)

  /** The exceptions the program raises, by kind. The first four are raised on purpose
      (ValueError with the messages "Full HashMap", "Full hashset", "Already quantized." and
      "n must be ≥2."); the others are what Python raises when the code trips over itself. */
  datatype Error =
    | FullHashMap
    | FullHashSet
    | AlreadyQuantized
    | InvalidResolution
    | IndexError
    | KeyError
    | TypeError
    | AttributeError
    | UnboundLocal
    | ZeroDivision
    | Overflow

  datatype Result<T> = Ok(value: T) | Fail(error: Error) {
    predicate IsFailure() { Fail? }
    function PropagateFailure<U>(): Result<U> requires Fail? { Fail(error) }
    function Extract(): T requires Ok? { value }
  }

  /** A position: the first two components of a GeoJSON position. Numbers are exact reals. */
  datatype Pos = Pos(x: real, y: real)

  /** Position arithmetic used by the delta codec. */
  function Add(p: Pos, q: Pos): Pos { Pos(p.x + q.x, p.y + q.y) }
  function Sub(p: Pos, q: Pos): Pos { Pos(p.x - q.x, p.y - q.y) }
  const Origin: Pos := Pos(0.0, 0.0)

  /** A TopoJSON transform: "scale" [kx, ky] and "translate" [dx, dy]. */
  datatype Transform = Transform(kx: real, ky: real, dx: real, dy: real)

  /** A real number or one of Python's float('inf'), -float('inf'). */
  datatype Ext = NegInf | Fin(v: real) | PosInf

  predicate Lt(a: Ext, b: Ext) {
    match (a, b)
    case (NegInf, NegInf) => false
    case (NegInf, _) => true
    case (Fin(u), Fin(w)) => u < w
    case (Fin(_), PosInf) => true
    case _ => false
  }

  predicate Le(a: Ext, b: Ext) { a == b || Lt(a, b) }

  /** Python's min(x, b) and max(x, b) with a finite first argument x, which wins ties. */
  function MinE(x: real, b: Ext): (r: Ext)
    ensures Le(r, b) && Le(r, Fin(x)) && (r == b || r == Fin(x))
  {
    if Lt(b, Fin(x)) then b else Fin(x)
  }

  function MaxE(x: real, b: Ext): (r: Ext)
    ensures Le(b, r) && Le(Fin(x), r) && (r == b || r == Fin(x))
  {
    if Lt(Fin(x), b) then b else Fin(x)
  }

  /** An inclusive [start, end] pair of indexes into the shared coordinate buffer. */
  datatype Range = Range(start: int, end: int)

  /** Python's ~i, the ones' complement of an integer. */
  function Complement(i: int): int { -i - 1 }

  /** The arc a signed reference names: i itself, or ~i for a reversed reference. */
  function ArcIndex(i: int): nat { if i < 0 then Complement(i) else i }

  /** A reference and its reversal name the same arc, and every arc has exactly these two. */
  lemma ArcIndexComplement(i: int)
    ensures ArcIndex(Complement(i)) == ArcIndex(i)
    ensures Complement(Complement(i)) == i
    ensures forall j :: ArcIndex(j) == ArcIndex(i) <==> j == i || j == Complement(i)
  {
  }

  function Reversed<T>(s: seq<T>): (r: seq<T>)
    ensures |r| == |s|
  {
    if s == [] then [] else Reversed(s[1..]) + [s[0]]
  }

  lemma {:induction false} ReversedAt<T>(s: seq<T>, k: nat)
    requires k < |s|
    ensures Reversed(s)[k] == s[|s| - 1 - k]
  {
    if k < |s| - 1 {
      ReversedAt(s[1..], k);
    }
  }

  lemma {:induction false} ReversedIndex<T>(s: seq<T>)
    ensures forall k :: 0 <= k < |s| ==> Reversed(s)[k] == s[|s| - 1 - k]
  {
    forall k | 0 <= k < |s| ensures Reversed(s)[k] == s[|s| - 1 - k] {
      ReversedAt(s, k);
    }
  }

  lemma ReversedAppend<T>(a: seq<T>, b: seq<T>)
    ensures Reversed(a + b) == Reversed(b) + Reversed(a)
  {
    ReversedIndex(a + b);
    ReversedIndex(a);
    ReversedIndex(b);
  }

  lemma ReversedTwice<T>(a: seq<T>)
    ensures Reversed(Reversed(a)) == a
  {
    ReversedIndex(a);
    ReversedIndex(Reversed(a));
  }

  /** The concatenation of lists of positions, in order. */
  function Concat(ls: seq<seq<Pos>>): seq<Pos>
  {
    if ls == [] then [] else ls[0] + Concat(ls[1..])
  }

  function ConcatConcat(ps: seq<seq<seq<Pos>>>): seq<Pos>
  {
    if ps == [] then [] else Concat(ps[0]) + ConcatConcat(ps[1..])
  }

  lemma ConcatSnoc(ls: seq<seq<Pos>>, l: seq<Pos>)
    ensures Concat(ls + [l]) == Concat(ls) + l
  {
    if ls != [] {
      assert (ls + [l])[1..] == ls[1..] + [l];
    }
  }

  lemma ConcatConcatSnoc(ps: seq<seq<seq<Pos>>>, p: seq<seq<Pos>>)
    ensures ConcatConcat(ps + [p]) == ConcatConcat(ps) + Concat(p)
  {
    if ps != [] {
      assert (ps + [p])[1..] == ps[1..] + [p];
    }
  }

  /** A list after one more line or ring, and after one more polygon: the lemmas that let a
      loop over a list keep "what it has gathered is the first i of them" without reasoning
      about concatenation itself. */
  lemma PrefixStep<T>(s0: seq<T>, s1: seq<T>, s2: seq<T>, xs: seq<T>, i: nat)
    requires i < |xs| && s1 == s0 + xs[..i] && s2 == s1 + [xs[i]]
    ensures s2 == s0 + xs[..i + 1]
  {
    assert xs[..i + 1] == xs[..i] + [xs[i]];
  }

  lemma ConcatStep(c0: seq<Pos>, c1: seq<Pos>, c2: seq<Pos>, ls: seq<seq<Pos>>, i: nat)
    requires i < |ls| && c1 == c0 + Concat(ls[..i]) && c2 == c1 + ls[i]
    ensures c2 == c0 + Concat(ls[..i + 1])
  {
    assert ls[..i + 1] == ls[..i] + [ls[i]];
    ConcatSnoc(ls[..i], ls[i]);
  }

  lemma ConcatConcatStep(c0: seq<Pos>, c1: seq<Pos>, c2: seq<Pos>, ps: seq<seq<seq<Pos>>>, i: nat)
    requires i < |ps| && c1 == c0 + ConcatConcat(ps[..i]) && c2 == c1 + Concat(ps[i])
    ensures c2 == c0 + ConcatConcat(ps[..i + 1])
  {
    assert ps[..i + 1] == ps[..i] + [ps[i]];
    ConcatConcatSnoc(ps[..i], ps[i]);
  }

}
