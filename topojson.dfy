/** The TopoJSON topology that the decoding and post-processing stages read: its optional
    "bbox" and "transform", its named objects, whose lines and rings are lists of arc
    references, and its arcs. */
module TopoJson {
  import opened Base
  import opened Geo

  /** A member of a dict: missing, present with null, or present with a value. */
  datatype Field<T> = Missing | Null | Present(value: T)

  /** A bounding box [x0, y0, x1, y1]. Its sides are infinite while nothing was seen. */
  datatype Box = Box(x0: Ext, y0: Ext, x1: Ext, y1: Ext)

  /** The box of no positions. */
  const Unbounded: Box := Box(PosInf, PosInf, NegInf, NegInf)

  /** A box is either finite on every side or the box of no positions. */
  predicate Proper(b: Box)
  {
    (b.x0.Fin? && b.y0.Fin? && b.x1.Fin? && b.y1.Fin?) || b == Unbounded
  }

  function FinBox(b: (real, real, real, real)): (r: Box)
    ensures Proper(r)
  {
    Box(Fin(b.0), Fin(b.1), Fin(b.2), Fin(b.3))
  }

  datatype Topo = Topo(
    bbox: Field<(real, real, real, real)>,
    transform: Option<Transform>,
    objects: seq<Named<seq<int>>>,
    arcs: seq<seq<Pos>>)
}
