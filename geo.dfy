/** The geometry objects that flow through the build stages. A geometry's coordinate payload is a
    type parameter: positions after normalisation, buffer ranges after extraction, chain
    references after cutting, arc indexes after indexing. */
module Geo {
  import opened Base

  /** JSON values for the members the build stages copy without looking inside
      (ids, properties, bounding boxes, unknown payloads). */
  datatype Json =
    | JNull
    | JBool(b: bool)
    | JNum(n: real)
    | JStr(s: string)
    | JList(items: seq<Json>)
    | JDict(entries: seq<(string, Json)>)

  /** Python truthiness of a JSON value. */
  predicate Truthy(j: Json) {
    match j
    case JNull => false
    case JBool(b) => b
    case JNum(n) => n != 0.0
    case JStr(s) => s != ""
    case JList(items) => items != []
    case JDict(entries) => entries != []
  }

  /** The "type" of a geometry and what sits under "coordinates" or "arcs". */
  datatype Kind<A> =
    | NullType                                  // {"type": None}
    | Other(typ: string, payload: Json)          // any other type name, payload kept as is
    | Point(coordinates: Pos)
    | MultiPoint(points: seq<Pos>)
    | LineString(line: A)
    | MultiLineString(lines: seq<A>)
    | Polygon(rings: seq<A>)
    | MultiPolygon(polygons: seq<seq<A>>)
    | GeometryCollection(geometries: seq<Geom<A>>)

  /** A geometry object with its optional members. */
  datatype Geom<A> = Geom(kind: Kind<A>, id: Option<Json>, bbox: Option<Json>, properties: Option<Json>)

  /** What an extracted line or ring geometry holds: the line or ring of that number, as the
      shared list object that the topology's "lines" or "rings" also holds. */
  datatype Ref = LineRef(k: nat) | RingRef(k: nat)

  /** A named object of a topology; "objects" is an ordered list of these. */
  datatype Named<A> = Named(name: string, geom: Geom<A>)

  function Bare<A>(k: Kind<A>): Geom<A> { Geom(k, None, None, None) }

  /** `list(map(f, xs))` where f may raise: the first failure wins. */
  function MapAll<A, B>(xs: seq<A>, f: A -> Result<B>): (r: Result<seq<B>>)
    ensures r.Ok? <==> forall i :: 0 <= i < |xs| ==> f(xs[i]).Ok?
    ensures r.Ok? ==> |r.value| == |xs| && forall i :: 0 <= i < |xs| ==> r.value[i] == f(xs[i]).value
  {
    if xs == [] then Ok([])
    else
      var first :- f(xs[0]);
      var rest :- MapAll(xs[1..], f);
      assert forall i :: 1 <= i < |xs| ==> xs[i] == xs[1..][i - 1];
      Ok([first] + rest)
  }

  /** A left-to-right loop that stops at the first failure fails as MapAll does. */
  lemma {:induction false} MapAllFirstFailure<A, B>(xs: seq<A>, f: A -> Result<B>, i: nat)
    requires i < |xs| && f(xs[i]).Fail?
    requires forall t :: 0 <= t < i ==> f(xs[t]).Ok?
    ensures MapAll(xs, f) == Fail(f(xs[i]).error)
  {
    if i > 0 {
      assert forall t :: 0 <= t < i - 1 ==> xs[1..][t] == xs[t + 1];
      MapAllFirstFailure(xs[1..], f, i - 1);
    }
  }

  /** A left-to-right loop that has mapped the first n elements and fails at the next. */
  lemma {:induction false} MapAllPrefixFailure<A, B>(xs: seq<A>, f: A -> Result<B>, n: nat, ys: seq<B>)
    requires n < |xs| && MapAll(xs[..n], f) == Ok(ys) && f(xs[n]).Fail?
    ensures MapAll(xs, f) == Fail(f(xs[n]).error)
  {
    assert forall t :: 0 <= t < n ==> xs[..n][t] == xs[t];
    MapAllFirstFailure(xs, f, n);
  }

  /** A left-to-right loop that has mapped the first n elements and maps one more. */
  lemma {:induction false} MapAllSnoc<A, B>(xs: seq<A>, f: A -> Result<B>, n: nat, ys: seq<B>, y: B)
    requires n < |xs| && MapAll(xs[..n], f) == Ok(ys) && f(xs[n]) == Ok(y)
    ensures MapAll(xs[..n + 1], f) == Ok(ys + [y])
  {
    assert forall i :: 0 <= i < n ==> xs[..n][i] == xs[i] && xs[..n + 1][i] == xs[i];
    assert MapAll(xs[..n + 1], f).value == ys + [y];
  }

  /** A stage that rewrites payloads in place, seen as a function: points through `pt`, each
      line through `line`, each polygon ring through `ring`, collections recursively; null and
      unknown types untouched. */
  function MapGeom<A, B>(g: Geom<A>, pt: Pos -> Pos, line: A -> Result<B>, ring: A -> Result<B>): Result<Geom<B>>
    decreases g
  {
    var kind :- match g.kind
      case NullType => Ok(NullType)
      case Other(t, c) => Ok(Other(t, c))
      case Point(p) => Ok(Point(pt(p)))
      case MultiPoint(ps) => Ok(MultiPoint(seq(|ps|, i requires 0 <= i < |ps| => pt(ps[i]))))
      case LineString(l) => (var r :- line(l); Ok(LineString(r)))
      case MultiLineString(ls) => (var r :- MapAll(ls, line); Ok(MultiLineString(r)))
      case Polygon(rs) => (var r :- MapAll(rs, ring); Ok(Polygon(r)))
      case MultiPolygon(ps) => (var r :- MapAll(ps, (rs: seq<A>) => MapAll(rs, ring)); Ok(MultiPolygon(r)))
      case GeometryCollection(gs) => (var r :- MapGeoms(gs, pt, line, ring); Ok(GeometryCollection(r)));
    Ok(Geom(kind, g.id, g.bbox, g.properties))
  }

  function MapGeoms<A, B>(gs: seq<Geom<A>>, pt: Pos -> Pos, line: A -> Result<B>, ring: A -> Result<B>): (r: Result<seq<Geom<B>>>)
    ensures r.Ok? ==> |r.value| == |gs|
    decreases gs
  {
    if gs == [] then Ok([])
    else
      var first :- MapGeom(gs[0], pt, line, ring);
      var rest :- MapGeoms(gs[1..], pt, line, ring);
      Ok([first] + rest)
  }
}
