/** geometry.py: the input normaliser. GeoJSON Features and FeatureCollections become plain
    geometry objects, and the coordinates of every type other than Point and MultiPoint move
    to "arcs", where the later stages work on them. */
module Geometry {
  import opened Base
  import opened Geo

  /** A GeoJSON geometry object, as far as the normaliser looks at it. Its "id" and
      "properties", if any, are not read and do not survive. */
  datatype GeometryIn = GeometryIn(shape: Shape, bbox: Option<Json>)

  datatype Shape =
    | PointIn(coordinates: Pos)
    | MultiPointIn(points: seq<Pos>)
    | LineStringIn(line: seq<Pos>)
    | MultiLineStringIn(lines: seq<seq<Pos>>)
    | PolygonIn(rings: seq<seq<Pos>>)
    | MultiPolygonIn(polygons: seq<seq<seq<Pos>>>)
    | CollectionIn(geometries: seq<Option<GeometryIn>>)      // None is a null member
    | OtherIn(typ: string, payload: Option<Json>)             // None: no "coordinates" member

  /** A GeoJSON Feature; `geometry` None is a null geometry. An absent member and a null one
      are both None. */
  datatype FeatureIn = FeatureIn(geometry: Option<GeometryIn>, id: Option<Json>, bbox: Option<Json>, properties: Option<Json>)

  /** A top-level input object. */
  datatype InputObject =
    | NullObject
    | FeatureCollectionObject(features: seq<FeatureIn>, fcBbox: Option<Json>)
    | FeatureObject(feature: FeatureIn)
    | GeometryObject(geometry: GeometryIn)

  /** A member that is copied only when present and not null. */
  function NotNull(j: Option<Json>): (r: Option<Json>)
    ensures r.Some? <==> j.Some? && j.value != JNull
    ensures r.Some? ==> r == j
  {
    if j.Some? && j.value != JNull then j else None
  }

  /** A member that is copied only when truthy. */
  function IfTruthy(j: Option<Json>): (r: Option<Json>)
    ensures r.Some? <==> j.Some? && Truthy(j.value)
    ensures r.Some? ==> r == j
  {
    if j.Some? && Truthy(j.value) then j else None
  }

  /** `geomify_geometry`. An unknown type without "coordinates" is Python's KeyError. */
  function GeomifyGeometry(g: Option<GeometryIn>): Result<Geom<seq<Pos>>>
    decreases g
  {
    if g.None? then Ok(Bare(NullType))
    else
      var kind :- GeomifyShape(g.value.shape);
      Ok(Geom(kind, None, NotNull(g.value.bbox), None))
  }

  function GeomifyShape(s: Shape): Result<Kind<seq<Pos>>>
    decreases s
  {
    match s
    case PointIn(p) => Ok(Point(p))
    case MultiPointIn(ps) => Ok(MultiPoint(ps))
    case LineStringIn(l) => Ok(LineString(l))
    case MultiLineStringIn(ls) => Ok(MultiLineString(ls))
    case PolygonIn(rs) => Ok(Polygon(rs))
    case MultiPolygonIn(ps) => Ok(MultiPolygon(ps))
    case CollectionIn(gs) =>
      var out :- GeomifyAll(gs);
      Ok(GeometryCollection(out))
    case OtherIn(t, c) => if c.Some? then Ok(Other(t, c.value)) else Fail(KeyError)
  }

  /** `list(map(geomify_geometry, ...))`: the first failure wins. */
  function GeomifyAll(gs: seq<Option<GeometryIn>>): (r: Result<seq<Geom<seq<Pos>>>>)
    ensures r.Ok? ==> |r.value| == |gs|
    decreases gs
  {
    if gs == [] then Ok([])
    else
      var first :- GeomifyGeometry(gs[0]);
      var rest :- GeomifyAll(gs[1..]);
      Ok([first] + rest)
  }

  /** `geomify_feature`: the geometry, then "id" if truthy, "bbox" if not null (overriding the
      geometry's own), "properties" if truthy. */
  function GeomifyFeature(f: FeatureIn): (r: Result<Geom<seq<Pos>>>)
    ensures r.Ok? ==> r.value.id == IfTruthy(f.id) && r.value.properties == IfTruthy(f.properties)
    ensures r.Ok? && f.bbox.Some? && f.bbox.value != JNull ==> r.value.bbox == f.bbox
    ensures r.Ok? && f.geometry.None? ==> r.value.kind == NullType
    ensures r.Ok? <==> GeomifyGeometry(f.geometry).Ok?
  {
    var g :- GeomifyGeometry(f.geometry);
    Ok(Geom(g.kind, IfTruthy(f.id), if NotNull(f.bbox).Some? then f.bbox else g.bbox, IfTruthy(f.properties)))
  }

  function GeomifyFeatures(fs: seq<FeatureIn>): (r: Result<seq<Geom<seq<Pos>>>>)
    decreases fs
  {
    if fs == [] then Ok([])
    else
      var first :- GeomifyFeature(fs[0]);
      var rest :- GeomifyFeatures(fs[1..]);
      Ok([first] + rest)
  }

  /** `geomify_feature_collection`: a GeometryCollection of the features, keeping a non-null
      "bbox". */
  function GeomifyFeatureCollection(fs: seq<FeatureIn>, bbox: Option<Json>): Result<Geom<seq<Pos>>>
  {
    var gs :- GeomifyFeatures(fs);
    Ok(Geom(GeometryCollection(gs), None, NotNull(bbox), None))
  }

  /** `geomify_object`. */
  function GeomifyObject(o: InputObject): Result<Geom<seq<Pos>>>
  {
    match o
    case NullObject => Ok(Bare(NullType))
    case FeatureCollectionObject(fs, b) => GeomifyFeatureCollection(fs, b)
    case FeatureObject(f) => GeomifyFeature(f)
    case GeometryObject(g) => GeomifyGeometry(Some(g))
  }

  /** `__call__`: the normalised objects under the input's names, in order. */
  method Geomify(inputs: seq<(string, InputObject)>) returns (r: Result<seq<Named<seq<Pos>>>>)
    ensures r.Ok? <==> forall i :: 0 <= i < |inputs| ==> GeomifyObject(inputs[i].1).Ok?
    ensures r.Ok? ==> |r.value| == |inputs|
    ensures r.Ok? ==> forall i :: 0 <= i < |inputs| ==>
                        r.value[i] == Named(inputs[i].0, GeomifyObject(inputs[i].1).value)
  {
    var output: seq<Named<seq<Pos>>> := [];
    for i := 0 to |inputs|
      invariant |output| == i
      invariant forall t :: 0 <= t < i ==> GeomifyObject(inputs[t].1).Ok?
      invariant forall t :: 0 <= t < i ==> output[t] == Named(inputs[t].0, GeomifyObject(inputs[t].1).value)
    {
      var g := GeomifyObject(inputs[i].1);
      if g.Fail? {
        return Fail(g.error);
      }
      output := output + [Named(inputs[i].0, g.value)];
    }
    return Ok(output);
  }

  // ---------------------------------------------------------------- reading a geometry back

  /** The GeoJSON geometry a normalised geometry stands for: the partner of GeomifyGeometry. */
  function Ungeomify(g: Geom<seq<Pos>>): (r: Option<GeometryIn>)
    decreases g
  {
    match g.kind
    case NullType => None
    case Point(p) => Some(GeometryIn(PointIn(p), g.bbox))
    case MultiPoint(ps) => Some(GeometryIn(MultiPointIn(ps), g.bbox))
    case LineString(l) => Some(GeometryIn(LineStringIn(l), g.bbox))
    case MultiLineString(ls) => Some(GeometryIn(MultiLineStringIn(ls), g.bbox))
    case Polygon(rs) => Some(GeometryIn(PolygonIn(rs), g.bbox))
    case MultiPolygon(ps) => Some(GeometryIn(MultiPolygonIn(ps), g.bbox))
    case GeometryCollection(gs) => Some(GeometryIn(CollectionIn(UngeomifyAll(gs)), g.bbox))
    case Other(t, c) => Some(GeometryIn(OtherIn(t, Some(c)), g.bbox))
  }

  function UngeomifyAll(gs: seq<Geom<seq<Pos>>>): (r: seq<Option<GeometryIn>>)
    ensures |r| == |gs|
    decreases gs
  {
    if gs == [] then [] else [Ungeomify(gs[0])] + UngeomifyAll(gs[1..])
  }

  /** Whether some geometry, nested at any depth, has an unknown type and no "coordinates". */
  predicate MissingCoordinates(g: Option<GeometryIn>)
    decreases g
  {
    g.Some? && match g.value.shape
      case OtherIn(_, c) => c.None?
      case CollectionIn(gs) => exists i :: 0 <= i < |gs| && MissingCoordinates(gs[i])
      case _ => false
  }

  /** A geometry without null bounding boxes. */
  predicate CleanBboxes(g: Option<GeometryIn>)
    decreases g
  {
    g.Some? ==> (g.value.bbox != Some(JNull) &&
      match g.value.shape
      case CollectionIn(gs) => forall i :: 0 <= i < |gs| ==> CleanBboxes(gs[i])
      case _ => true)
  }

  /** Normalisation fails exactly on an unknown type without coordinates, and otherwise loses
      nothing: every type and every coordinate list, nested collections included, with empty
      lists kept; reading the result back gives the input. */
  lemma {:induction false} GeomifyRoundTrip(g: Option<GeometryIn>)
    ensures GeomifyGeometry(g).Fail? <==> MissingCoordinates(g)
    ensures GeomifyGeometry(g).Ok? && CleanBboxes(g) ==> Ungeomify(GeomifyGeometry(g).value) == g
    decreases g
  {
    if g.Some? && g.value.shape.CollectionIn? {
      GeomifyAllRoundTrip(g.value.shape.geometries);
    }
  }

  lemma {:induction false} GeomifyAllRoundTrip(gs: seq<Option<GeometryIn>>)
    ensures GeomifyAll(gs).Fail? <==> exists i :: 0 <= i < |gs| && MissingCoordinates(gs[i])
    ensures GeomifyAll(gs).Ok? && (forall i :: 0 <= i < |gs| ==> CleanBboxes(gs[i])) ==>
            UngeomifyAll(GeomifyAll(gs).value) == gs
    decreases gs
  {
    if gs != [] {
      GeomifyRoundTrip(gs[0]);
      GeomifyAllRoundTrip(gs[1..]);
      assert forall i :: 1 <= i < |gs| ==> gs[i] == gs[1..][i - 1];
    }
  }

  /** A FeatureCollection becomes a collection with one geometry per feature, in order. */
  lemma {:induction false} OnePerFeature(fs: seq<FeatureIn>)
    ensures GeomifyFeatures(fs).Ok? <==> forall i :: 0 <= i < |fs| ==> GeomifyFeature(fs[i]).Ok?
    ensures GeomifyFeatures(fs).Ok? ==>
            |GeomifyFeatures(fs).value| == |fs| &&
            forall i :: 0 <= i < |fs| ==> GeomifyFeatures(fs).value[i] == GeomifyFeature(fs[i]).value
    decreases fs
  {
    if fs != [] {
      OnePerFeature(fs[1..]);
      assert forall i :: 1 <= i < |fs| ==> fs[i] == fs[1..][i - 1];
    }
  }

  /** Null members of a collection become {"type": None}, one for one. */
  lemma {:induction false} NullMembers(gs: seq<Option<GeometryIn>>)
    ensures GeomifyAll(gs).Ok? ==>
            forall i :: 0 <= i < |gs| && gs[i].None? ==> GeomifyAll(gs).value[i] == Bare(NullType)
    decreases gs
  {
    if gs != [] {
      NullMembers(gs[1..]);
      assert forall i :: 1 <= i < |gs| ==> gs[i] == gs[1..][i - 1];
    }
  }
}
