/**
 * GeoJSON shapes shared by the country resolvers and the ray-casting kernel:
 * points, rings, polygon geometry, country features and bounding boxes.
 */
module Geo {
  import opened Wrappers

  /** A `[longitude, latitude]` position. */
  datatype Point = Point(lon: real, lat: real)

  /** A closed linear ring; the closing edge joins the last point back to the first. */
  type Ring = seq<Point>

  /** A polygon as a list of rings: the outer boundary first, holes after it. */
  type PolygonRings = seq<Ring>

  /**
   * The `geometry` of a feature, distinguished by its `type` tag. Every tag
   * other than Polygon and MultiPolygon (Point, LineString, ...) is `Other`.
   */
  datatype Geometry =
    | Polygon(rings: PolygonRings)
    | MultiPolygon(polygons: seq<PolygonRings>)
    | Other

  datatype Properties = Properties(admin: string, isoA3: string, isoA2: string)

  datatype Feature = Feature(properties: Properties, geometry: Geometry)

  /** A loaded country: the code it was requested under and its feature. */
  datatype GeoCountry = GeoCountry(code: string, feature: Feature)

  datatype Bounds = Bounds(minLon: real, minLat: real, maxLon: real, maxLat: real)

  datatype BoundingBoxEntry = BoundingBoxEntry(code: string, bounds: Bounds)

  /**
   * A point-in-polygon test for one polygon (the geometry library's
   * `booleanPointInPolygon`), supplied by the caller.
   */
  type PointInPolygon = (Point, PolygonRings) -> bool

  /** The codes named by a list of bounding-box entries. */
  function CodesOf(entries: seq<BoundingBoxEntry>): set<string>
  {
    set i | 0 <= i < |entries| :: entries[i].code
  }

  /** The bounding-box pre-filter: both axes are inclusive. */
  predicate InBox(p: Point, b: Bounds)
  {
    && b.minLon <= p.lon <= b.maxLon
    && b.minLat <= p.lat <= b.maxLat
  }

  /** The entries whose box contains `p`, kept in list order. */
  function Candidates(boxes: seq<BoundingBoxEntry>, p: Point): (r: seq<BoundingBoxEntry>)
    ensures |r| <= |boxes|
    ensures forall e :: e in r <==> e in boxes && InBox(p, e.bounds)
  {
    if |boxes| == 0 then []
    else
      var rest := Candidates(boxes[..|boxes| - 1], p);
      var last := boxes[|boxes| - 1];
      assert boxes == boxes[..|boxes| - 1] + [last];
      if InBox(p, last.bounds) then rest + [last] else rest
  }

  /** Filtering distributes over concatenation, so the candidates keep list order. */
  lemma {:induction false} CandidatesAppend(a: seq<BoundingBoxEntry>, b: seq<BoundingBoxEntry>, p: Point)
    ensures Candidates(a + b, p) == Candidates(a, p) + Candidates(b, p)
    decreases |b|
  {
    if |b| == 0 {
      assert a + b == a;
    } else {
      var b' := b[..|b| - 1];
      assert (a + b)[..|a + b| - 1] == a + b';
      CandidatesAppend(a, b', p);
    }
  }

  /** A single entry is a candidate exactly when its box contains the point. */
  lemma {:induction false} CandidatesSingleton(e: BoundingBoxEntry, p: Point)
    ensures Candidates([e], p) == (if InBox(p, e.bounds) then [e] else [])
  {
    assert [e][..0] == [];
  }

  /**
   * Some constituent polygon contains `p`; the search stops at the first one
   * that does, as the source's loop does with `break`.
   */
  function AnyPolygonContains(pip: PointInPolygon, p: Point, polygons: seq<PolygonRings>): (r: bool)
    ensures r <==> exists i :: 0 <= i < |polygons| && pip(p, polygons[i])
  {
    if |polygons| == 0 then false
    else if pip(p, polygons[0]) then true
    else
      var r := AnyPolygonContains(pip, p, polygons[1..]);
      assert forall i :: 1 <= i < |polygons| ==> polygons[i] == polygons[1..][i - 1];
      r
  }

  /** Containment of a point in a feature's geometry. */
  function GeometryContains(pip: PointInPolygon, p: Point, g: Geometry): (r: bool)
    ensures g.Other? ==> !r
    ensures g.Polygon? ==> (r <==> pip(p, g.rings))
    ensures g.MultiPolygon? ==> (r <==> exists i :: 0 <= i < |g.polygons| && pip(p, g.polygons[i]))
  {
    match g
    case Polygon(rings) => pip(p, rings)
    case MultiPolygon(polygons) => AnyPolygonContains(pip, p, polygons)
    case Other => false
  }
}
