/** GeoJSON objects (RFC 7946) as the geometry code sees them, and `get_geometry_bounds`:
    the bounding box of a Geometry, Feature or FeatureCollection, returned with latitude
    first as `[[min_lat, min_lng], [max_lat, max_lng]]`. */
module GeoJson {
  import opened Wrappers

  /** A position, longitude first (section 3.1.1 of RFC 7946); altitude is not modelled. */
  datatype Position = Position(lon: real, lat: real)

  /** The seven geometry types of section 3.1 of RFC 7946. */
  datatype Geometry =
    | Point(coordinates: Position)
    | MultiPoint(points: seq<Position>)
    | LineString(line: seq<Position>)
    | MultiLineString(lines: seq<seq<Position>>)
    | Polygon(rings: seq<seq<Position>>)
    | MultiPolygon(polygons: seq<seq<seq<Position>>>)
    | GeometryCollection(geometries: seq<Geometry>)

  /** A property value as the map page writes them: a string or an integer id. */
  datatype Prop = PStr(s: string) | PInt(i: int)

  /** A Feature (section 3.2 of RFC 7946); either member may be `null`. */
  datatype Feature = Feature(geometry: Option<Geometry>, properties: Option<map<string, Prop>>)

  /** A GeoJSON object: a bare geometry, a Feature, or a FeatureCollection (section 3.3 of RFC 7946). */
  datatype GeoJson =
    | GeometryObject(geometry: Geometry)
    | FeatureObject(feature: Feature)
    | FeatureCollection(features: seq<Feature>)

  /** A Leaflet point, latitude first. */
  datatype LatLng = LatLng(lat: real, lng: real)

  /** `[[min_lat, min_lng], [max_lat, max_lng]]`, the shape `fit_bounds` takes. */
  datatype Bounds = Bounds(sw: LatLng, ne: LatLng)

  function Min(a: real, b: real): real { if a <= b then a else b }
  function Max(a: real, b: real): real { if a >= b then a else b }

  /** The envelope of a single position, swapped to latitude first. */
  function PointBox(p: Position): Bounds {
    Bounds(LatLng(p.lat, p.lon), LatLng(p.lat, p.lon))
  }

  /** The smallest box holding both boxes; `None` is the empty box. */
  function Join(a: Option<Bounds>, b: Option<Bounds>): (r: Option<Bounds>)
    ensures r.None? <==> a.None? && b.None?
  {
    match (a, b)
    case (None, _) => b
    case (_, None) => a
    case (Some(x), Some(y)) =>
      Some(Bounds(LatLng(Min(x.sw.lat, y.sw.lat), Min(x.sw.lng, y.sw.lng)),
                  LatLng(Max(x.ne.lat, y.ne.lat), Max(x.ne.lng, y.ne.lng))))
  }

  lemma JoinCommutative(a: Option<Bounds>, b: Option<Bounds>)
    ensures Join(a, b) == Join(b, a)
  {
  }

  lemma JoinAssociative(a: Option<Bounds>, b: Option<Bounds>, c: Option<Bounds>)
    ensures Join(Join(a, b), c) == Join(a, Join(b, c))
  {
  }

  /** The envelope of a list of positions: `None` when there are none. */
  function Envelope(ps: seq<Position>): Option<Bounds> {
    if ps == [] then None else Join(Some(PointBox(ps[0])), Envelope(ps[1..]))
  }

  lemma {:induction false} EnvelopeAppend(a: seq<Position>, b: seq<Position>)
    ensures Envelope(a + b) == Join(Envelope(a), Envelope(b))
  {
    if a != [] {
      assert (a + b)[1..] == a[1..] + b;
      EnvelopeAppend(a[1..], b);
      JoinAssociative(Some(PointBox(a[0])), Envelope(a[1..]), Envelope(b));
    } else {
      assert a + b == b;
    }
  }

  /** A box holds a position when the position's latitude and longitude lie within it. */
  predicate Holds(b: Bounds, p: Position) {
    b.sw.lat <= p.lat <= b.ne.lat && b.sw.lng <= p.lon <= b.ne.lng
  }

  /** The envelope is the tight box: it holds every position, each of its four sides is
      reached by some position, and it is empty exactly when there are no positions. */
  lemma {:induction false} EnvelopeTight(ps: seq<Position>)
    ensures Envelope(ps).None? <==> ps == []
    ensures Envelope(ps).Some? ==> forall i :: 0 <= i < |ps| ==> Holds(Envelope(ps).value, ps[i])
    ensures Envelope(ps).Some? ==>
      var b := Envelope(ps).value;
      && (exists i :: 0 <= i < |ps| && ps[i].lat == b.sw.lat)
      && (exists i :: 0 <= i < |ps| && ps[i].lon == b.sw.lng)
      && (exists i :: 0 <= i < |ps| && ps[i].lat == b.ne.lat)
      && (exists i :: 0 <= i < |ps| && ps[i].lon == b.ne.lng)
  {
    if ps != [] {
      var rest := ps[1..];
      EnvelopeTight(rest);
      var b := Envelope(ps).value;
      forall i | 0 <= i < |ps|
        ensures Holds(b, ps[i])
      {
        if i > 0 { assert ps[i] == rest[i - 1]; }
      }
      if rest != [] {
        var r := Envelope(rest).value;
        if b.sw.lat != ps[0].lat {
          var k :| 0 <= k < |rest| && rest[k].lat == r.sw.lat;
          assert ps[k + 1].lat == b.sw.lat;
        }
        if b.sw.lng != ps[0].lon {
          var k :| 0 <= k < |rest| && rest[k].lon == r.sw.lng;
          assert ps[k + 1].lon == b.sw.lng;
        }
        if b.ne.lat != ps[0].lat {
          var k :| 0 <= k < |rest| && rest[k].lat == r.ne.lat;
          assert ps[k + 1].lat == b.ne.lat;
        }
        if b.ne.lng != ps[0].lon {
          var k :| 0 <= k < |rest| && rest[k].lon == r.ne.lng;
          assert ps[k + 1].lon == b.ne.lng;
        }
      }
    }
  }

  function Concat<T>(xss: seq<seq<T>>): seq<T> {
    if xss == [] then [] else xss[0] + Concat(xss[1..])
  }

  /** The exterior ring of a polygon; a polygon without rings is empty. */
  function Exterior(rings: seq<seq<Position>>): seq<Position> {
    if rings == [] then [] else rings[0]
  }

  function Exteriors(polygons: seq<seq<seq<Position>>>): seq<Position> {
    if polygons == [] then [] else Exterior(polygons[0]) + Exteriors(polygons[1..])
  }

  /** The positions whose envelope is the geometry's envelope: every position of points
      and lines, the exterior ring of each polygon (interior rings lie inside it). */
  function Outline(g: Geometry): seq<Position>
    decreases g, 1
  {
    match g
    case Point(p) => [p]
    case MultiPoint(ps) => ps
    case LineString(ps) => ps
    case MultiLineString(lines) => Concat(lines)
    case Polygon(rings) => Exterior(rings)
    case MultiPolygon(polygons) => Exteriors(polygons)
    case GeometryCollection(gs) => Outlines(gs)
  }

  function Outlines(gs: seq<Geometry>): seq<Position>
    decreases gs, 0
  {
    if gs == [] then [] else Outline(gs[0]) + Outlines(gs[1..])
  }

  lemma {:induction false} OutlinesAppend(a: seq<Geometry>, b: seq<Geometry>)
    ensures Outlines(a + b) == Outlines(a) + Outlines(b)
  {
    if a != [] {
      assert (a + b)[1..] == a[1..] + b;
      OutlinesAppend(a[1..], b);
    } else {
      assert a + b == b;
    }
  }

  /** The geometries of the features that carry one (`if g:` skips `null`). */
  function FeatureGeometries(fs: seq<Feature>): seq<Geometry> {
    if fs == [] then []
    else (if fs[0].geometry.Some? then [fs[0].geometry.value] else []) + FeatureGeometries(fs[1..])
  }

  lemma {:induction false} FeatureGeometriesAppend(a: seq<Feature>, b: seq<Feature>)
    ensures FeatureGeometries(a + b) == FeatureGeometries(a) + FeatureGeometries(b)
  {
    if a != [] {
      assert (a + b)[1..] == a[1..] + b;
      FeatureGeometriesAppend(a[1..], b);
    } else {
      assert a + b == b;
    }
  }

  /** The positions a GeoJSON object's box is taken over. */
  function ObjectOutline(geo: GeoJson): seq<Position> {
    match geo
    case GeometryObject(g) => Outline(g)
    case FeatureObject(f) => if f.geometry.Some? then Outline(f.geometry.value) else []
    case FeatureCollection(fs) => Outlines(FeatureGeometries(fs))
  }

  /** The value `get_geometry_bounds(geo)` returns: `None` for a missing object, a
      Feature without geometry, a collection without geometries, or an empty geometry. */
  function GeometryBounds(geo: Option<GeoJson>): Option<Bounds> {
    if geo.None? then None else Envelope(ObjectOutline(geo.value))
  }

  /** `get_geometry_bounds(geo)`: collects the features' geometries, unites them and
      takes the envelope of the union. */
  method GetGeometryBounds(geo: Option<GeoJson>) returns (b: Option<Bounds>)
    ensures b == GeometryBounds(geo)
  {
    if geo.None? {
      return None;
    }
    match geo.value
    case FeatureCollection(fs) =>
      var geoms: seq<Geometry> := [];
      for i := 0 to |fs|
        invariant geoms == FeatureGeometries(fs[..i])
      {
        FeatureGeometriesAppend(fs[..i], [fs[i]]);
        assert fs[..i + 1] == fs[..i] + [fs[i]];
        if fs[i].geometry.Some? {
          geoms := geoms + [fs[i].geometry.value];
        }
      }
      assert fs[..|fs|] == fs;
      b := UnionEnvelope(geoms);
    case FeatureObject(f) =>
      if f.geometry.Some? {
        b := Envelope(Outline(f.geometry.value));
      } else {
        b := None;
      }
    case GeometryObject(g) =>
      b := Envelope(Outline(g));
  }

  /** The envelope of the union of several geometries, one geometry at a time. */
  method UnionEnvelope(geoms: seq<Geometry>) returns (b: Option<Bounds>)
    ensures b == Envelope(Outlines(geoms))
  {
    b := None;
    for i := 0 to |geoms|
      invariant b == Envelope(Outlines(geoms[..i]))
    {
      OutlinesAppend(geoms[..i], [geoms[i]]);
      assert geoms[..i + 1] == geoms[..i] + [geoms[i]];
      assert Outlines([geoms[i]]) == Outline(geoms[i]);
      EnvelopeAppend(Outlines(geoms[..i]), Outline(geoms[i]));
      b := Join(b, Envelope(Outline(geoms[i])));
    }
    assert geoms[..|geoms|] == geoms;
  }

  /** A Point `[lon, lat]` gives the degenerate box `[[lat, lon], [lat, lon]]`. */
  lemma PointBounds(lon: real, lat: real)
    ensures GeometryBounds(Some(GeometryObject(Point(Position(lon, lat)))))
         == Some(Bounds(LatLng(lat, lon), LatLng(lat, lon)))
  {
    var ps := [Position(lon, lat)];
    assert ps[1..] == [];
    assert Envelope(ps) == Join(Some(PointBox(ps[0])), Envelope([]));
  }

  /** The bounds of a collection are the union of the bounds of its features, taken over
      the features that have a geometry; so the order of features does not matter. */
  lemma {:induction false} CollectionBoundsUnion(a: seq<Feature>, b: seq<Feature>)
    ensures GeometryBounds(Some(FeatureCollection(a + b)))
         == Join(GeometryBounds(Some(FeatureCollection(a))), GeometryBounds(Some(FeatureCollection(b))))
  {
    FeatureGeometriesAppend(a, b);
    OutlinesAppend(FeatureGeometries(a), FeatureGeometries(b));
    EnvelopeAppend(Outlines(FeatureGeometries(a)), Outlines(FeatureGeometries(b)));
  }

  lemma CollectionBoundsOrder(a: seq<Feature>, b: seq<Feature>)
    ensures GeometryBounds(Some(FeatureCollection(a + b))) == GeometryBounds(Some(FeatureCollection(b + a)))
  {
    CollectionBoundsUnion(a, b);
    CollectionBoundsUnion(b, a);
  }

  /** A single feature contributes to a collection exactly what it has as a Feature. */
  lemma SingleFeatureCollection(f: Feature)
    ensures GeometryBounds(Some(FeatureCollection([f]))) == GeometryBounds(Some(FeatureObject(f)))
  {
    assert FeatureGeometries([f]) == (if f.geometry.Some? then [f.geometry.value] else []) + FeatureGeometries([]);
    if f.geometry.Some? {
      assert Outlines([f.geometry.value]) == Outline(f.geometry.value) + Outlines([]);
      assert Outline(f.geometry.value) + [] == Outline(f.geometry.value);
    }
  }

  /** The centre of a box: the midpoint of its latitudes and of its longitudes. */
  function Center(b: Bounds): (c: LatLng)
    ensures c.lat - b.sw.lat == b.ne.lat - c.lat
    ensures c.lng - b.sw.lng == b.ne.lng - c.lng
  {
    LatLng((b.sw.lat + b.ne.lat) / 2.0, (b.sw.lng + b.ne.lng) / 2.0)
  }

  /** The centre of a non-empty envelope lies within it. */
  lemma CenterInside(ps: seq<Position>)
    requires ps != []
    ensures Envelope(ps).Some?
    ensures var b := Envelope(ps).value; var c := Center(b);
      b.sw.lat <= c.lat <= b.ne.lat && b.sw.lng <= c.lng <= b.ne.lng
  {
    EnvelopeTight(ps);
    assert Holds(Envelope(ps).value, ps[0]);
  }
}
