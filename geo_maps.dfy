/** The framing logic of `create_appellation_map` and `create_wine_combined_map`: which
    layers are drawn, where the map is centred, which box it is fitted to, and the label
    that says what is shown. Drawing itself (tiles, styles, HTML) is not modelled; a map
    is the record of the calls made on it. */
module GeoMaps {
  import opened Wrappers
  import Strings
  import opened GeoJson

  /** A layer added to the map: a circle marker for a point, a GeoJSON layer otherwise. */
  datatype Layer =
    | CircleMarker(location: LatLng, color: string, tooltip: string)
    | GeoJsonLayer(geo: GeoJson, name: Option<string>, color: string, weight: nat,
                   fillOpacity: real, tooltip: string)

  /** A folium map: its initial centre and zoom, its layers in order, and the box passed
      to `fit_bounds` (`None` when it is not called). */
  datatype FoliumMap = FoliumMap(center: LatLng, zoom: nat, layers: seq<Layer>, fitBounds: Option<Bounds>)

  const DefaultCenter := LatLng(47.0, 4.0)
  const AppellationColor := "#c27ba0"
  const VineyardColor := "#228b22"

  /** The initial centre: the middle of the box, or the default when there is none. */
  function MapCenter(bounds: Option<Bounds>): LatLng {
    if bounds.Some? then Center(bounds.value) else DefaultCenter
  }

  /** A bare Point geometry, the one shape drawn as a circle marker. */
  predicate IsPointObject(geo: GeoJson) {
    geo.GeometryObject? && geo.geometry.Point?
  }

  /** The layer drawing `geo`: a marker at `[lat, lon]` for a Point, else a GeoJSON
      layer with weight 1 and fill opacity 0.4. */
  function ShapeLayer(geo: GeoJson, name: Option<string>, color: string, tooltip: string): (l: Layer)
    ensures l.CircleMarker? <==> IsPointObject(geo)
    ensures l.CircleMarker? ==>
      l.location == LatLng(geo.geometry.coordinates.lat, geo.geometry.coordinates.lon)
    ensures l.GeoJsonLayer? ==> l.geo == geo && l.weight == 1 && l.fillOpacity == 0.4
  {
    if IsPointObject(geo) then
      var p := geo.geometry.coordinates;
      CircleMarker(LatLng(p.lat, p.lon), color, tooltip)
    else GeoJsonLayer(geo, name, color, 1, 0.4, tooltip)
  }

  /** `create_appellation_map(appellation, geo_data, color)`: `None` without geometry;
      otherwise a map at zoom 10 with one layer, centred on the geometry's box and fitted
      to it when the box exists. */
  function AppellationMap(name: string, geo: Option<GeoJson>, color: string): (m: Option<FoliumMap>)
    ensures m.None? <==> geo.None?
    ensures m.Some? ==> m.value.zoom == 10 && |m.value.layers| == 1
    ensures m.Some? ==> m.value.fitBounds == GeometryBounds(geo)
  {
    if geo.None? then None
    else
      var bounds := GeometryBounds(geo);
      Some(FoliumMap(MapCenter(bounds), 10, [ShapeLayer(geo.value, None, color, name)], bounds))
  }

  /** A Point appellation is drawn as a marker at `[lat, lon]`, and the map is centred on
      and fitted to that very point. */
  lemma AppellationPointMap(name: string, lon: real, lat: real, color: string)
    ensures AppellationMap(name, Some(GeometryObject(Point(Position(lon, lat)))), color)
         == Some(FoliumMap(LatLng(lat, lon), 10, [CircleMarker(LatLng(lat, lon), color, name)],
                           Some(Bounds(LatLng(lat, lon), LatLng(lat, lon)))))
  {
    PointBounds(lon, lat);
  }

  /** Whenever the map is fitted to a box, its initial centre lies inside that box. */
  lemma AppellationCenterInside(name: string, geo: Option<GeoJson>, color: string)
    requires geo.Some? && ObjectOutline(geo.value) != []
    ensures var m := AppellationMap(name, geo, color);
      && m.Some? && m.value.fitBounds.Some?
      && var b := m.value.fitBounds.value;
      && b.sw.lat <= m.value.center.lat <= b.ne.lat
      && b.sw.lng <= m.value.center.lng <= b.ne.lng
  {
    CenterInside(ObjectOutline(geo.value));
  }

  /** One entry of `targets` in `create_wine_combined_map`. */
  datatype Target = Target(geo: GeoJson, name: string, kind: string, color: string)

  /** The targets: the appellation (named after the wine's appellation, or "Appellation")
      when its geometry is given, then the vineyard likewise. */
  function Targets(appName: Option<string>, vineName: Option<string>,
                   appGeo: Option<GeoJson>, vineGeo: Option<GeoJson>): (ts: seq<Target>)
    ensures |ts| == (if appGeo.Some? then 1 else 0) + (if vineGeo.Some? then 1 else 0)
    ensures appGeo.Some? ==>
      ts[0] == Target(appGeo.value, appName.GetOr("Appellation"), "Appellation", AppellationColor)
    ensures vineGeo.Some? ==>
      ts[|ts| - 1] == Target(vineGeo.value, vineName.GetOr("Vineyard"), "Vineyard", VineyardColor)
  {
    (if appGeo.Some? then [Target(appGeo.value, appName.GetOr("Appellation"), "Appellation", AppellationColor)] else [])
    + (if vineGeo.Some? then [Target(vineGeo.value, vineName.GetOr("Vineyard"), "Vineyard", VineyardColor)] else [])
  }

  /** `f"{t['type']}: {t['name']}"`, the tooltip and label part of a target. */
  function Caption(t: Target): string {
    t.kind + ": " + t.name
  }

  function Captions(ts: seq<Target>): (cs: seq<string>)
    ensures |cs| == |ts|
    ensures forall i :: 0 <= i < |ts| ==> cs[i] == Caption(ts[i])
  {
    seq(|ts|, i requires 0 <= i < |ts| => Caption(ts[i]))
  }

  function TargetLayers(ts: seq<Target>): (ls: seq<Layer>)
    ensures |ls| == |ts|
    ensures forall i :: 0 <= i < |ts| ==>
      ls[i] == ShapeLayer(ts[i].geo, Some(ts[i].name), ts[i].color, Caption(ts[i]))
  {
    seq(|ts|, i requires 0 <= i < |ts| => ShapeLayer(ts[i].geo, Some(ts[i].name), ts[i].color, Caption(ts[i])))
  }

  /** `create_wine_combined_map(wine, appellation_geo, vineyard_geo)` as written: no
      targets gives `(None, "")`; otherwise every target is drawn, but the centre and the
      fitted box come from the first target alone. */
  function WineCombinedMapAsWritten(appName: Option<string>, vineName: Option<string>,
                                    appGeo: Option<GeoJson>, vineGeo: Option<GeoJson>): (r: (Option<FoliumMap>, string))
    ensures r.0.None? <==> appGeo.None? && vineGeo.None?
    ensures r.0.None? ==> r.1 == ""
  {
    var ts := Targets(appName, vineName, appGeo, vineGeo);
    if ts == [] then (None, "")
    else
      var bounds := GeometryBounds(Some(ts[0].geo));
      (Some(FoliumMap(MapCenter(bounds), 10, TargetLayers(ts), bounds)),
       Strings.Join(Captions(ts), " + "))
  }

  /** The box that holds every target's box. */
  function TargetsBounds(ts: seq<Target>): Option<Bounds> {
    if ts == [] then None else Join(GeometryBounds(Some(ts[0].geo)), TargetsBounds(ts[1..]))
  }

  /** `create_wine_combined_map` as its comment intends ("fit bounds to show all
      features"): the same map, fitted to the union of the targets' boxes. */
  function WineCombinedMap(appName: Option<string>, vineName: Option<string>,
                           appGeo: Option<GeoJson>, vineGeo: Option<GeoJson>): (r: (Option<FoliumMap>, string))
    ensures r.0.None? <==> appGeo.None? && vineGeo.None?
    ensures r.0.None? ==> r.1 == ""
  {
    var ts := Targets(appName, vineName, appGeo, vineGeo);
    if ts == [] then (None, "")
    else
      var bounds := GeometryBounds(Some(ts[0].geo));
      (Some(FoliumMap(MapCenter(bounds), 10, TargetLayers(ts), TargetsBounds(ts))),
       Strings.Join(Captions(ts), " + "))
  }

  /** Joining boxes only grows them. */
  lemma JoinHolds(a: Option<Bounds>, b: Option<Bounds>, p: Position)
    ensures a.Some? && Holds(a.value, p) ==> Holds(Join(a, b).value, p)
    ensures b.Some? && Holds(b.value, p) ==> Holds(Join(a, b).value, p)
  {
  }

  /** The union box holds every position of every target. */
  lemma {:induction false} TargetsBoundsHold(ts: seq<Target>, i: nat, p: Position)
    requires i < |ts| && p in ObjectOutline(ts[i].geo)
    ensures TargetsBounds(ts).Some? && Holds(TargetsBounds(ts).value, p)
  {
    var ps := ObjectOutline(ts[0].geo);
    EnvelopeTight(ps);
    if i == 0 {
      var k :| 0 <= k < |ps| && ps[k] == p;
      JoinHolds(GeometryBounds(Some(ts[0].geo)), TargetsBounds(ts[1..]), p);
    } else {
      TargetsBoundsHold(ts[1..], i - 1, p);
      JoinHolds(GeometryBounds(Some(ts[0].geo)), TargetsBounds(ts[1..]), p);
    }
  }

  /** The intended map shows everything: each position of the appellation and of the
      vineyard lies inside the fitted box. */
  lemma CombinedShowsAll(appName: Option<string>, vineName: Option<string>,
                         appGeo: Option<GeoJson>, vineGeo: Option<GeoJson>, p: Position)
    requires (appGeo.Some? && p in ObjectOutline(appGeo.value))
          || (vineGeo.Some? && p in ObjectOutline(vineGeo.value))
    ensures var m := WineCombinedMap(appName, vineName, appGeo, vineGeo).0;
      m.Some? && m.value.fitBounds.Some? && Holds(m.value.fitBounds.value, p)
  {
    var ts := Targets(appName, vineName, appGeo, vineGeo);
    if appGeo.Some? && p in ObjectOutline(appGeo.value) {
      TargetsBoundsHold(ts, 0, p);
    } else {
      TargetsBoundsHold(ts, |ts| - 1, p);
    }
  }

  /** As written, a vineyard point away from an appellation point is left out of the
      fitted box: only the appellation's box is used. */
  lemma CombinedMissesVineyard()
    ensures var m := WineCombinedMapAsWritten(Some("A"), Some("V"),
                       Some(GeometryObject(Point(Position(4.0, 47.0)))),
                       Some(GeometryObject(Point(Position(5.0, 48.0))))).0;
      m.Some? && m.value.fitBounds.Some? && !Holds(m.value.fitBounds.value, Position(5.0, 48.0))
  {
    PointBounds(4.0, 47.0);
  }

  /** Both versions centre the map on the first target only, so with an appellation the
      centre does not depend on the vineyard. */
  lemma CombinedCenterFromAppellation(appName: Option<string>, appGeo: GeoJson,
                                      vineName1: Option<string>, vineGeo1: Option<GeoJson>,
                                      vineName2: Option<string>, vineGeo2: Option<GeoJson>)
    ensures var m1 := WineCombinedMap(appName, vineName1, Some(appGeo), vineGeo1).0;
      var m2 := WineCombinedMap(appName, vineName2, Some(appGeo), vineGeo2).0;
      var w := WineCombinedMapAsWritten(appName, vineName1, Some(appGeo), vineGeo1).0;
      && m1.Some? && m2.Some? && w.Some?
      && m1.value.center == m2.value.center == w.value.center == MapCenter(GeometryBounds(Some(appGeo)))
  {
  }

  /** The label names the appellation then the vineyard, as "Type: name", joined by
      " + ". */
  lemma CombinedLabel(appName: Option<string>, vineName: Option<string>,
                      appGeo: Option<GeoJson>, vineGeo: Option<GeoJson>)
    ensures var text := WineCombinedMap(appName, vineName, appGeo, vineGeo).1;
      var a := "Appellation: " + appName.GetOr("Appellation");
      var v := "Vineyard: " + vineName.GetOr("Vineyard");
      && (appGeo.Some? && vineGeo.Some? ==> text == a + " + " + v)
      && (appGeo.Some? && vineGeo.None? ==> text == a)
      && (appGeo.None? && vineGeo.Some? ==> text == v)
  {
    var ts := Targets(appName, vineName, appGeo, vineGeo);
    var cs := Captions(ts);
    assert WineCombinedMap(appName, vineName, appGeo, vineGeo).1
      == if ts == [] then "" else Strings.Join(cs, " + ");
    if |ts| == 2 {
      assert cs == [cs[0], cs[1]];
      JoinPair(cs[0], cs[1], " + ");
    }
  }

  lemma JoinPair(a: string, b: string, sep: string)
    ensures Strings.Join([a, b], sep) == a + sep + b
  {
    assert [a, b][1..] == [b];
  }

  /** A Point target is drawn as a marker at `[lat, lon]` with a "Type: name" tooltip;
      other shapes as a GeoJSON layer named after the target. */
  lemma CombinedLayers(appName: Option<string>, vineName: Option<string>,
                       appGeo: Option<GeoJson>, vineGeo: Option<GeoJson>)
    ensures var m := WineCombinedMap(appName, vineName, appGeo, vineGeo).0;
      var ts := Targets(appName, vineName, appGeo, vineGeo);
      m.Some? ==> |m.value.layers| == |ts| && forall i :: 0 <= i < |ts| ==>
        && (m.value.layers[i].CircleMarker? <==> IsPointObject(ts[i].geo))
        && (m.value.layers[i].CircleMarker? ==> m.value.layers[i].tooltip == ts[i].kind + ": " + ts[i].name)
        && (m.value.layers[i].GeoJsonLayer? ==> m.value.layers[i].name == Some(ts[i].name))
  {
  }
}
