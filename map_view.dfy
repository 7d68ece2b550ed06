/** The data side of the map page: which appellations and vineyards are drawn, how each
    resolved geometry becomes a map feature (a marker for a point, a wrapped Feature for
    a polygon, a FeatureCollection as it is), where the map starts, and the colours and
    styles the features are drawn with. */
module MapView {
  import opened Wrappers
  import Strings
  import Lists
  import opened GeoJson
  import Shared
  import opened GeoResolve

  /** `format_v(v)`: the non-empty sub-region, village and name, joined by " - ". */
  function FormatV(v: Vineyard): string {
    Strings.Join(Present([v.subRegion, v.village, Some(v.name)]), " - ")
  }

  /** The truthy entries, in order. */
  function Present(xs: seq<Option<string>>): (r: seq<string>)
    ensures |r| <= |xs|
    ensures forall i :: 0 <= i < |r| ==> r[i] != ""
    ensures forall i :: 0 <= i < |xs| && Shared.Truthy(xs[i]) ==> xs[i].value in r
  {
    if xs == [] then []
    else (if Shared.Truthy(xs[0]) then [xs[0].value] else []) + Present(xs[1..])
  }

  /** The label is the name alone when there is neither sub-region nor village, and
      otherwise the present parts in order, joined by " - ": a blank name drops out like
      a missing sub-region or village. */
  lemma FormatVCases(v: Vineyard)
    ensures !Shared.Truthy(v.subRegion) && !Shared.Truthy(v.village) ==> FormatV(v) == v.name
    ensures Shared.Truthy(v.subRegion) && Shared.Truthy(v.village) && v.name != "" ==>
      FormatV(v) == v.subRegion.value + " - " + v.village.value + " - " + v.name
    ensures Shared.Truthy(v.subRegion) && !Shared.Truthy(v.village) && v.name != "" ==>
      FormatV(v) == v.subRegion.value + " - " + v.name
    ensures !Shared.Truthy(v.subRegion) && Shared.Truthy(v.village) && v.name != "" ==>
      FormatV(v) == v.village.value + " - " + v.name
    ensures Shared.Truthy(v.subRegion) && Shared.Truthy(v.village) && v.name == "" ==>
      FormatV(v) == v.subRegion.value + " - " + v.village.value
    ensures Shared.Truthy(v.subRegion) && !Shared.Truthy(v.village) && v.name == "" ==>
      FormatV(v) == v.subRegion.value
    ensures !Shared.Truthy(v.subRegion) && Shared.Truthy(v.village) && v.name == "" ==>
      FormatV(v) == v.village.value
  {
    var p0 := if Shared.Truthy(v.subRegion) then [v.subRegion.value] else [];
    var p1 := if Shared.Truthy(v.village) then [v.village.value] else [];
    var p2 := if v.name != "" then [v.name] else [];
    FormatVParts(v);
    var parts := p0 + p1 + p2;
    if |parts| >= 2 {
      assert Strings.Join(parts, " - ") == parts[0] + " - " + Strings.Join(parts[1..], " - ");
      if |parts| == 3 {
        assert Strings.Join(parts[1..], " - ") == parts[1] + " - " + Strings.Join(parts[2..], " - ");
      }
    }
  }

  /** The parts `format_v` joins: each of sub-region, village and name that is truthy. */
  lemma FormatVParts(v: Vineyard)
    ensures FormatV(v) == Strings.Join(
      (if Shared.Truthy(v.subRegion) then [v.subRegion.value] else [])
      + (if Shared.Truthy(v.village) then [v.village.value] else [])
      + (if v.name != "" then [v.name] else []), " - ")
  {
    var xs := [v.subRegion, v.village, Some(v.name)];
    var p0 := if Shared.Truthy(v.subRegion) then [v.subRegion.value] else [];
    var p1 := if Shared.Truthy(v.village) then [v.village.value] else [];
    var p2 := if v.name != "" then [v.name] else [];
    assert xs[1..][1..][1..] == [];
    assert Present(xs[1..][1..]) == p2 + Present([]);
    assert Present(xs[1..]) == p1 + p2;
    assert Present(xs) == p0 + p1 + p2;
  }

  /** The region selected by default: the position of "Loire" among the sorted names,
      else the first. */
  function DefaultRegionIndex(names: seq<string>): (r: nat)
    ensures names != [] ==> r < |names|
    ensures "Loire" in names <==> (r < |names| && names[r] == "Loire")
    ensures "Loire" in names ==> forall j :: 0 <= j < r ==> names[j] != "Loire"
    ensures "Loire" !in names ==> r == 0
  {
    if "Loire" in names then Lists.IndexOf(names, "Loire") else 0
  }

  /** The appellations drawn: those of the region whose name is selected, in the
      region's order (none when nothing is selected). */
  function AppsToRender(regionApps: seq<Appellation>, selected: seq<string>): (r: seq<Appellation>)
    ensures |r| <= |regionApps|
    ensures forall a :: a in r <==> a in regionApps && a.name in selected
  {
    if regionApps == [] then []
    else
      (if regionApps[0].name in selected then [regionApps[0]] else [])
      + AppsToRender(regionApps[1..], selected)
  }

  /** A dict built from a list with a key per element: a later element with the same
      key replaces an earlier one. */
  function IndexBy<K, T>(xs: seq<T>, key: T -> K): map<K, T> {
    if xs == [] then map[]
    else IndexBy(xs[..|xs| - 1], key)[key(xs[|xs| - 1]) := xs[|xs| - 1]]
  }

  lemma {:induction false} IndexByDomain<K, T>(xs: seq<T>, key: T -> K)
    ensures forall k :: k in IndexBy(xs, key) <==> exists i :: 0 <= i < |xs| && key(xs[i]) == k
  {
    if xs != [] {
      var init := xs[..|xs| - 1];
      IndexByDomain(init, key);
      forall k
        ensures k in IndexBy(xs, key) <==> exists i :: 0 <= i < |xs| && key(xs[i]) == k
      {
        if k in IndexBy(init, key) {
          var i :| 0 <= i < |init| && key(init[i]) == k;
          assert xs[i] == init[i];
        }
        if exists i :: 0 <= i < |xs| && key(xs[i]) == k {
          var i :| 0 <= i < |xs| && key(xs[i]) == k;
          if i < |init| { assert init[i] == xs[i]; }
        }
      }
    }
  }

  /** The last element with a key is the one the dict keeps. */
  lemma {:induction false} IndexByLastWins<K, T>(xs: seq<T>, key: T -> K, i: int)
    requires 0 <= i < |xs|
    requires forall j :: i < j < |xs| ==> key(xs[j]) != key(xs[i])
    ensures key(xs[i]) in IndexBy(xs, key) && IndexBy(xs, key)[key(xs[i])] == xs[i]
    decreases |xs|
  {
    if i < |xs| - 1 {
      var init := xs[..|xs| - 1];
      assert init[i] == xs[i];
      IndexByLastWins(init, key, i);
    }
  }

  /** `{format_v(v): v for v in region_vineyards}`. */
  function VMap(vines: seq<Vineyard>): map<string, Vineyard> {
    IndexBy(vines, FormatV)
  }

  /** The keys are exactly the vineyards' labels, and a label shared by several vineyards
      selects the last of them. */
  lemma VMapLastWins(vines: seq<Vineyard>, i: int)
    requires 0 <= i < |vines|
    requires forall j :: i < j < |vines| ==> FormatV(vines[j]) != FormatV(vines[i])
    ensures forall k :: k in VMap(vines) <==> exists j :: 0 <= j < |vines| && FormatV(vines[j]) == k
    ensures FormatV(vines[i]) in VMap(vines) && VMap(vines)[FormatV(vines[i])] == vines[i]
  {
    IndexByDomain(vines, FormatV);
    IndexByLastWins(vines, FormatV, i);
  }

  /** Each value of the dict is an element of the list, filed under its own key. */
  lemma {:induction false} IndexByValues<K, T>(xs: seq<T>, key: T -> K)
    ensures forall k :: k in IndexBy(xs, key) ==> key(IndexBy(xs, key)[k]) == k && IndexBy(xs, key)[k] in xs
  {
    if xs != [] {
      var init := xs[..|xs| - 1];
      var m := IndexBy(init, key);
      IndexByValues(init, key);
      forall k | k in m
        ensures m[k] in xs
      {
        var j :| 0 <= j < |init| && init[j] == m[k];
        assert xs[j] == m[k];
      }
    }
  }

  /** `[v_map[label] for label in selected_vineyard_labels]`: the labels are offered from
      the dict's keys, so each is present, and each selects a vineyard of the region
      carrying that very label. */
  function VinesToRender(vines: seq<Vineyard>, labels: seq<string>): (r: seq<Vineyard>)
    requires forall l :: l in labels ==> l in VMap(vines)
    ensures |r| == |labels|
    ensures forall i :: 0 <= i < |labels| ==> r[i] in vines && FormatV(r[i]) == labels[i]
  {
    IndexByValues(vines, FormatV);
    var m := VMap(vines);
    assert forall l :: l in m ==> FormatV(m[l]) == l && m[l] in vines;
    seq(|labels|, i requires 0 <= i < |labels| => VMap(vines)[labels[i]])
  }

  /** One entry of `map_features`; `color` is filled in by the colour loop. */
  datatype MapFeature =
    | Marker(location: LatLng, name: string, id: int, ftype: string, color: Option<string>)
    | GeoLayer(geo: GeoJson, name: string, id: int, ftype: string, color: Option<string>)

  /** The properties written into a wrapped polygon. */
  function Tags(name: string, fid: int, ftype: string): map<string, Prop> {
    map["name" := PStr(name), "id" := PInt(fid), "ftype" := PStr(ftype)]
  }

  /** A geometry the map page can draw: a point, a polygon, a multi-polygon or a
      FeatureCollection. */
  predicate Drawable(geo: GeoJson) {
    (geo.GeometryObject? && (geo.geometry.Point? || geo.geometry.Polygon? || geo.geometry.MultiPolygon?))
    || geo.FeatureCollection?
  }

  /** What `add_feature(geo, name, fid, ftype)` appends: nothing for a shape it does not
      draw (a bare Feature, a line, a collection of geometries), else one feature. */
  function Classify(geo: GeoJson, name: string, fid: int, ftype: string): (r: seq<MapFeature>)
    ensures |r| == (if Drawable(geo) then 1 else 0)
    ensures |r| == 1 ==> r[0].name == name && r[0].id == fid && r[0].ftype == ftype && r[0].color.None?
    ensures |r| == 1 ==> (r[0].Marker? <==> geo.GeometryObject? && geo.geometry.Point?)
    ensures |r| == 1 && r[0].Marker? ==>
      r[0].location == LatLng(geo.geometry.coordinates.lat, geo.geometry.coordinates.lon)
    ensures |r| == 1 && geo.GeometryObject? && !geo.geometry.Point? ==>
      r[0].geo == FeatureObject(Feature(Some(geo.geometry), Some(Tags(name, fid, ftype))))
    ensures |r| == 1 && geo.FeatureCollection? ==> r[0].geo == geo
  {
    match geo
    case GeometryObject(Point(p)) => [Marker(LatLng(p.lat, p.lon), name, fid, ftype, None)]
    case GeometryObject(Polygon(_)) =>
      [GeoLayer(FeatureObject(Feature(Some(geo.geometry), Some(Tags(name, fid, ftype)))), name, fid, ftype, None)]
    case GeometryObject(MultiPolygon(_)) =>
      [GeoLayer(FeatureObject(Feature(Some(geo.geometry), Some(Tags(name, fid, ftype)))), name, fid, ftype, None)]
    case FeatureCollection(_) => [GeoLayer(geo, name, fid, ftype, None)]
    case _ => []
  }

  /** The object whose box frames the map: the feature's GeoJSON, or for a marker the
      Point `[lon, lat]` rebuilt from its location. */
  function FrameGeo(f: MapFeature): GeoJson {
    match f
    case GeoLayer(geo, _, _, _, _) => geo
    case Marker(loc, _, _, _, _) => GeometryObject(Point(Position(loc.lng, loc.lat)))
  }

  /** Turning a geometry into a feature keeps its box: wrapping a polygon in a Feature
      adds no position, and a marker's rebuilt Point is the original point. */
  lemma ClassifyKeepsBounds(geo: GeoJson, name: string, fid: int, ftype: string)
    requires Drawable(geo)
    ensures GeometryBounds(Some(FrameGeo(Classify(geo, name, fid, ftype)[0]))) == GeometryBounds(Some(geo))
  {
  }

  /** An appellation or vineyard to draw, with the geometry its resolver returned. */
  datatype Entity = Entity(geom: Option<GeoJson>, name: string, id: int)

  function Contribution(e: Entity, ftype: string): seq<MapFeature> {
    if e.geom.Some? then Classify(e.geom.value, e.name, e.id, ftype) else []
  }

  /** The features added for a list of entities, in order; an entity without geometry or
      with a shape that is not drawn adds none. */
  function FeaturesOf(es: seq<Entity>, ftype: string): (r: seq<MapFeature>)
    ensures |r| <= |es|
    ensures forall i :: 0 <= i < |r| ==> r[i].ftype == ftype && r[i].color.None?
  {
    if es == [] then [] else FeaturesOf(es[..|es| - 1], ftype) + Contribution(es[|es| - 1], ftype)
  }

  lemma {:induction false} FeaturesOfAppend(a: seq<Entity>, b: seq<Entity>, ftype: string)
    ensures FeaturesOf(a + b, ftype) == FeaturesOf(a, ftype) + FeaturesOf(b, ftype)
    decreases |b|
  {
    if b == [] {
      assert a + b == a;
    } else {
      assert (a + b)[..|a + b| - 1] == a + b[..|b| - 1];
      FeaturesOfAppend(a, b[..|b| - 1], ftype);
    }
  }

  /** The page's feature list: the selected appellations, then the selected vineyards. */
  function PageFeatures(apps: seq<Entity>, vines: seq<Entity>): seq<MapFeature> {
    FeaturesOf(apps, "Appellation") + FeaturesOf(vines, "Vineyard")
  }

  /** Every appellation feature comes before every vineyard feature. */
  lemma AppellationsFirst(apps: seq<Entity>, vines: seq<Entity>)
    ensures var fs := PageFeatures(apps, vines); var n := |FeaturesOf(apps, "Appellation")|;
      && n <= |apps| && |fs| <= |apps| + |vines|
      && (forall i :: 0 <= i < n ==> fs[i].ftype == "Appellation")
      && (forall i :: n <= i < |fs| ==> fs[i].ftype == "Vineyard")
  {
  }

  /** The initial view: centre, zoom and the box passed to `fit_bounds`. */
  datatype View = View(center: LatLng, zoom: nat, fitBounds: Option<Bounds>)

  const PageDefaultCenter := LatLng(46.0, 4.0)

  /** Zoom 6, centred on France; with features, on the middle of the first one's box, to
      which the map is then fitted. */
  function InitialView(fs: seq<MapFeature>): (v: View)
    ensures v.zoom == 6
    ensures fs == [] ==> v == View(PageDefaultCenter, 6, None)
    ensures v.fitBounds.None? ==> v.center == PageDefaultCenter
    ensures v.fitBounds.Some? ==>
      && v.fitBounds.value.sw.lat <= v.center.lat <= v.fitBounds.value.ne.lat
      && v.fitBounds.value.sw.lng <= v.center.lng <= v.fitBounds.value.ne.lng
  {
    if fs == [] then View(PageDefaultCenter, 6, None)
    else
      var ps := ObjectOutline(FrameGeo(fs[0]));
      var b := Envelope(ps);
      if b.Some? then
        EnvelopeTight(ps);
        CenterInside(ps);
        View(Center(b.value), 6, b)
      else View(PageDefaultCenter, 6, None)
  }

  /** The map is framed by the first drawn entity alone: its box, whatever follows. */
  lemma FramedByFirst(geo: GeoJson, name: string, fid: int, ftype: string, rest: seq<MapFeature>)
    requires Drawable(geo)
    ensures InitialView(Classify(geo, name, fid, ftype) + rest).fitBounds == GeometryBounds(Some(geo))
  {
    ClassifyKeepsBounds(geo, name, fid, ftype);
  }

  /** A first marker centres the map on its own location, and the box is that point. */
  lemma MarkerFirstView(lon: real, lat: real, name: string, fid: int, ftype: string, rest: seq<MapFeature>)
    ensures var v := InitialView(Classify(GeometryObject(Point(Position(lon, lat))), name, fid, ftype) + rest);
      v.center == LatLng(lat, lon) && v.fitBounds == Some(Bounds(LatLng(lat, lon), LatLng(lat, lon)))
  {
    FramedByFirst(GeometryObject(Point(Position(lon, lat))), name, fid, ftype, rest);
    PointBounds(lon, lat);
  }

  /** The region's colour, or the appellation default when it has none. */
  function RegionColor(c: Option<string>): string {
    if Shared.Truthy(c) then c.value else "#c27ba0"
  }

  /** Appellations take the region colour; everything else is drawn green. */
  function FeatureColor(ftype: string, regionColor: Option<string>): string {
    if ftype == "Appellation" then RegionColor(regionColor) else "#228b22"
  }

  /** One turn of the colour loop: the feature's colour is set, and a wrapped Feature also
      records its colour and type in its properties. A FeatureCollection is left alone. */
  function Colored(f: MapFeature, regionColor: Option<string>): MapFeature {
    var color := FeatureColor(f.ftype, regionColor);
    if f.GeoLayer? && f.geo.FeatureObject? then
      var props := f.geo.feature.properties.GetOr(map[]);
      var tagged := props["color" := PStr(color)]["ftype" := PStr(f.ftype)];
      f.(color := Some(color), geo := FeatureObject(f.geo.feature.(properties := Some(tagged))))
    else f.(color := Some(color))
  }

  /** The style `style_function` gives a feature: fill and line colour, line weight and
      fill opacity. */
  datatype Style = Style(color: Prop, weight: nat, fillOpacity: real)

  /** `style_function(feature)`: weight 1 and opacity 0.4 for an appellation, 2 and 0.6
      for anything else (an absent type counts as "Unknown"); the colour is the
      feature's own, else the default for its type. A `null` properties member makes the
      lookup fail, modelled as `None`. */
  function StyleFunction(f: Feature): (s: Option<Style>)
    ensures s.None? <==> f.properties.None?
    ensures s.Some? ==> (s.value.weight == 1 <==> "ftype" in f.properties.value && f.properties.value["ftype"] == PStr("Appellation"))
    ensures s.Some? ==> (s.value.weight == 1 ==> s.value.fillOpacity == 0.4) && (s.value.weight == 2 ==> s.value.fillOpacity == 0.6)
    ensures s.Some? ==> (s.value.weight == 2 <==> !("ftype" in f.properties.value && f.properties.value["ftype"] == PStr("Appellation")))
    ensures s.Some? && "color" in f.properties.value ==> s.value.color == f.properties.value["color"]
    ensures s.Some? && "color" !in f.properties.value ==>
      s.value.color == PStr(if "ftype" in f.properties.value && f.properties.value["ftype"] == PStr("Appellation")
                            then "#c27ba0" else "#228b22")
  {
    if f.properties.None? then None
    else
      var props := f.properties.value;
      var isApp := "ftype" in props && props["ftype"] == PStr("Appellation");
      var fallback := PStr(if isApp then "#c27ba0" else "#228b22");
      Some(Style(if "color" in props then props["color"] else fallback,
                 if isApp then 1 else 2, if isApp then 0.4 else 0.6))
  }

  /** The features `folium.GeoJson` styles one by one for a layer. */
  function DrawnFeatures(geo: GeoJson): seq<Feature> {
    match geo
    case FeatureObject(f) => [f]
    case FeatureCollection(fs) => fs
    case GeometryObject(_) => []
  }

  /** A drawn polygon is styled by what the colour loop wrote: an appellation in its
      region's colour at weight 1 and opacity 0.4, a vineyard green at weight 2 and 0.6. */
  lemma PolygonStyle(geo: GeoJson, name: string, fid: int, regionColor: Option<string>, ftype: string)
    requires geo.GeometryObject? && (geo.geometry.Polygon? || geo.geometry.MultiPolygon?)
    requires ftype == "Appellation" || ftype == "Vineyard"
    ensures var f := Colored(Classify(geo, name, fid, ftype)[0], regionColor);
      && f.GeoLayer? && f.geo.FeatureObject?
      && StyleFunction(f.geo.feature) == Some(
           if ftype == "Appellation" then Style(PStr(RegionColor(regionColor)), 1, 0.4)
           else Style(PStr("#228b22"), 2, 0.6))
  {
  }

  /** As written, the features of an appellation's FeatureCollection get no colour or
      type, so a region coloured red still sees its appellation drawn green, at the
      vineyard weight. */
  lemma CollectionStyleAsWritten()
    ensures var geo := FeatureCollection([Feature(Some(Polygon([])), Some(map[]))]);
      var f := Colored(Classify(geo, "A", 1, "Appellation")[0], Some("#ff0000"));
      StyleFunction(DrawnFeatures(f.geo)[0]) == Some(Style(PStr("#228b22"), 2, 0.6))
  {
  }

  /** The properties of a feature after it is tagged with a colour and a type. */
  function Tagged(f: Feature, color: string, ftype: string): Feature {
    f.(properties := Some(f.properties.GetOr(map[])["color" := PStr(color)]["ftype" := PStr(ftype)]))
  }

  /** The colour loop as the page means it: every drawn feature, the members of a
      FeatureCollection included, records the colour and the type. */
  function ColoredIntended(f: MapFeature, regionColor: Option<string>): MapFeature {
    var color := FeatureColor(f.ftype, regionColor);
    if f.GeoLayer? && f.geo.FeatureObject? then
      f.(color := Some(color), geo := FeatureObject(Tagged(f.geo.feature, color, f.ftype)))
    else if f.GeoLayer? && f.geo.FeatureCollection? then
      var fs := f.geo.features;
      f.(color := Some(color),
         geo := FeatureCollection(seq(|fs|, i requires 0 <= i < |fs| => Tagged(fs[i], color, f.ftype))))
    else f.(color := Some(color))
  }

  /** With the intended loop every drawn feature of every layer is styled by its entity's
      type and colour. */
  lemma IntendedStyle(f: MapFeature, regionColor: Option<string>, i: nat)
    requires f.ftype == "Appellation" || f.ftype == "Vineyard"
    requires f.GeoLayer? && (f.geo.FeatureObject? || f.geo.FeatureCollection?)
    requires i < |DrawnFeatures(ColoredIntended(f, regionColor).geo)|
    ensures StyleFunction(DrawnFeatures(ColoredIntended(f, regionColor).geo)[i]) == Some(
      if f.ftype == "Appellation" then Style(PStr(RegionColor(regionColor)), 1, 0.4)
      else Style(PStr("#228b22"), 2, 0.6))
  {
  }

  /** The list of features the page builds, updated in place. */
  class MapBuilder {
    var features: seq<MapFeature>

    constructor ()
      ensures features == []
    {
      features := [];
    }

    /** `add_feature(geo, name, fid, ftype)`. */
    method AddFeature(geo: GeoJson, name: string, fid: int, ftype: string)
      modifies this
      ensures features == old(features) + Classify(geo, name, fid, ftype)
    {
      if geo.GeometryObject? && geo.geometry.Point? {
        var coords := geo.geometry.coordinates;
        features := features + [Marker(LatLng(coords.lat, coords.lon), name, fid, ftype, None)];
      } else if geo.GeometryObject? && (geo.geometry.Polygon? || geo.geometry.MultiPolygon?) {
        var feature := Feature(Some(geo.geometry), Some(Tags(name, fid, ftype)));
        features := features + [GeoLayer(FeatureObject(feature), name, fid, ftype, None)];
      } else if geo.FeatureCollection? {
        features := features + [GeoLayer(geo, name, fid, ftype, None)];
      }
    }

    /** One of the two loops over the entities to render. */
    method AddEntities(es: seq<Entity>, ftype: string)
      modifies this
      ensures features == old(features) + FeaturesOf(es, ftype)
    {
      for i := 0 to |es|
        invariant features == old(features) + FeaturesOf(es[..i], ftype)
      {
        assert es[..i + 1][..i] == es[..i];
        assert FeaturesOf(es[..i + 1], ftype) == FeaturesOf(es[..i], ftype) + Contribution(es[i], ftype);
        if es[i].geom.Some? {
          AddFeature(es[i].geom.value, es[i].name, es[i].id, ftype);
        }
      }
      assert es[..|es|] == es;
    }

    /** The colour loop, updating every feature in place. */
    method AssignColors(regionColor: Option<string>)
      modifies this
      ensures |features| == |old(features)|
      ensures forall i :: 0 <= i < |features| ==> features[i] == Colored(old(features)[i], regionColor)
    {
      var done: seq<MapFeature> := [];
      for i := 0 to |features|
        invariant |done| == i
        invariant forall j :: 0 <= j < i ==> done[j] == Colored(features[j], regionColor)
      {
        done := done + [Colored(features[i], regionColor)];
      }
      features := done;
    }
  }

  /** Builds the page's features and its initial view: the appellations, then the
      vineyards, the view taken from the first feature, then the colours. */
  method BuildMap(apps: seq<Entity>, vines: seq<Entity>, regionColor: Option<string>)
    returns (fs: seq<MapFeature>, view: View)
    ensures view == InitialView(PageFeatures(apps, vines))
    ensures |fs| == |PageFeatures(apps, vines)|
    ensures forall i :: 0 <= i < |fs| ==> fs[i] == Colored(PageFeatures(apps, vines)[i], regionColor)
  {
    var builder := new MapBuilder();
    builder.AddEntities(apps, "Appellation");
    builder.AddEntities(vines, "Vineyard");
    view := InitialView(builder.features);
    builder.AssignColors(regionColor);
    fs := builder.features;
  }
}
