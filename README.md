# winelib, modelled in Dafny

winelib is a personal wine cellar and tasting journal built on Streamlit, SQLAlchemy and
folium. This project models its data logic and proves properties of it:

- **Geometry resolution.** An appellation or a vineyard is located on a map by trying
  several lookup tables in a fixed order. For an appellation: the US AVA table, the
  French INAO cadastre, then a per-country PDO table memoised in a caller's dict. For a
  vineyard: the regional vineyard files. The GeoJSON stored on the record is the last
  resort.
- **Map framing.** A GeoJSON object becomes a bounding box and a centre. The map page
  classifies features as markers or polygons and colours them.
- **Views and forms.** The view and form logic that is plain data: grouping tastings
  into cards, visit and Michelin-star counts, vintage labels and sort keys, cellar and
  directory filters, the wine box of a producer with its "New Vintage" entries, and the
  remaining state and bottle updates.
- **Seeding.** The CSV seeding of the reference tables: value coercion per column type,
  the rules that skip a table, and the abort when a coercion raises.

Positions follow section 3.1.1 of RFC 7946 (`[longitude, latitude]`). Geometry, Feature
and FeatureCollection objects follow sections 3.1, 3.2 and 3.3 of RFC 7946. A bounding
box is returned the way folium expects it: `[[minLat, minLng], [maxLat, maxLng]]`.
Dates read from CSV files are the `full-date` of section 5.6 of RFC 3339
(`YYYY-MM-DD`), parsed the way `datetime.strptime(s, "%Y-%m-%d")` does.

Modules, one per source file or shared concern:

| module | file | models |
|---|---|---|
| `Wrappers`, `Strings`, `Lists`, `Sorting`, `Numbers`, `Dates` | `wrappers.dfy` … `dates.dfy` | Python built-ins the core relies on: `Option`, `str` methods, comprehensions, stable `sorted`, `int()`/`float()`, `strptime` and `date` |
| `Shared` | `shared.dfy` | `shared.py`: region name, region colours, get-or-create of a region, `ISO_MAP` |
| `GeoJson` | `geo_json.dfy` | GeoJSON objects and `get_geometry_bounds` |
| `GeoSources` | `geo_sources.dfy` | the lookup-table builders of `geo_utils.py` over an abstract disk |
| `GeoResolve` | `geo_resolve.dfy` | `resolve_app_geometry` (with its in-place PDO memo) and `resolve_vine_geometry` |
| `GeoMaps` | `geo_maps.dfy` | the framing of `create_appellation_map` and `create_wine_combined_map` |
| `MapView` | `map_view.dfy` | `views/map.py`: vineyard labels, feature classification, colouring and styling |
| `Labels` | `labels.dfy` | the location group, vintage label and meta line shared by several views |
| `Details` | `details.dfy` | `views/details.py` |
| `TastingHistory` | `tasting_history.dfy` | `views/tasting_history.py` |
| `Summary` | `summary.dfy` | `views/summary.py` |
| `Cellar` | `cellar.dfy` | `views/cellar.py` |
| `Directory` | `directory.dfy` | `views/directory.py` |
| `Forms` | `forms.dfy` | `forms.py` |
| `InitDb` | `init_db.dfy` | `init_db.py` |

The file system is a `Disk`: a map from the paths that exist to their parsed frames,
with `None` for a file that exists but cannot be read. A lookup table is a
`map<Value, Option<Geometry>>`. Where the source mutates in place, the model does too:
- the PDO memo (`GeoResolve.PdoLookups`);
- the map page's feature list (`MapView.MapBuilder`);
- the region table (`Shared.RegionTable`);
- the session state (`Forms.SessionState`);
- a bottle (`Forms.Bottle`);
- the seeded tables (`InitDb.Session`).

Loops of the source are methods with loop invariants, each proved equal to a
specification function about which the lemmas speak.

## Model

| member | source | states |
|---|---|---|
| `Shared.GetRegionName` | shared.py:62-68 | the name of the attached region exactly when one is attached, `None` otherwise; total |
| `Shared.FindFrom` | shared.py:55-56 | the first row from a position on whose name matches, or `None` exactly when no later row has that name |
| `Shared.RegionColorsMap` | shared.py:46-49 | every key of the colours map is the name of some region |
| `Shared.RegionColorsMapExact` | shared.py:46-49 | with unique names, a region is in the colours map iff its colour is truthy, and maps to its own colour |
| `Shared.GetOrCreateResult` | shared.py:51-60 | a missing or blank name returns `None` and leaves the table unchanged; otherwise the returned row has the trimmed name, the table only grows, by at most one row, and grows exactly when no row had the trimmed name |
| `Shared.GetOrCreateKeepsUnique` | shared.py:54-60 | get-or-create keeps region names unique |
| `Shared.GetOrCreateIdempotent` | shared.py:54-60 | a second call with the same name returns the same region and adds nothing |
| `Shared.RegionTable.GetOrCreate` | shared.py:51-60 | the in-place table update is the get-or-create specification, and name uniqueness is kept |
| `GeoJson.Join` | geo_utils.py:276-278 | the union of two boxes is empty only when both are |
| `GeoJson.JoinCommutative` | geo_utils.py:276-278 | uniting boxes does not depend on the order |
| `GeoJson.JoinAssociative` | geo_utils.py:276-278 | uniting boxes does not depend on the grouping |
| `GeoJson.EnvelopeAppend` | geo_utils.py:276-290 | the box of two position lists is the union of their boxes |
| `GeoJson.EnvelopeTight` | geo_utils.py:288-290 | the box holds every position, each of its four sides is reached by a position, and it is empty exactly when there are no positions |
| `GeoJson.GetGeometryBounds` | geo_utils.py:256-295 | the loop that collects the features' geometries computes the bounds function (none for a missing object, an empty collection or a feature without geometry) |
| `GeoJson.UnionEnvelope` | geo_utils.py:272-278 | uniting the geometries one at a time gives the box of all their positions |
| `GeoJson.PointBounds` | geo_utils.py:288-290 | a Point `[lon, lat]` gives the box `[[lat, lon], [lat, lon]]`, coordinates swapped |
| `GeoJson.CollectionBoundsUnion` | geo_utils.py:268-278 | the bounds of a collection are the union of the bounds of its parts, over the features that have a geometry |
| `GeoJson.CollectionBoundsOrder` | geo_utils.py:268-278 | the order of a collection's features does not change its bounds |
| `GeoJson.SingleFeatureCollection` | geo_utils.py:268-282 | a one-feature collection has the bounds of that feature |
| `GeoJson.Center` | geo_utils.py:354-356 | the centre is equidistant from the box's south and north edges, and from its west and east edges |
| `GeoJson.CenterInside` | geo_utils.py:351-356 | the centre of a non-empty box lies within it |
| `GeoSources.ToDictDomain` | geo_utils.py:72 | `to_dict()` has a key for exactly the key-column values of the rows |
| `GeoSources.ToDictLastWins` | geo_utils.py:72 | for a duplicated key, the geometry of the last row holding it is kept |
| `GeoSources.InaoData` | geo_utils.py:65-74 | a missing or unreadable file, or one without `id_app`, gives `{}`; otherwise the table is keyed by `id_app` |
| `GeoSources.CountryName` | geo_utils.py:79 | the file stem is `ISO_MAP[iso.upper()]`, or `iso.lower()` when the code is not mapped |
| `GeoSources.PdoPathLowerCase` | geo_utils.py:79-80 | country codes are case-insensitive: "fr" names the French file |
| `GeoSources.PdoPathGreece` | geo_utils.py:79-80 | "EL" and "GR" name two different files ("greece" and "gr") |
| `GeoSources.PdoPathUnmapped` | geo_utils.py:79-80 | an unmapped code names the file after the lower-cased code |
| `GeoSources.CountryPdoData` | geo_utils.py:77-91 | a missing or unreadable file gives `{}`; keyed by `pdo_id` when present, else by `osm_id`, else `{}` |
| `GeoSources.AvaTableKeys` | geo_utils.py:155-163 | every AVA key is a string starting "US-AVA-", and the keys are exactly those of the rows with a truthy `ava_id` |
| `GeoSources.AvaKeyExamples` | geo_utils.py:158-161 | id 42 is stored under "US-AVA-42", a text id under "US-AVA-" plus its text; 0, "" and `None` are falsy, NaN truthy |
| `GeoSources.AvaFileTable` | geo_utils.py:144-167 | a missing or unreadable AVA file gives `{}` |
| `GeoSources.AvaData` | geo_utils.py:144-167 | the row-by-row loop builds the AVA table |
| `GeoSources.SafeName` | geo_utils.py:107 | the slug is the lower-cased region with each " " and "/" replaced by "_", so it has the region's length and holds neither |
| `GeoSources.VineyardGeoPaths` | geo_utils.py:93-119 | the paths are existing files; none without a region; every regional match is included, and every path is a regional match or the premier-cru file; the premier-cru file is included exactly for bourgogne/burgundy with a premier-cru or absent appellation name (or when it matches the region's pattern) |
| `GeoSources.PremierCruBroadLoad` | geo_utils.py:113-117 | a Burgundy load without appellation includes the premier-cru file |
| `GeoSources.PremierCruAppellation` | geo_utils.py:100-117 | a "Premier Cru" appellation in bourgogne includes the premier-cru file |
| `GeoSources.PremierCruEmptyName` | geo_utils.py:101-114 | an empty appellation name is neither absent nor a premier cru: no premier-cru file |
| `GeoSources.PremierCruOtherRegion` | geo_utils.py:100-113 | outside Burgundy the premier-cru file is never added |
| `GeoSources.VineyardFileTable` | geo_utils.py:133-139 | a vineyard file is keyed by `id` when present, else by `vineyard_id`, else contributes nothing |
| `GeoSources.VineyardTable` | geo_utils.py:124-129 | a missing region or no files gives `{}` |
| `GeoSources.VineyardData` | geo_utils.py:122-141 | `{}` for a missing region, otherwise the files' tables merged in the given order |
| `GeoSources.MergeInOrder` | geo_utils.py:130-139 | the loop of `update` calls over the files builds the merged table |
| `GeoSources.MergeFilesLastWins` | geo_utils.py:131-141 | a key is in the merge iff some file holds it, and maps to its value in the last file holding it |
| `GeoSources.MergeOrderIrrelevantWhenDisjoint` | geo_utils.py:119-132 | when no key is shared between files, the unspecified set iteration order does not change the merge |
| `GeoSources.LastHolder` | geo_utils.py:131-141 | a key held by one file only maps to that file's value |
| `GeoSources.MergeFilesLocal` | geo_utils.py:131-141 | files outside the list, corrupt or not, do not change the merge |
| `GeoResolve.InaoProbe` | geo_utils.py:201-203 | the INAO table is probed with the id as stored, then with its decimal text, a null entry counting as missing |
| `GeoResolve.PdoIso` | geo_utils.py:209-214 | the country part is the second `-`-separated part of the PDO id, never "FR" or "AVA", and contains no "-" |
| `GeoResolve.AppResolution` | geo_utils.py:169-231 | the result is the stored geometry or the hit of a gated source (AVA, INAO with a non-null probe, PDO); the memo exists iff one was passed, keeps its entries and gains only the loaded table of the record's own country |
| `GeoResolve.MemoTransparent` | geo_utils.py:215-220 | a consistent memo changes nothing but speed: same geometry as without a memo, and the memo stays consistent |
| `GeoResolve.ResolveTwice` | geo_utils.py:169-231 | resolving again with the memo left by a first call gives the same result and memo |
| `GeoResolve.AvaFirst` | geo_utils.py:176-183 | a US appellation whose PDO id is in the AVA table gets that entry, whatever the other tables hold |
| `GeoResolve.AvaGated` | geo_utils.py:176 | outside the US test the AVA table is never consulted |
| `GeoResolve.InaoGated` | geo_utils.py:188-196 | without a non-zero INAO id and the three-way France test the INAO table is never consulted |
| `GeoResolve.InaoSecond` | geo_utils.py:188-206 | after an AVA miss, an INAO hit is returned and the memo is untouched |
| `GeoResolve.PdoThird` | geo_utils.py:209-224 | after an AVA miss and an INAO miss, a PDO hit in the record's country table is returned, and a passed memo gains that table under the country code |
| `GeoResolve.PdoSkipped` | geo_utils.py:211-214 | a PDO id without a usable country part leaves the memo untouched and the result independent of it |
| `GeoResolve.StoredFallback` | geo_utils.py:226-231 | when no table holds the record, the stored GeoJSON (or `None`) is returned |
| `GeoResolve.PdoIsoOfId` | geo_utils.py:211-214 | for an id `a-iso...`, "FR" and "AVA" skip the PDO branch and any other code selects its table |
| `GeoResolve.FrenchPdoId` | geo_utils.py:192-194 | a PDO id with a "-FR-" segment passes the France test whatever the region says |
| `GeoResolve.InaoStringProbe` | geo_utils.py:201-203 | a null entry under the integer id falls through to the string id |
| `GeoResolve.PdoLookups.ResolveApp` | geo_utils.py:169-231 | the imperative resolver, writing `pdo_lookups[iso]` in place, returns the specified geometry and leaves the specified memo |
| `GeoResolve.EffectiveRegion` | geo_utils.py:237-238 | the region passed in when truthy, else the vineyard's own |
| `GeoResolve.ResolveVine` | geo_utils.py:233-251 | without a truthy vineyard id, the stored geometry; with one, the entry of the supplied table, else of the region's loaded vineyard table (none for a falsy region), and the stored geometry on a miss |
| `GeoResolve.VineNoStringProbe` | geo_utils.py:243-244 | the vineyard table is probed with the integer id only: an entry under its text is not found |
| `GeoResolve.VineRegionDefault` | geo_utils.py:236-241 | without a region argument the vineyard's own region selects the files |
| `GeoMaps.ShapeLayer` | geo_utils.py:362-384 | a Point is drawn as a marker at `[lat, lon]`, anything else as a GeoJSON layer of weight 1 and opacity 0.4 |
| `GeoMaps.AppellationMap` | geo_utils.py:333-394 | no map without geometry; otherwise zoom 10, one layer, fitted to the geometry's bounds |
| `GeoMaps.AppellationPointMap` | geo_utils.py:351-373 | a Point appellation is a marker at `[lat, lon]`, and the map is centred on and fitted to that point |
| `GeoMaps.AppellationCenterInside` | geo_utils.py:351-387 | whenever the map is fitted to a box, its initial centre lies inside the box |
| `GeoMaps.Targets` | geo_utils.py:453-471 | the appellation (named, or "Appellation") comes first when given, the vineyard last when given, with their colours |
| `GeoMaps.Captions` | geo_utils.py:514 | one "Type: name" caption per target |
| `GeoMaps.TargetLayers` | geo_utils.py:491-505 | one layer per target, in order |
| `GeoMaps.WineCombinedMapAsWritten` | geo_utils.py:439-521 | no target gives `(None, "")`, otherwise a map |
| `GeoMaps.WineCombinedMap` | geo_utils.py:439-521 | the same as written but fitted to the union of the targets' boxes |
| `GeoMaps.JoinHolds` | geo_utils.py:507-509 | uniting boxes only grows them |
| `GeoMaps.TargetsBoundsHold` | geo_utils.py:507-509 | the union box holds every position of every target |
| `GeoMaps.CombinedShowsAll` | geo_utils.py:507-509 | the intended map's box holds each position of the appellation and of the vineyard |
| `GeoMaps.CombinedMissesVineyard` | geo_utils.py:478-509 | as written, a vineyard point away from the appellation point is outside the fitted box |
| `GeoMaps.CombinedCenterFromAppellation` | geo_utils.py:477-486 | the centre comes from the first target only, in both versions |
| `GeoMaps.CombinedLabel` | geo_utils.py:514 | the label is "Appellation: a + Vineyard: v", or the one part present |
| `GeoMaps.CombinedLayers` | geo_utils.py:491-505 | a Point target becomes a marker with a "Type: name" tooltip, other shapes a GeoJSON layer named after the target |
| `MapView.FormatVCases` | views/map.py:79-81 | the vineyard label is the name alone without sub-region and village, else the present parts in order joined by " - ", a blank name dropping out ("sub - village", "sub", "village") |
| `MapView.FormatVParts` | views/map.py:79-81 | the parts joined are exactly the truthy sub-region, village and name, in that order |
| `MapView.DefaultRegionIndex` | views/map.py:51-53 | the first position of "Loire" among the region names, else 0 |
| `MapView.AppsToRender` | views/map.py:96-98 | the region's appellations whose name is selected, none when nothing is selected |
| `MapView.IndexByLastWins` | views/map.py:83 | in a dict comprehension the last element with a key is kept |
| `MapView.IndexByDomain` | views/map.py:83 | a dict comprehension has a key for exactly the keys of the list's elements |
| `MapView.VMapLastWins` | views/map.py:83-84 | the keys are exactly the vineyards' labels, and a shared label selects the last vineyard carrying it |
| `MapView.IndexByValues` | views/map.py:83 | each dict value is an element of the list filed under its own key |
| `MapView.VinesToRender` | views/map.py:101-103 | one vineyard per selected label, each of the region and carrying that label |
| `MapView.Classify` | views/map.py:108-147 | a Point becomes a marker at `[lat, lon]`, a polygon a Feature with name, id and type, a FeatureCollection itself; any other shape adds nothing |
| `MapView.ClassifyKeepsBounds` | views/map.py:108-147 | classifying keeps a geometry's bounds, a marker being rebuilt as its Point (the map is framed from those bounds at line 173) |
| `MapView.FeaturesOf` | views/map.py:149-161 | at most one feature per entity, each of the entity's type and not yet coloured |
| `MapView.FeaturesOfAppend` | views/map.py:149-161 | the features of a concatenation are the concatenated features |
| `MapView.AppellationsFirst` | views/map.py:149-161 | all appellation features come before all vineyard features |
| `MapView.InitialView` | views/map.py:165-185 | zoom 6 at `[46.0, 4.0]` without features; otherwise centred inside the first feature's box and fitted to it |
| `MapView.FramedByFirst` | views/map.py:169-185 | the first drawn entity alone decides the box |
| `MapView.MarkerFirstView` | views/map.py:173-179 | a first marker centres the map on its own location |
| `MapView.StyleFunction` | views/map.py:202-213 | weight 1 and opacity 0.4 exactly for an appellation, else weight 2 and 0.6; the feature's colour when it has one, else "#c27ba0" for an appellation and "#228b22" for anything else |
| `MapView.PolygonStyle` | views/map.py:189-213 | a drawn polygon is styled by its region's colour (default "#c27ba0") as an appellation, green as a vineyard |
| `MapView.CollectionStyleAsWritten` | views/map.py:195-213 | the features of an appellation's FeatureCollection get no colour and are drawn green at the vineyard weight |
| `MapView.IntendedStyle` | views/map.py:189-213 | with the intended loop every drawn feature is styled by its entity's type and colour |
| `MapView.MapBuilder.AddFeature` | views/map.py:108-147 | `add_feature` appends the classified feature to the page's list |
| `MapView.MapBuilder.AddEntities` | views/map.py:149-161 | each loop appends the features of its entities, in order |
| `MapView.MapBuilder.AssignColors` | views/map.py:189-200 | the colour loop updates every feature in place, keeping the count |
| `MapView.BuildMap` | views/map.py:89-200 | the features returned are the coloured appellation-then-vineyard features, and its view comes from the first one |
| `Labels.LocText` | views/details.py:85-87 | `str(loc)`: the text itself, "None" for a missing value |
| `Labels.LocGroup` | views/details.py:84-87 | an "H" prefix is "Home", else a "WB" prefix "WineBanc", else the location itself |
| `Labels.LocGroupIdempotent` | views/cellar.py:52-55 | a group name is its own group |
| `Labels.VintageLabel` | views/details.py:136 | "NV - d" exactly for "NV" with a disgorgement date, the stored vintage otherwise |
| `Labels.VintageLabelKeepsVintage` | views/cellar.py:58 | the label is present iff the vintage is, and differs only for "NV", keeping "NV - " in front |
| `Labels.Meta` | views/details.py:157-167 | city and stars joined by " • ", either alone, or "&nbsp;" when both are empty |
| `Details.EntryOf` | views/details.py:131-144 | a card line carries the vintage label, and the place's city and stars (empty and 0 without a place) |
| `Details.Header` | views/details.py:120-129 | a card is named after the place, else the free-text location, else "Unknown", and links only to a non-zero place id |
| `Details.GroupTastings` | views/details.py:117-144 | the grouping loop computes the grouping specification |
| `Details.GroupKeys` | views/details.py:117-129 | the cards are keyed by the distinct (date, place) keys in order of first occurrence |
| `Details.GroupDomain` | views/details.py:117-122 | there is a card exactly for each key a tasting has |
| `Details.GroupWines` | views/details.py:130-144 | each card holds exactly the tastings with its key, in query order, and is not empty |
| `Details.GroupHeader` | views/details.py:122-129 | a card's header comes from the first tasting with its key |
| `Details.EveryTastingOnce` | views/details.py:117-144 | every tasting lands in exactly one card: the cards hold as many lines as there are tastings |
| `Details.Events` | views/details.py:147 | `list(grouped.values())` in key order |
| `Details.LaterTotal` | views/details.py:148 | the newest-first order on cards is a total preorder, so sorting by it is well defined |
| `Details.MakeCard` | views/details.py:151-167 | a link exactly for a non-zero place id, and the meta line of the card's first wine |
| `Details.TastingCards` | views/details.py:146-169 | the cards are the groups sorted newest first, each completed by its link and meta line |
| `Details.MakeCards` | views/details.py:150-169 | the rendering loop completes every sorted card, in order, with its link and meta line |
| `Details.CardsOrdered` | views/details.py:146-148 | the sorted cards are a permutation of the groups, newest first, one per distinct key |
| `Details.VintageLabels` | views/details.py:266-273 | the labels collected are exactly those of the rows with a truthy vintage |
| `Details.FormatVList` | views/details.py:266-274 | the loop computes the sorted distinct labels, largest first |
| `Details.FormatVListContents` | views/details.py:266-274 | each label of a truthy vintage exactly once, in strictly descending string order, and nothing else |
| `Details.DateSet` | views/details.py:542-543 | the distinct non-null dates |
| `Details.VisitCountBounds` | views/details.py:542-545 | the count is at least each side's distinct dates and at most the dated records, and 0 exactly when nothing is dated |
| `Details.SameDayCountsOnce` | views/details.py:544-545 | a visit on a day that has a tasting note does not change the count |
| `Details.CoerceIdAsWritten` | views/details.py:677-680 | a missing parameter gives 0, a finite float value its truncation, and a text whose float is infinite ("inf", "1e309") raises (the same coercion recurs at lines 917-920) |
| `Details.InfinityEscapes` | views/details.py:677-680 | "inf" and "1e309" get past the `except` clause, where the intended coercion gives 0 |
| `Details.CoerceId` | views/details.py:677-680 | a finite number is truncated, any other parameter is 0 (also for lines 917-920) |
| `Details.CoerceIdAgrees` | views/details.py:677-680 | the two agree wherever the written one returns; "n" and "n.0" are n for `abs(n) <= 2**53` |
| `TastingHistory.PeriodRange` | views/tasting_history.py:90-122 | the end is `max(newest, today)`; YTD, Last 30 Days and All start as the source says; a 2-tuple picker value is used as-is; the Custom default start is clamped to the end |
| `TastingHistory.PeriodRangeSound` | views/tasting_history.py:90-122 | without a picked pair, the range starts no earlier than the oldest tasting, is not empty and ends no earlier than today and the newest tasting |
| `TastingHistory.Location` | views/tasting_history.py:77 | the place name, else the raw location |
| `TastingHistory.FilterRows` | views/tasting_history.py:125-136 | a row is kept iff it passes every active filter and, unless the period is All, lies in the range |
| `TastingHistory.NoFilterKeepsAll` | views/tasting_history.py:125-136 | no selection and the whole period keep every row, in order |
| `TastingHistory.RangeInclusive` | views/tasting_history.py:133-135 | both ends of the range are kept |
| `TastingHistory.ShownVisitsAsWritten` | views/tasting_history.py:192-207 | no visits under a wine filter; with a location selection a visit passes when ANY place has a selected name |
| `TastingHistory.ShownVisits` | views/tasting_history.py:192-207 | a visit passes when its own place has a selected name |
| `TastingHistory.LocationFilterLeaks` | views/tasting_history.py:204-205 | filtering on "Noma" shows the visit to "Frantzen" as written and hides it as intended |
| `TastingHistory.ShownVisitsAgree` | views/tasting_history.py:192-207 | without a location selection the two agree |
| `TastingHistory.VisitEvents` | views/tasting_history.py:209-220 | one event per visit, in order |
| `TastingHistory.LaterEventTotal` | views/tasting_history.py:248 | the newest-first, visits-first order on events is a total preorder |
| `TastingHistory.MergeEventsOrder` | views/tasting_history.py:247-248 | the merged events are a permutation of visits and groups, newest first, visits first on a day and each kind in its own order |
| `TastingHistory.UniquePlaces` | views/tasting_history.py:299-331 | the two loops compute the marker table specification |
| `TastingHistory.AfterVisitsMarkers` | views/tasting_history.py:302-313 | after the visits, one marker per visited geocoded place, count 1, type Visit |
| `TastingHistory.AfterRowsCounts` | views/tasting_history.py:315-331 | each geocoded row adds one to its place, a new place starting at 0 as a Tasting |
| `TastingHistory.UniquePlacesCounts` | views/tasting_history.py:299-331 | a marker shows (1 if visited) plus its tastings, is a Visit marker iff visited, and exists only for places with an event |
| `TastingHistory.MinOf` | views/tasting_history.py:343-344 | `min` is an element no larger than any |
| `TastingHistory.MaxOf` | views/tasting_history.py:343-344 | `max` is an element no smaller than any |
| `TastingHistory.MapFrame` | views/tasting_history.py:338-354 | the box is the tight box of the coordinates, the centre its midpoint, or `[47.0, 4.0]` without coordinates |
| `TastingHistory.Coordinates` | views/tasting_history.py:338-339 | the latitudes and longitudes of the markers, in insertion order |
| `Summary.SortVintage` | views/summary.py:22-25 | a missing, empty or "NV" vintage sorts as 9999, junk as 0 |
| `Summary.SortVintageOfYear` | views/summary.py:24 | a year written out sorts as that year |
| `Summary.VintageAxis` | views/summary.py:160 | the distinct vintages, ordered by `sort_vintage` (the same axis at line 236) |
| `Summary.NonVintageLast` | views/summary.py:160 | "NV" comes after every vintage sorting below 9999 (also at line 236) |
| `Summary.StarPlaces` | views/summary.py:45 | exactly the places with stars above 0 |
| `Summary.UniqueStars` | views/summary.py:45-58 | the loop sums the stars of the starred places visited by a tasting or a visit |
| `Summary.VisitedStarsProperties` | views/summary.py:52-58 | the total is 0 exactly when no starred place was visited, and more visits never lower it |
| `Summary.StarMap` | views/summary.py:71 | one entry per starred place id |
| `Summary.StarMapLastWins` | views/summary.py:71 | an id maps to the stars of the last place with that id, as the dict comprehension keeps it |
| `Summary.SetSumRemove` | views/summary.py:73-75 | the sum over the set does not depend on the iteration order |
| `Summary.CumulativeStars` | views/summary.py:62-75 | the loop sums the stars of each distinct (date, place) pair of tastings and visits |
| `Summary.SetSumUnion` | views/summary.py:67 | a same-day tasting and visit count once: the union's total is the two totals less the shared total |
| `Summary.UnstarredAddsNothing` | views/summary.py:74 | a visit to a place without stars adds nothing |
| `Summary.TopTenSpec` | views/summary.py:123 | at most ten groups, all from the input, largest first, none left out larger than one kept (the same top-ten pattern at lines 137 and 214) |
| `Summary.GroupSizesAsWritten` | views/summary.py:123 | every group counted as written has a region (and line 137) |
| `Summary.GroupSizesAsWrittenFilters` | views/summary.py:123 | the written `groupby` gives exactly the groups with a region, with the same row counts and order as `GroupSizes` (and line 137) |
| `Summary.GroupSizes` | views/summary.py:123 | one group per distinct (name, id, region) key, with its row count (and line 137) |
| `Summary.MissingRegionDropped` | views/summary.py:123 | a producer whose wines have no region never reaches the top list as written |
| `Cellar.DeriveAll` | views/cellar.py:57-60 | row by row: the bottle, its location group, its vintage label ("NV" or the disgorgement form as `Labels.VintageLabel` gives it) and its quantity times its price |
| `Cellar.NoKeywordFrom` | views/cellar.py:68-72 | the keyword scan is false as soon as one keyword occurs |
| `Cellar.IsSingapore` | views/cellar.py:66-72 | false iff the location text contains "Paris", "Chemaze", "Beaune" or "Octavian" |
| `Cellar.SingaporeExamples` | views/cellar.py:66-72 | the match is on case-sensitive substrings, and a missing location is in Singapore |
| `Cellar.TotalOfAppend` | views/cellar.py:75 | the value of a concatenation is the sum of values |
| `Cellar.SingaporeValuePartition` | views/cellar.py:74-75 | every row's value is counted on exactly one side of the Singapore split |
| `Cellar.SingaporeValueAll` | views/cellar.py:74-75 | when every row is in Singapore the SG value is the whole value |
| `Cellar.Narrow` | views/cellar.py:102-106 | an inactive filter keeps every row, an active one the passing rows |
| `Cellar.FilteredRows` | views/cellar.py:101-106 | a row is kept iff it passes all five filters |
| `Cellar.NarrowFiltered` | views/cellar.py:101-106 | one more filter step keeps the table order |
| `Cellar.FilteredRowsInOrder` | views/cellar.py:101-106 | the chain of filters is one conjunctive filter in table order |
| `Cellar.NoSelectionShowsAll` | views/cellar.py:101-106 | an empty selection shows the whole table |
| `Directory.CleanLists` | views/directory.py:34 | the cleaned text has no quote, no surrounding blank and only characters of the original; every character of the original other than a bracket, a quote or a blank survives |
| `Directory.CleanColumn` | views/directory.py:34 | a missing value stays missing |
| `Directory.SplitItems` | views/directory.py:51 | one item per comma-separated part, none containing a comma |
| `Directory.AllItemsMembers` | views/directory.py:45-51 | an item comes from one cell of the column |
| `Directory.CollectItems` | views/directory.py:48-51 | the `extend` loop collects every cell's items |
| `Directory.ListOptions` | views/directory.py:52 | the non-empty items, each once, in strictly ascending order |
| `Directory.HasSelectedList` | views/directory.py:65-69 | false for an empty or missing cell, else true iff some selected value equals some item after stripping blanks and quotes |
| `Directory.OptionFindsItsRows` | views/directory.py:45-71 | every offered option selects the cell it came from |
| `Directory.ItemSelectsCell` | views/directory.py:65-69 | a non-empty item of a cell, selected, selects the cell |
| `Directory.SelectedByWitness` | views/directory.py:65-69 | one matching pair selects the cell |
| `Directory.ProducersShown` | views/directory.py:57-73 | a producer is kept iff it passes every active filter; a list selection drops producers without lists |
| `Directory.SearchIgnoresCase` | views/directory.py:73 | name search ignores letter case |
| `Directory.LatestDate` | views/directory.py:113 | the latest dated entry, `None` iff nothing is dated |
| `Directory.LatestOfBoth` | views/directory.py:102-113 | the latest date over both lists is the latest distinct date |
| `Directory.MakeRowVisits` | views/directory.py:102-115 | there is a last visit iff the visit count is not zero, and it is the latest counted date |
| `Directory.PlaceRows` | views/directory.py:99-115 | one row per place, in order |
| `Directory.RecentFirstTotal` | views/directory.py:118 | the latest-visit-first order, rows without a visit last, is a total preorder |
| `Directory.SortPlaces` | views/directory.py:118 | the same rows, latest visit first, rows without a visit last |
| `Directory.PlacesPageAsWritten` | views/directory.py:117-121 | as written the tab raises exactly when there are no places, never shows the notice, and otherwise shows the sorted rows |
| `Directory.PlacesPage` | views/directory.py:117-160 | no places give the "No places found." notice and never an exception; otherwise the sorted rows |
| `Directory.EmptyDirectoryRaises` | views/directory.py:117-121 | with no places the written tab raises where the intended one shows the notice; with places the two agree |
| `Directory.PlacesShown` | views/directory.py:130-135 | a place is kept iff it passes every active filter |
| `Directory.StarDisplayAsWritten` | views/directory.py:144 | two characters per star as written, nothing for 0 |
| `Directory.StarGlyphGarbled` | views/directory.py:144 | one star shows as two characters, neither a star |
| `Directory.StarDisplay` | views/directory.py:144 | n star glyphs for n > 0, else nothing |
| `Forms.WithDefault` | forms.py:11-13 | the key is set only when absent; other keys are unchanged |
| `Forms.Toggled` | forms.py:15-16 | the key is negated, every other key unchanged |
| `Forms.ToggleTwice` | forms.py:15-16 | toggling twice restores the state |
| `Forms.GetStateStable` | forms.py:11-13 | a second read changes nothing and reads the same value, whatever its default |
| `Forms.SessionState.GetState` | forms.py:11-13 | the in-place read sets an absent key to its default and returns the stored value |
| `Forms.SessionState.ToggleState` | forms.py:15-16 | the in-place toggle negates a set key; an unset key is a KeyError and changes nothing |
| `Lists.IndexOf` | forms.py:38 | `list.index`: a position holding the value, with no earlier position holding it (also the "Loire" lookup at views/map.py line 53) |
| `Forms.DefaultIndex` | forms.py:131-135 | the name's first position plus 2 in `[Select, Create New] + names`, or 0 when absent (the same at lines 153-157) |
| `Forms.VisitPlaceIndexAgrees` | forms.py:908-914 | the visit form's two-step offset lands where the one-step forms do |
| `Forms.ProducerIndexAsWritten` | forms.py:36-40 | 0 exactly when there is no default name or the database names lack it; otherwise 2 plus the position of its first occurrence in the names as the database ordered them |
| `Forms.CollationMisselects` | forms.py:32-40 | under a case-insensitive collation the box preselects the other producer |
| `Forms.ProducerIndex` | forms.py:36-40 | the index into the list the box shows, whose entry is the default name |
| `Forms.TypeEmoji` | forms.py:495-500 | a non-empty emoji without a space, starting with the same lead character |
| `Forms.TypeEmojiDistinct` | forms.py:495-500 | each wine type has its own emoji, none of them the fallback |
| `Forms.ChosenType` | forms.py:91 | the text after the first space, or the whole text without a space |
| `Forms.ChosenTypeOfOption` | forms.py:84-91 | reading the type back from its entry gives the type |
| `Forms.ChosenTypeAfter` | forms.py:91 | what follows a space-free prefix and one space |
| `Forms.FormatVinyCases` | forms.py:176-178 | the non-blank parts among sub-region, village and name joined by " - " ("sub - village", "sub", "village" when the name is blank), or the name when sub-region and village are both blank |
| `Forms.MakeLabelShape` | forms.py:504-515 | emoji and cuvee, the vintage in brackets when set, then " - " and the set details |
| `Forms.LabelShowsVintageLabel` | forms.py:507-511 | a wine entry's bracketed vintage is the label the detail pages show |
| `Forms.GroupWines` | forms.py:520-525 | the grouping loop computes the group specification |
| `Forms.GroupsOfContents` | forms.py:520-525 | a group holds exactly the wines with its key, in query order, and is not empty; a key no wine has gets none |
| `Forms.KeyInGroups` | forms.py:520-525 | there is a group for exactly the keys the wines have |
| `Forms.KeyLessStrict` | forms.py:531 | the tuple order is irreflexive, total and transitive |
| `Forms.KeyOrderTotal` | forms.py:531 | the tuple order is a total preorder |
| `Forms.SortedKeysOrdered` | forms.py:531 | the sorted keys are the groups' keys, each once, strictly ascending |
| `Forms.WineOptions` | forms.py:538-540 | one entry per wine of a group |
| `Forms.AddGroupWines` | forms.py:538-541 | the inner loop appends the group's entries and records their ids |
| `Forms.KeysHaveGroupsHolds` | forms.py:531-535 | every sorted key has its group |
| `Forms.AddGroups` | forms.py:533-547 | the outer loop builds options, `w_map` and `group_map` from Select and Create New Wine on |
| `Forms.WineBox` | forms.py:492-547 | the producer's box: the two commands, then each group in key order |
| `Forms.OptionsListEverything` | forms.py:533-547 | every group's "New Vintage" entry and every wine's entry is offered |
| `Forms.WineListed` | forms.py:549-559 | a wine of the producer is offered, so the default wine's index finds it |
| `Forms.GroupMapLookup` | forms.py:543-547 | `group_map` has one entry per group and, when those entries differ, each leads back to its own group |
| `Forms.GroupDefaults` | forms.py:565-582 | a group's defaults carry its type, cuvee, appellation and varietal, blank vintage, scores and disgorgement |
| `Forms.AddIdsSound` | forms.py:538-541 | after a group, every wine has its entry, old entries stay, and each entry leads to a wine carrying it |
| `Forms.IdsFromSound` | forms.py:533-547 | `w_map` holds every wine's entry, each leading to the id of a wine carrying it |
| `Forms.NewVintageEntriesCollide` | forms.py:544-545 | two different groups can share a "New Vintage" entry (the entry text is built at lines 513-514) |
| `Forms.EntryIsNoCommand` | forms.py:563-583 | every wine or group entry starts with an emoji's first character, so it is never a command (entries are built by the label at lines 504-515) |
| `Forms.ChooseWine` | forms.py:563-584 | Create New Wine and only it opens a new wine; a group entry opens a new vintage with that group's `NewVintageDefaults`; "Select..." gives nothing; every other entry, and only those, is an existing wine looked up with `w_map.get` |
| `Forms.BoxGroupMap` | forms.py:527-547 | with distinct group entries, the group map holds exactly them, each to its own non-empty group |
| `Forms.ChooseNewVintage` | forms.py:565-582 | choosing a group's "New Vintage" entry opens the form with that group's defaults |
| `Forms.ChooseListedWine` | forms.py:583-584 | choosing a wine's entry selects a wine carrying that entry |
| `Forms.Consumed` | forms.py:857 | a positive quantity drops by one, otherwise it stays; it never goes negative |
| `Forms.Bottle.Consume` | forms.py:855-857 | the in-place decrement |
| `Forms.PlaceChoiceAsWritten` | forms.py:939-945 | only the garbled text creates a place; other entries but "Select..." index `place_map` |
| `Forms.CreatePlaceUnreachable` | forms.py:939-945 | the offered Create New Place entry raises a KeyError as written (the box offers the real entry at line 914); the page shows the error and saves no visit |
| `Forms.PlaceChoice` | forms.py:939-947 | the offered Create New Place entry and only it creates; "Select..." and only it asks for a selection |
| `Forms.PlaceChoiceTotal` | forms.py:939-945 | every offered entry leads somewhere and none raises (the box offers the real entry at line 914) |
| `Dates.ParseDate` | init_db.py:104-108 | a parsed date is a valid calendar date |
| `Dates.ParseFullDate` | init_db.py:104-108 | `strptime` accepts a `full-date` exactly when it names a real date, and returns that date |
| `Dates.ParseFormat` | init_db.py:104-108 | reading back the written form of a date gives the date |
| `Dates.FormatParse` | init_db.py:104-108 | a `full-date` that parses is written back unchanged |
| `Dates.DaysBack` | views/tasting_history.py:107 | `today - timedelta(days=n)` is a valid earlier date |
| `Numbers.IntOfFloatText` | init_db.py:91-96 | `int(float(s))` overflows exactly when `float(s)` is an infinity (a text for `inf`, or a value at or past the largest double's rounding threshold), and otherwise truncates the value |
| `Numbers.IntOfFloatOfInt` | init_db.py:91-96 | `int(float(str(n))) == n` for `abs(n) <= 2**53`; `OverflowError` for `abs(n)` at or past the overflow threshold |
| `Numbers.IntOfFloatPointZero` | init_db.py:91-96 | "n.0" becomes n for `abs(n) <= 2**53`, and overflows at or past the threshold |
| `Numbers.SpecialTexts` | init_db.py:91-96 | "inf" overflows and "nan" is a value error |
| `Numbers.ToDouble` | init_db.py:91-96 | a value strictly between the negative and positive overflow thresholds stays finite with that value; any other becomes an infinity of its sign |
| `Numbers.ExponentOverflows` | init_db.py:91-96 | "1e309" overflows |
| `Numbers.ParseIntOfIntToString` | views/summary.py:24 | `int(str(n)) == n` |
| `InitDb.CoerceValueAsWritten` | init_db.py:84-110 | "" or a missing field is `None`; it raises exactly for an integer column whose text has an infinite float ("inf", "1e309") |
| `InitDb.InfiniteIntegerRaises` | init_db.py:91-96 | "inf" and "1e309" in an integer column raise |
| `InitDb.CoerceValue` | init_db.py:84-110 | "" or missing is `None`; each cell kind comes only from its column type; dates are valid; other columns keep the text |
| `InitDb.CoerceValueAgrees` | init_db.py:84-110 | the intended coercion agrees with the written one wherever that one returns |
| `InitDb.CoerceIntegers` | init_db.py:91-96 | "n" and "n.0" read as n for `abs(n) <= 2**53`; "inf" and integers at or past the overflow threshold are `None` |
| `InitDb.CoerceDates` | init_db.py:104-108 | a date written "YYYY-MM-DD" reads back as that date |
| `InitDb.LastText` | init_db.py:130-143 | the last text a line gives a header name, none iff the header lacks it |
| `InitDb.NamesOfRow` | init_db.py:130-143 | the dict's keys are distinct and are exactly the names the header has |
| `InitDb.ItemsLastText` | init_db.py:130-143 | the dict holds each name once, with the line's last text for it |
| `InitDb.ItemsFiltered` | init_db.py:141-145 | the record built from the dict is the record of the line |
| `InitDb.ItemsAny` | init_db.py:141-145 | an item passes a test exactly when some name, with its last text, passes it |
| `InitDb.FilterItems` | init_db.py:141-145 | `None` exactly when some item that names a column raises, otherwise the record of `Filtered` |
| `InitDb.FilteredFields` | init_db.py:141-145 | the record holds exactly the row's column fields, each coerced from its last text |
| `InitDb.FilterRow` | init_db.py:141-145 | coercing a row over the dict's items gives the written coercion's result: `None` exactly when a column name's last text raises |
| `InitDb.CoerceItems` | init_db.py:142-145 | the inner loop over the items builds the record of `FilterItems`, or stops with `None` at the first item that raises |
| `InitDb.FilteredAsWritten` | init_db.py:141-145 | `None` exactly when coercing the last text of some column name of the line raises, otherwise the record of `Filtered` |
| `InitDb.DuplicateHeaderKeepsLast` | init_db.py:141-145 | a row naming one column however often loads with the value of its last text whenever that coerces, whatever the earlier texts (such as "inf" under header `id,id`) hold |
| `InitDb.AnyTextOneName` | init_db.py:141-145 | in a row naming one column, some name passes a test exactly when that column with its last text does |
| `InitDb.OneNameFiltered` | init_db.py:141-145 | the record of a row naming one column holds the value of the last text alone |
| `InitDb.IntegerCoerces` | init_db.py:91-96 | the text of an integer a double holds exactly coerces to it, as written and as intended |
| `InitDb.LastTextRaises` | init_db.py:141-145 | a row raises when the last text it gives some column raises, whatever its other fields hold |
| `InitDb.Records` | init_db.py:141-149 | one record per row, in order |
| `InitDb.RecordsHaveOnlyColumns` | init_db.py:141-147 | every field of every record is a column of the table |
| `InitDb.Session.SeedTable` | init_db.py:113-152 | a missing CSV, a non-empty table or an empty CSV leaves the tables unchanged; a row whose coercion raises aborts with the tables as they were; otherwise one record per row, and the count is the row count |
| `InitDb.Session.LoadRows` | init_db.py:141-152 | the row loop adds the records of the written coercion and counts the rows, or aborts and restores the tables |
| `InitDb.RecordsAsWritten` | init_db.py:141-149 | when no row raises, the records are those of `Records` |
| `InitDb.RecordsAsWrittenRaises` | init_db.py:141-149 | the written loop raises exactly when some row has a column name whose last text's coercion raises |
| `InitDb.SecondSeedSkips` | init_db.py:117-135 | after a load the table has rows, so a second run skips it |

## Left out

- File I/O: parquet reading, `glob.glob`, `os.path.exists` and CSV file reading. Files are an abstract `Disk` map; a read error is a `None` frame.
- Set iteration order: the order in which `list(set(paths))` lists the vineyard files is a parameter. `GeoSources.MergeOrderIrrelevantWhenDisjoint` says when it does not matter.
- shapely: `shape`, `unary_union`, `.is_empty` and `.bounds`. A geometry's bounds are the min/max over its positions, with real coordinates. No floating-point rounding, no geometric validity checks.
- JSON: `json.loads` of the stored GeoJSON is not modelled. A record carries the decoded object, or `None` when the text is missing or malformed.
- SQL queries, `pd.read_sql`, sessions and commits. Their results are inputs: rows in query order, id sets, starred places.
- Table creation, the `init_db()` driver and the FORCE_INIT exit are not modelled. `InitDb.Session.SeedTable` ends in `Aborted` with its own table unchanged; that the driver's rollback also discards the tables seeded earlier in the same run is not modelled.
- Caching: `@st.cache_data` is not modelled. A cached function is the function itself.
- folium and Streamlit drawing: tiles, CSS, HTML, widgets, reruns. A map is the record of its centre, zoom, layers and fitted box; a widget's value is an input.
- The clock: today's date is a parameter.
- `Dates.DaysBack`: subtracting 30 days is required to stay within the calendar (`Dates.CanGoBack`), since dates before year 1 cannot exist.
- Pandas sorting: `sort_values` is modelled as a stable sort. pandas uses an unstable quicksort by default, so ties may come out in another order.
- Missing values: `NaN`/`None` in tuple sorts and in pandas `groupby` keys is modelled only where a finding depends on it (`Summary.GroupSizesAsWritten`). The filter option lists `sorted(df["Region"].unique())`, and the same for Color and Location, at views/cellar.py:95-99 and views/tasting_history.py:84-87 are not modelled: the region and location come from LEFT JOINs, so a missing value beside strings makes `sorted` raise `TypeError` on those pages, where views/directory.py drops missing values first. The model takes the selections as inputs. A bottle's quantity is a number: a `None` quantity, on which `b_obj.qty > 0` raises `TypeError` at forms.py:857, is not modelled.
- The tasting-history card grouping: pandas `groupby(["DateObj", "Location"])` is taken as the list of groups handed to `TastingHistory.MergeEvents`. The same grouping on the details page is modelled in full (`Details.GroupTastings`).
- `Directory.SearchIgnoresCase`: `str.contains` takes a regular expression. The model matches a literal substring, so a search text with regex metacharacters is not modelled.
- `Numbers.ParseFloat`: `float()` gives the exact decimal value, or an infinity of its sign at or past the largest double's rounding threshold (2**1024 - 2**970). Rounding to 53 bits of mantissa, subnormals and underflow to zero are not modelled, so `int(float(s))` is exact where Python would round.
- `Numbers.IntOfFloatOfInt` and `Numbers.IntOfFloatPointZero`: the round trip is stated only for `abs(n) <= 2**53`, where a double holds every integer. Above that Python rounds (`int(float("9007199254740993"))` is 9007199254740992), and the model, which does not round, promises nothing there.
- `Details.CoerceIdAsWritten` and `Details.CoerceId`: between 2**53 and the overflow threshold a page id is the exact integer, where Python would give the nearest double. Only the overflow to an infinity is modelled exactly.
- `InitDb.CoerceIntegers`, `InitDb.CoerceValueAsWritten` and `InitDb.CoerceValue`: the same gap for integer and float columns: a large integer text is kept exact where Python stores the nearest double.
- `GeoSources.GlobMatch`: `glob.glob` treats `*`, `?` and `[` in the region slug as wildcards. The model matches the slug literally, so a region name holding one of those characters is not modelled.
- `GeoSources.SafeName`, `Directory.NameMatches` and `Directory.SearchIgnoresCase`: `Strings.Lower` and `Strings.Upper` map only the ASCII letters. Python's `str.lower`/`str.upper` also map other letters ("É" to "é", and "ß" to "SS" in upper case), so the slug of a region name and the case-insensitive search are modelled for ASCII text only.
- `Summary.GroupSizes` and `Summary.GroupSizesAsWritten`: groups are listed in order of first occurrence, where pandas sorts the group keys. The order matters only for which of equally large groups the unstable sort keeps in the top ten, which is not promised either way.
- Money and percentages: exchange rates, `Price(sgd)` and `Total(sgd)` are real numbers times the quantity. Percent bars and vintage colour interpolation are not modelled.
- Presentation code: app.py page routing, ui_utils.py, views/components.py and constants.py are not modelled.
- `Forms.GroupMapLookup`, `Forms.BoxGroupMap`, `Forms.ChooseNewVintage` and `Forms.ChooseListedWine` require the groups' "New Vintage" entries to differ. Without that, `group_map` keeps only the last of two colliding groups (`Forms.NewVintageEntriesCollide` shows a collision).
- `Forms.ChooseWine` requires every `group_map` entry to be a non-empty list. That is always so in the wine box (`Forms.BoxGroupMap`).
- `Forms.TypeEmoji`: the emoji are the source file's characters as they stand, UTF-8 bytes read as Windows-1252. The model keeps those character sequences and states only what is needed about them.
- `GeoSources.VineyardTable`: it does not re-check the `Enumerates` relation between the file order and the path set. Its method `GeoSources.VineyardData` does.
- `Summary.SortVintage`: only the special cases are in its contract. Numerals are covered by `Summary.SortVintageOfYear`.
- `Shared.RegionColorsMap`: only the key direction is in its contract. The exact contents, under unique region names, are in `Shared.RegionColorsMapExact`.
- `pdo_id` format: the code builds PDO ids as "PDO-<country>-..." and reads the country from the second `-`-separated part. The model follows the code.

## Findings

| source | as written | input that shows it | evidently intended | confidence | as-written member | corrected member |
|---|---|---|---|---|---|---|
| geo_utils.py:477-509 | the combined map is fitted to the first target's box only, despite the comment "Fit bounds to show all features" | an appellation Point at (47, 4) and a vineyard Point at (48, 5): the vineyard is outside the fitted box | fit the union of all targets' boxes | high, not executed | `GeoMaps.WineCombinedMapAsWritten` (`GeoMaps.CombinedMissesVineyard`) | `GeoMaps.WineCombinedMap` (`GeoMaps.CombinedShowsAll`) |
| views/map.py:195-200 | the colour loop writes colour and type only into a `Feature`, so a FeatureCollection's features keep neither | an appellation whose geometry is a FeatureCollection in a region coloured "#ff0000" is drawn "#228b22" at weight 2 | colour every feature of every drawn layer | high, not executed | `MapView.Colored` (`MapView.CollectionStyleAsWritten`) | `MapView.ColoredIntended` (`MapView.IntendedStyle`) |
| views/details.py:677-680, 917-920 | `int(float(x))` raises `OverflowError` for "inf" or "1e309", which `except (ValueError, TypeError)` does not catch | the page parameter `id=inf` or `id=1e309` | fall back to id 0 | high, not executed | `Details.CoerceIdAsWritten` (`Details.InfinityEscapes`) | `Details.CoerceId` (`Details.CoerceIdAgrees`) |
| init_db.py:91-96 | the same `OverflowError` escapes `_coerce_value` and aborts the whole seeding run (init_db.py:75-78 rolls back and re-raises) | "inf" or "1e309" in an integer column of a seed CSV | `None` for any text an integer column cannot hold | high, not executed | `InitDb.CoerceValueAsWritten` (`InitDb.InfiniteIntegerRaises`) | `InitDb.CoerceValue` (`InitDb.CoerceIntegers`) |
| forms.py:939 | the visit form's save handler compares with a mis-encoded copy of the Create New Place text, while the box at forms.py:914 offers the real text | choosing Create New Place with no place of that name raises KeyError at forms.py:945; the handler at forms.py:957 shows it with `st.error`, and neither the place nor the visit is saved | compare with the entry the box offers | high, not executed | `Forms.PlaceChoiceAsWritten` (`Forms.CreatePlaceUnreachable`) | `Forms.PlaceChoice` (`Forms.PlaceChoiceTotal`) |
| views/tasting_history.py:204-205 | the location filter names `Place` without joining it to the visits (the eager load uses its own alias), giving a cross product | visits to "Frantzen" with "Noma" selected, when a place "Noma" exists | keep a visit when its own place is selected | medium, not executed | `TastingHistory.ShownVisitsAsWritten` (`TastingHistory.LocationFilterLeaks`) | `TastingHistory.ShownVisits` (`TastingHistory.ShownVisitsAgree`) |
| views/summary.py:123, 137 | `groupby` drops rows whose group key has a missing Region | a producer all of whose tasted wines have no region | count those rows too | medium, not executed | `Summary.GroupSizesAsWritten` (`Summary.GroupSizesAsWrittenFilters`, `Summary.MissingRegionDropped`) | `Summary.GroupSizes` (`Summary.TopTenSpec`) |
| views/directory.py:117-121 | a frame built from an empty list has no "Last Visit" column, so `sort_values` raises `KeyError` before the `df.empty` test at line 121 | a database with no places | show "No places found." (line 160) | high, not executed | `Directory.PlacesPageAsWritten` (`Directory.EmptyDirectoryRaises`) | `Directory.PlacesPage` (`Directory.EmptyDirectoryRaises`) |
| views/directory.py:144 | the star glyph is the UTF-8 bytes of "⭐" read as Windows-1252, two characters and no star | a place with 1 star shows "â­" | one "⭐" per star | medium, not executed | `Directory.StarDisplayAsWritten` (`Directory.StarGlyphGarbled`) | `Directory.StarDisplay` |
| forms.py:36-40 | the default producer's position is taken in the names as the database ordered them, but the box lists `sorted(p_names)` | under a case-insensitive collation, producers "abc" and "Bcd" with default "abc" preselect "Bcd" | take the position in the sorted list | low, not executed | `Forms.ProducerIndexAsWritten` (`Forms.CollationMisselects`) | `Forms.ProducerIndex` |
