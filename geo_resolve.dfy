/** `resolve_app_geometry` and `resolve_vine_geometry`: the geometry of an appellation
    or a vineyard, taken from the first lookup table that holds it, else from the
    GeoJSON text stored on the record, else `None`. */
module GeoResolve {
  import opened Wrappers
  import Strings
  import opened GeoJson
  import opened GeoSources
  import Shared

  /** An appellation as the resolver reads it. `geojson` is the decoded stored text:
      `None` when the column is empty, the text is not JSON, or it decodes to `null`. */
  datatype Appellation = Appellation(
    id: int,
    name: string,
    pdoId: Option<string>,
    inaoId: Option<int>,
    region: Option<Shared.Region>,
    geojson: Option<GeoJson>)

  /** A vineyard as the resolver reads it. */
  datatype Vineyard = Vineyard(
    id: int,
    name: string,
    vineyardId: Option<int>,
    subRegion: Option<string>,
    village: Option<string>,
    region: Option<Shared.Region>,
    geojson: Option<GeoJson>)

  /** A table entry returned as a GeoJSON geometry (a null geometry stays `None`). */
  function Wrap(g: Option<Geometry>): Option<GeoJson> {
    match g
    case Some(geometry) => Some(GeometryObject(geometry))
    case None => None
  }

  /** `getattr(app, 'pdo_id', '') or ''`. */
  function PdoText(app: Appellation): string {
    if app.pdoId.Some? then app.pdoId.value else ""
  }

  /** The AVA table is consulted only for a US appellation with a PDO id. */
  predicate AvaGate(app: Appellation) {
    PdoText(app) != "" && app.region.Some? && app.region.value.country.Some?
    && app.region.value.country.value in ["United States", "USA"]
  }

  /** The three-way France test: the region's country, the region's name, or "-FR-" in
      the upper-cased PDO id. */
  predicate IsFrance(app: Appellation) {
    (app.region.Some? && app.region.value.country == Some("France"))
    || (Shared.Truthy(Shared.GetRegionName(app.region))
        && Strings.Lower(Shared.GetRegionName(app.region).value) == "france")
    || (PdoText(app) != "" && Strings.Contains(Strings.Upper(PdoText(app)), "-FR-"))
  }

  /** The INAO table is consulted only for a non-zero INAO id in France. */
  predicate InaoGate(app: Appellation) {
    app.inaoId.Some? && app.inaoId.value != 0 && IsFrance(app)
  }

  /** The INAO probe: the id as stored, then its decimal text; a null entry counts as
      missing. */
  function InaoProbe(t: Table, id: int): (r: Option<Geometry>)
    ensures r.Some? ==>
      (Get(t, Int(id)).Some? && r == Get(t, Int(id)))
      || (Get(t, Int(id)).None? && r == Get(t, Str(Strings.IntToString(id))))
    ensures r.None? ==> Get(t, Int(id)).None? && Get(t, Str(Strings.IntToString(id))).None?
  {
    var val := Get(t, Int(id));
    if val.None? then Get(t, Str(Strings.IntToString(id))) else val
  }

  /** The country code the PDO branch uses: the second `-`-separated part of the PDO id,
      unless it is "FR" or "AVA" or there is no second part. */
  function PdoIso(app: Appellation): (iso: Option<string>)
    ensures iso.Some? ==> PdoText(app) != "" && iso.value != "FR" && iso.value != "AVA"
    ensures iso.Some? ==> '-' !in iso.value
  {
    if PdoText(app) == "" then None
    else
      var parts := Strings.Split(PdoText(app), '-');
      if |parts| >= 2 && parts[1] != "FR" && parts[1] != "AVA" then Some(parts[1]) else None
  }

  /** The PDO table for a country: the memoised one when present, else loaded. */
  function PdoTable(disk: Disk, memo: Option<map<string, Table>>, iso: string): Table {
    if memo.Some? && iso in memo.value then memo.value[iso] else CountryPdoData(disk, iso)
  }

  /** What a call returns, and the caller's memo dict afterwards. */
  datatype Resolution = Resolution(geometry: Option<GeoJson>, memo: Option<map<string, Table>>)

  /** `resolve_app_geometry(app, inao_lookup, pdo_lookups, ava_lookup)`; a lookup passed
      as `None` is loaded from disk. */
  function AppResolution(app: Appellation, disk: Disk, inao: Option<Table>,
                         memo: Option<map<string, Table>>, ava: Option<Table>): (r: Resolution)
    ensures r.memo.Some? <==> memo.Some?
    ensures memo.Some? ==>
      && memo.value.Keys <= r.memo.value.Keys
      && (forall iso :: iso in memo.value ==> r.memo.value[iso] == memo.value[iso])
      && (forall iso :: iso in r.memo.value && iso !in memo.value ==>
            PdoIso(app) == Some(iso) && r.memo.value[iso] == CountryPdoData(disk, iso))
    ensures r.geometry == app.geojson
      || (AvaGate(app) && Str(PdoText(app)) in ava.GetOr(AvaFileTable(disk))
          && r.geometry == Wrap(ava.GetOr(AvaFileTable(disk))[Str(PdoText(app))]))
      || (InaoGate(app) && InaoProbe(inao.GetOr(InaoData(disk)), app.inaoId.value).Some?
          && r.geometry == Wrap(InaoProbe(inao.GetOr(InaoData(disk)), app.inaoId.value)))
      || (PdoIso(app).Some? && Str(PdoText(app)) in PdoTable(disk, memo, PdoIso(app).value)
          && r.geometry == Wrap(PdoTable(disk, memo, PdoIso(app).value)[Str(PdoText(app))]))
  {
    var key := Str(PdoText(app));
    var avaTable := ava.GetOr(AvaFileTable(disk));
    if AvaGate(app) && key in avaTable then
      Resolution(Wrap(avaTable[key]), memo)
    else if InaoGate(app) && InaoProbe(inao.GetOr(InaoData(disk)), app.inaoId.value).Some? then
      Resolution(Wrap(InaoProbe(inao.GetOr(InaoData(disk)), app.inaoId.value)), memo)
    else if PdoIso(app).Some? then
      var iso := PdoIso(app).value;
      var table := PdoTable(disk, memo, iso);
      var memo' := if memo.Some? && iso !in memo.value then Some(memo.value[iso := table]) else memo;
      if key in table then Resolution(Wrap(table[key]), memo')
      else Resolution(app.geojson, memo')
    else
      Resolution(app.geojson, memo)
  }

  /** The memo holds only the tables the loader would produce. */
  predicate MemoConsistent(disk: Disk, memo: map<string, Table>) {
    forall iso :: iso in memo ==> memo[iso] == CountryPdoData(disk, iso)
  }

  /** A consistent memo changes nothing but speed: the geometry is the one a call
      without a memo returns, and the memo stays consistent. */
  lemma MemoTransparent(app: Appellation, disk: Disk, inao: Option<Table>,
                        memo: map<string, Table>, ava: Option<Table>)
    requires MemoConsistent(disk, memo)
    ensures AppResolution(app, disk, inao, Some(memo), ava).geometry
         == AppResolution(app, disk, inao, None, ava).geometry
    ensures MemoConsistent(disk, AppResolution(app, disk, inao, Some(memo), ava).memo.value)
  {
  }

  /** Resolving twice with the memo the first call left behind gives the same geometry
      and leaves the memo as it was. */
  lemma ResolveTwice(app: Appellation, disk: Disk, inao: Option<Table>,
                     memo: Option<map<string, Table>>, ava: Option<Table>)
    ensures var r1 := AppResolution(app, disk, inao, memo, ava);
      AppResolution(app, disk, inao, r1.memo, ava) == r1
  {
  }

  /** The AVA source comes first: a US appellation whose PDO id is in the AVA table gets
      that entry (even a null one), whatever the other tables hold. */
  lemma AvaFirst(app: Appellation, disk: Disk, inao: Option<Table>,
                 memo: Option<map<string, Table>>, ava: Table)
    requires AvaGate(app) && Str(PdoText(app)) in ava
    ensures AppResolution(app, disk, inao, memo, Some(ava)) == Resolution(Wrap(ava[Str(PdoText(app))]), memo)
  {
  }

  /** Outside the US test the AVA table is never consulted. */
  lemma AvaGated(app: Appellation, disk: Disk, inao: Option<Table>,
                 memo: Option<map<string, Table>>, ava1: Option<Table>, ava2: Option<Table>)
    requires !AvaGate(app)
    ensures AppResolution(app, disk, inao, memo, ava1) == AppResolution(app, disk, inao, memo, ava2)
  {
  }

  /** Without a non-zero INAO id and the France test the INAO table is never consulted. */
  lemma InaoGated(app: Appellation, disk: Disk, inao1: Option<Table>, inao2: Option<Table>,
                  memo: Option<map<string, Table>>, ava: Option<Table>)
    requires !InaoGate(app)
    ensures AppResolution(app, disk, inao1, memo, ava) == AppResolution(app, disk, inao2, memo, ava)
  {
  }

  /** The INAO source comes second: when the AVA source misses and the INAO probe finds a
      geometry, that geometry is returned and the memo is untouched. */
  lemma InaoSecond(app: Appellation, disk: Disk, inao: Table,
                   memo: Option<map<string, Table>>, ava: Option<Table>)
    requires !(AvaGate(app) && Str(PdoText(app)) in ava.GetOr(AvaFileTable(disk)))
    requires InaoGate(app) && InaoProbe(inao, app.inaoId.value).Some?
    ensures AppResolution(app, disk, Some(inao), memo, ava)
         == Resolution(Wrap(InaoProbe(inao, app.inaoId.value)), memo)
  {
  }

  /** A PDO id without a usable country part ("FR", "AVA" or none) skips the PDO tables:
      the memo is untouched and the result does not depend on it. */
  lemma PdoSkipped(app: Appellation, disk: Disk, inao: Option<Table>,
                   memo1: Option<map<string, Table>>, memo2: Option<map<string, Table>>, ava: Option<Table>)
    requires PdoIso(app).None?
    ensures AppResolution(app, disk, inao, memo1, ava).memo == memo1
    ensures AppResolution(app, disk, inao, memo1, ava).geometry == AppResolution(app, disk, inao, memo2, ava).geometry
  {
  }

  /** The PDO source comes third: when the AVA and INAO sources miss and the country's
      PDO table holds the id, that entry is returned, and the caller's memo gains the
      country's table if it lacked it. */
  lemma PdoThird(app: Appellation, disk: Disk, inao: Option<Table>,
                 memo: Option<map<string, Table>>, ava: Option<Table>)
    requires !(AvaGate(app) && Str(PdoText(app)) in ava.GetOr(AvaFileTable(disk)))
    requires !(InaoGate(app) && InaoProbe(inao.GetOr(InaoData(disk)), app.inaoId.value).Some?)
    requires PdoIso(app).Some? && Str(PdoText(app)) in PdoTable(disk, memo, PdoIso(app).value)
    ensures AppResolution(app, disk, inao, memo, ava).geometry
         == Wrap(PdoTable(disk, memo, PdoIso(app).value)[Str(PdoText(app))])
    ensures memo.Some? ==>
      AppResolution(app, disk, inao, memo, ava).memo
        == Some(memo.value[PdoIso(app).value := PdoTable(disk, memo, PdoIso(app).value)])
  {
    var iso := PdoIso(app).value;
    if memo.Some? && iso in memo.value {
      assert memo.value[iso := memo.value[iso]] == memo.value;
    }
  }

  /** When no table holds the record, the stored GeoJSON is the answer (`None` when
      there is none or it does not decode). */
  lemma StoredFallback(app: Appellation, disk: Disk, inao: Option<Table>,
                       memo: Option<map<string, Table>>, ava: Option<Table>)
    requires !(AvaGate(app) && Str(PdoText(app)) in ava.GetOr(AvaFileTable(disk)))
    requires !(InaoGate(app) && InaoProbe(inao.GetOr(InaoData(disk)), app.inaoId.value).Some?)
    requires PdoIso(app).Some? ==> Str(PdoText(app)) !in PdoTable(disk, memo, PdoIso(app).value)
    ensures AppResolution(app, disk, inao, memo, ava).geometry == app.geojson
  {
  }

  /** The country part of a PDO id `a-iso...`: "FR" and "AVA" are skipped, any other
      code is the one the PDO tables are chosen by. */
  lemma {:induction false} PdoIsoOfId(app: Appellation, a: string, iso: string, tail: string)
    requires app.pdoId == Some(a + "-" + iso + tail)
    requires '-' !in a && '-' !in iso && (tail == [] || tail[0] == '-')
    ensures PdoIso(app) == if iso == "FR" || iso == "AVA" then None else Some(iso)
  {
    var t := "-" + iso + tail;
    assert a + "-" + iso + tail == a + t;
    Strings.SplitPrefix(a, t, '-');
    assert t[1..] == iso + tail;
    Strings.SplitPrefix(iso, tail, '-');
    assert PdoText(app) != "";
  }

  /** Any PDO id with a "-FR-" segment passes the France test on its own, whatever the
      region says. */
  lemma {:induction false} FrenchPdoId(app: Appellation, a: string, tail: string)
    requires app.pdoId == Some(a + "-FR-" + tail)
    ensures IsFrance(app)
  {
    var id := a + "-FR-" + tail;
    var up := Strings.Upper(id);
    assert up[|a|..|a| + 4] == "-FR-";
    Strings.ContainsAt(up, "-FR-");
    assert Strings.OccursAt(up, "-FR-", |a|);
  }

  /** A null INAO entry under the integer id falls through to the string id. */
  lemma InaoStringProbe(g: Geometry)
    ensures InaoProbe(map[Int(7) := None, Str("7") := Some(g)], 7) == Some(g)
  {
    assert Strings.IntToString(7) == "7";
  }

  /** The memo dict `resolve_app_geometry` fills in place, one country table per code. */
  class PdoLookups {
    var tables: map<string, Table>

    constructor ()
      ensures tables == map[]
    {
      tables := map[];
    }

    /** `resolve_app_geometry(app, inao_lookup, pdo_lookups=self.tables, ava_lookup)`. */
    method ResolveApp(app: Appellation, disk: Disk, inao: Option<Table>, ava: Option<Table>)
      returns (geometry: Option<GeoJson>)
      modifies this
      ensures Resolution(geometry, Some(tables)) == AppResolution(app, disk, inao, Some(old(tables)), ava)
    {
      var key := Str(PdoText(app));
      ghost var memo0 := Some(tables);
      if AvaGate(app) {
        var avaTable := if ava.Some? then ava.value else AvaFileTable(disk);
        assert avaTable == ava.GetOr(AvaFileTable(disk));
        if key in avaTable {
          return Wrap(avaTable[key]);
        }
      }
      assert !(AvaGate(app) && key in ava.GetOr(AvaFileTable(disk)));
      if app.inaoId.Some? && app.inaoId.value != 0 && IsFrance(app) {
        var inaoTable := if inao.Some? then inao.value else InaoData(disk);
        var val := Get(inaoTable, Int(app.inaoId.value));
        if val.None? {
          val := Get(inaoTable, Str(Strings.IntToString(app.inaoId.value)));
        }
        assert val == InaoProbe(inao.GetOr(InaoData(disk)), app.inaoId.value);
        if val.Some? {
          return Wrap(val);
        }
      }
      assert !(InaoGate(app) && InaoProbe(inao.GetOr(InaoData(disk)), app.inaoId.value).Some?);
      if PdoText(app) != "" {
        var parts := Strings.Split(PdoText(app), '-');
        if |parts| >= 2 {
          var iso := parts[1];
          if iso != "FR" && iso != "AVA" {
            assert PdoIso(app) == Some(iso);
            if iso !in tables {
              tables := tables[iso := CountryPdoData(disk, iso)];
            }
            var lookup := tables[iso];
            assert lookup == PdoTable(disk, memo0, iso);
            if key in lookup {
              return Wrap(lookup[key]);
            }
            return app.geojson;
          }
        }
      }
      assert PdoIso(app).None?;
      return app.geojson;
    }
  }

  /** The region `resolve_vine_geometry` loads: the one passed in, else the vineyard's. */
  function EffectiveRegion(v: Vineyard, regionName: Option<string>): (r: Option<string>)
    ensures Shared.Truthy(regionName) ==> r == regionName
    ensures !Shared.Truthy(regionName) ==> r == Shared.GetRegionName(v.region)
  {
    if Shared.Truthy(regionName) then regionName else Shared.GetRegionName(v.region)
  }

  /** `resolve_vine_geometry(vineyard, region_name, appellation_name, field_lookup)`.
      When the table has to be loaded, `files` is the order in which the region's
      vineyard files are read. */
  function ResolveVine(v: Vineyard, disk: Disk, regionName: Option<string>, appellationName: Option<string>,
                       fieldLookup: Option<Table>, files: seq<string>): (r: Option<GeoJson>)
    requires Enumerates(files, VineyardGeoPaths(disk, EffectiveRegion(v, regionName), appellationName))
    ensures v.vineyardId.None? || v.vineyardId.value == 0 ==> r == v.geojson
    ensures (fieldLookup.Some? && v.vineyardId.Some? && v.vineyardId.value != 0
      && Int(v.vineyardId.value) in fieldLookup.value) ==> r == Wrap(fieldLookup.value[Int(v.vineyardId.value)])
    ensures (fieldLookup.Some? && v.vineyardId.Some? && v.vineyardId.value != 0
      && Int(v.vineyardId.value) !in fieldLookup.value) ==> r == v.geojson
    ensures (fieldLookup.None? && v.vineyardId.Some? && v.vineyardId.value != 0
      && !Shared.Truthy(EffectiveRegion(v, regionName))) ==> r == v.geojson
    ensures (fieldLookup.None? && v.vineyardId.Some? && v.vineyardId.value != 0
      && Shared.Truthy(EffectiveRegion(v, regionName))) ==>
        var t := VineyardTable(disk, EffectiveRegion(v, regionName), files);
        r == if Int(v.vineyardId.value) in t then Wrap(t[Int(v.vineyardId.value)]) else v.geojson
  {
    var lookup :=
      if v.vineyardId.None? || v.vineyardId.value == 0 then None
      else if fieldLookup.None? && Shared.Truthy(EffectiveRegion(v, regionName)) then
        Some(VineyardTable(disk, EffectiveRegion(v, regionName), files))
      else fieldLookup;
    if lookup.Some? && lookup.value != map[] && Int(v.vineyardId.value) in lookup.value then
      Wrap(lookup.value[Int(v.vineyardId.value)])
    else v.geojson
  }

  /** The vineyard table is probed with the integer id only: an entry under its decimal
      text is not found, and the stored GeoJSON is used instead. */
  lemma VineNoStringProbe(v: Vineyard, disk: Disk, g: Geometry)
    requires v.vineyardId == Some(7)
    requires Enumerates([], VineyardGeoPaths(disk, EffectiveRegion(v, None), None))
    ensures ResolveVine(v, disk, None, None, Some(map[Str("7") := Some(g)]), []) == v.geojson
  {
  }

  /** Without a region argument, the vineyard's own region selects the files. */
  lemma VineRegionDefault(v: Vineyard, disk: Disk, appellationName: Option<string>, files: seq<string>)
    requires v.region.Some?
    requires Enumerates(files, VineyardGeoPaths(disk, Some(v.region.value.name), appellationName))
    ensures ResolveVine(v, disk, None, appellationName, None, files)
         == ResolveVine(v, disk, Some(v.region.value.name), appellationName, None, files)
  {
  }
}
