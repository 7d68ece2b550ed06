/** The geometry lookup tables of `geo_utils.py`: the French INAO cadastre, the
    per-country PDO tables, the US AVA table and the regional vineyard tables, each
    built from a geometry file on disk and keyed by one of its columns. */
module GeoSources {
  import opened Wrappers
  import Strings
  import opened GeoJson
  import Shared

  /** A non-geometry cell of a geometry file. */
  datatype Value = Null | Int(i: int) | Str(s: string) | NaN

  /** Python truthiness of a cell: `None`, `0` and `""` are false, NaN is true. */
  predicate Truthy(v: Value) {
    match v
    case Null => false
    case Int(i) => i != 0
    case Str(s) => s != ""
    case NaN => true
  }

  /** `str(v)` for a cell. */
  function ToStr(v: Value): string {
    match v
    case Null => "None"
    case Int(i) => Strings.IntToString(i)
    case Str(s) => s
    case NaN => "nan"
  }

  /** One row: its named cells and its (possibly null) geometry. */
  datatype Row = Row(cells: map<string, Value>, geometry: Option<Geometry>)

  /** A geometry file as read: its column names and its rows. */
  datatype Frame = Frame(columns: set<string>, rows: seq<Row>)

  /** The files on disk: the domain holds the paths that exist; `None` marks a file that
      exists but cannot be read. */
  type Disk = map<string, Option<Frame>>

  /** A lookup table from key to geometry, as `to_dict()` builds it. */
  type Table = map<Value, Option<Geometry>>

  const GeoDir: string := "data/geo/"
  const VineyardDir: string := GeoDir + "vineyards/"
  const InaoPath: string := GeoDir + "france.parquet"
  const AvaPath: string := GeoDir + "us_avas_combined.parquet"
  const PremierCruPath: string := VineyardDir + "vineyards_premier_crus_inao.parquet"

  /** `row.get(col)`: the cell, or `None` when the row has no such column. */
  function Cell(r: Row, col: string): Value {
    if col in r.cells then r.cells[col] else Null
  }

  /** `dict.get(key)`. */
  function Get(t: Table, key: Value): Option<Geometry> {
    if key in t then t[key] else None
  }

  /** `set_index(col)['geometry'].to_dict()`: each key maps to the geometry of the last
      row holding it. */
  function ToDict(rows: seq<Row>, col: string): Table {
    if rows == [] then map[]
    else ToDict(rows[..|rows| - 1], col)[Cell(rows[|rows| - 1], col) := rows[|rows| - 1].geometry]
  }

  lemma {:induction false} ToDictDomain(rows: seq<Row>, col: string)
    ensures forall k :: k in ToDict(rows, col) <==> exists i :: 0 <= i < |rows| && Cell(rows[i], col) == k
  {
    if rows != [] {
      var init := rows[..|rows| - 1];
      ToDictDomain(init, col);
      forall k
        ensures k in ToDict(rows, col) <==> exists i :: 0 <= i < |rows| && Cell(rows[i], col) == k
      {
        if k in ToDict(init, col) {
          var i :| 0 <= i < |init| && Cell(init[i], col) == k;
          assert rows[i] == init[i];
        }
        if exists i :: 0 <= i < |rows| && Cell(rows[i], col) == k {
          var i :| 0 <= i < |rows| && Cell(rows[i], col) == k;
          if i < |init| { assert init[i] == rows[i]; }
        }
      }
    }
  }

  /** Duplicate keys: the last row holding a key supplies its geometry. */
  lemma {:induction false} ToDictLastWins(rows: seq<Row>, col: string, i: int)
    requires 0 <= i < |rows|
    requires forall j :: i < j < |rows| ==> Cell(rows[j], col) != Cell(rows[i], col)
    ensures Cell(rows[i], col) in ToDict(rows, col)
    ensures ToDict(rows, col)[Cell(rows[i], col)] == rows[i].geometry
    decreases |rows|
  {
    if i < |rows| - 1 {
      var init := rows[..|rows| - 1];
      assert init[i] == rows[i];
      ToDictLastWins(init, col, i);
    }
  }

  /** A file's table keyed by the first present of two columns, or `{}` when the file is
      missing, unreadable, or has neither column. */
  function KeyedTable(disk: Disk, path: string, col: string, fallback: string): Table {
    if path in disk && disk[path].Some? then
      var frame := disk[path].value;
      if col in frame.columns then ToDict(frame.rows, col)
      else if fallback in frame.columns then ToDict(frame.rows, fallback)
      else map[]
    else map[]
  }

  /** `get_inao_data()`: the French cadastre keyed by `id_app`. */
  function InaoData(disk: Disk): (t: Table)
    ensures InaoPath !in disk ==> t == map[]
    ensures InaoPath in disk && (disk[InaoPath].None? || "id_app" !in disk[InaoPath].value.columns) ==> t == map[]
    ensures InaoPath in disk && disk[InaoPath].Some? && "id_app" in disk[InaoPath].value.columns ==>
      t == ToDict(disk[InaoPath].value.rows, "id_app")
  {
    KeyedTable(disk, InaoPath, "id_app", "id_app")
  }

  /** The file name stem for a country code: the `ISO_MAP` entry of the upper-cased code,
      or the lower-cased code itself. */
  function CountryName(iso: string): (name: string)
    ensures Strings.Upper(iso) in Shared.IsoMap ==> name == Shared.IsoMap[Strings.Upper(iso)]
    ensures Strings.Upper(iso) !in Shared.IsoMap ==> name == Strings.Lower(iso)
  {
    var key := Strings.Upper(iso);
    if key in Shared.IsoMap then Shared.IsoMap[key] else Strings.Lower(iso)
  }

  function PdoPath(iso: string): string {
    GeoDir + CountryName(iso) + "_pdo.parquet"
  }

  /** Country codes are case-insensitive in file naming: "fr" names the French file. */
  lemma PdoPathLowerCase()
    ensures PdoPath("fr") == "data/geo/france_pdo.parquet"
  {
    assert Strings.Upper("fr") == "FR";
  }

  /** "EL" and "GR" both denote Greece but name different files. */
  lemma PdoPathGreece()
    ensures PdoPath("EL") == "data/geo/greece_pdo.parquet"
    ensures PdoPath("GR") == "data/geo/gr_pdo.parquet"
  {
    assert Strings.Upper("EL") == "EL";
    assert Strings.Upper("GR") == "GR";
  }

  /** A code missing from `ISO_MAP` names a file after the lower-cased code. */
  lemma PdoPathUnmapped()
    ensures PdoPath("US") == "data/geo/us_pdo.parquet"
  {
    assert Strings.Upper("US") == "US";
    assert Strings.Lower("US") == "us";
  }

  /** `get_country_pdo_data(iso)`: keyed by `pdo_id`, else by `osm_id`. */
  function CountryPdoData(disk: Disk, iso: string): (t: Table)
    ensures PdoPath(iso) !in disk ==> t == map[]
    ensures PdoPath(iso) in disk && disk[PdoPath(iso)].None? ==> t == map[]
    ensures PdoPath(iso) in disk && disk[PdoPath(iso)].Some? ==>
      var frame := disk[PdoPath(iso)].value;
      && ("pdo_id" in frame.columns ==> t == ToDict(frame.rows, "pdo_id"))
      && ("pdo_id" !in frame.columns && "osm_id" in frame.columns ==> t == ToDict(frame.rows, "osm_id"))
      && ("pdo_id" !in frame.columns && "osm_id" !in frame.columns ==> t == map[])
  {
    KeyedTable(disk, PdoPath(iso), "pdo_id", "osm_id")
  }

  /** The AVA key of a row with a truthy `ava_id`. */
  function AvaKey(aid: Value): Value {
    Str("US-AVA-" + ToStr(aid))
  }

  /** The AVA table built from rows: each row with a truthy `ava_id` stores its geometry
      under `"US-AVA-" + str(ava_id)`, later rows overriding earlier ones. */
  function AvaTable(rows: seq<Row>): Table {
    if rows == [] then map[]
    else
      var t := AvaTable(rows[..|rows| - 1]);
      var last := rows[|rows| - 1];
      var aid := Cell(last, "ava_id");
      if Truthy(aid) then t[AvaKey(aid) := last.geometry] else t
  }

  /** Every AVA key is a string starting with "US-AVA-", and it comes from a row whose
      `ava_id` is truthy; every such row has its key in the table. */
  lemma AvaTableKeys(rows: seq<Row>)
    ensures forall k :: k in AvaTable(rows) ==> k.Str? && Strings.StartsWith(k.s, "US-AVA-")
    ensures forall k :: k in AvaTable(rows) <==>
      exists i :: 0 <= i < |rows| && Truthy(Cell(rows[i], "ava_id")) && AvaKey(Cell(rows[i], "ava_id")) == k
  {
    AvaTableDomain(rows);
    forall k | k in AvaTable(rows)
      ensures k.Str? && Strings.StartsWith(k.s, "US-AVA-")
    {
      var i :| 0 <= i < |rows| && Truthy(Cell(rows[i], "ava_id")) && AvaKey(Cell(rows[i], "ava_id")) == k;
      assert ("US-AVA-" + ToStr(Cell(rows[i], "ava_id")))[..|"US-AVA-"|] == "US-AVA-";
    }
  }

  lemma {:induction false} AvaTableDomain(rows: seq<Row>)
    ensures forall k :: k in AvaTable(rows) <==>
      exists i :: 0 <= i < |rows| && Truthy(Cell(rows[i], "ava_id")) && AvaKey(Cell(rows[i], "ava_id")) == k
  {
    if rows != [] {
      var n := |rows| - 1;
      var init := rows[..n];
      AvaTableDomain(init);
      var aid := Cell(rows[n], "ava_id");
      assert AvaTable(rows) == if Truthy(aid) then AvaTable(init)[AvaKey(aid) := rows[n].geometry] else AvaTable(init);
      forall k
        ensures k in AvaTable(rows) <==>
          exists i :: 0 <= i < |rows| && Truthy(Cell(rows[i], "ava_id")) && AvaKey(Cell(rows[i], "ava_id")) == k
      {
        if k in AvaTable(init) {
          var i :| 0 <= i < |init| && Truthy(Cell(init[i], "ava_id")) && AvaKey(Cell(init[i], "ava_id")) == k;
          assert rows[i] == init[i];
        }
        if exists i :: 0 <= i < |rows| && Truthy(Cell(rows[i], "ava_id")) && AvaKey(Cell(rows[i], "ava_id")) == k {
          var i :| 0 <= i < |rows| && Truthy(Cell(rows[i], "ava_id")) && AvaKey(Cell(rows[i], "ava_id")) == k;
          if i < n { assert init[i] == rows[i]; }
        }
      }
    }
  }

  /** An integer AVA id 42 is stored under "US-AVA-42"; a string id under its own text. */
  lemma AvaKeyExamples()
    ensures AvaKey(Int(42)) == Str("US-AVA-42")
    ensures AvaKey(Str("temecula_valley")) == Str("US-AVA-temecula_valley")
    ensures !Truthy(Int(0)) && !Truthy(Str("")) && !Truthy(Null) && Truthy(NaN)
  {
    assert Strings.DigitChar(4) == '4' && Strings.DigitChar(2) == '2';
    assert Strings.NatToString(42) == Strings.NatToString(4) + [Strings.DigitChar(2)] == "42";
    assert Strings.IntToString(42) == "42";
    assert "US-AVA-" + "42" == "US-AVA-42";
    assert "US-AVA-" + "temecula_valley" == "US-AVA-temecula_valley";
  }

  /** The AVA table `get_ava_data()` returns: `{}` when the file is missing or unreadable. */
  function AvaFileTable(disk: Disk): (t: Table)
    ensures !(AvaPath in disk && disk[AvaPath].Some?) ==> t == map[]
  {
    if AvaPath in disk && disk[AvaPath].Some? then AvaTable(disk[AvaPath].value.rows) else map[]
  }

  /** `get_ava_data()`: fills the lookup row by row. */
  method AvaData(disk: Disk) returns (lookup: Table)
    ensures lookup == AvaFileTable(disk)
  {
    lookup := map[];
    if AvaPath !in disk || disk[AvaPath].None? {
      return;
    }
    var rows := disk[AvaPath].value.rows;
    for i := 0 to |rows|
      invariant lookup == AvaTable(rows[..i])
    {
      assert rows[..i + 1][..i] == rows[..i];
      var aid := Cell(rows[i], "ava_id");
      if Truthy(aid) {
        lookup := lookup[AvaKey(aid) := rows[i].geometry];
      }
    }
    assert rows[..|rows|] == rows;
  }

  /** `region.lower().replace(" ", "_").replace("/", "_")`. */
  function SafeName(region: string): (s: string)
    ensures |s| == |region|
    ensures ' ' !in s && '/' !in s
    ensures forall i :: 0 <= i < |s| ==>
      s[i] == (if Strings.Lower(region)[i] in {' ', '/'} then '_' else Strings.Lower(region)[i])
  {
    var r := Strings.ReplaceChar(Strings.ReplaceChar(Strings.Lower(region), ' ', '_'), '/', '_');
    assert forall i :: 0 <= i < |r| ==> r[i] != ' ' && r[i] != '/';
    r
  }

  /** A path matches `VineyardDir + safe + "_*.parquet"`: the wildcard stands for any text
      without a path separator. */
  predicate GlobMatch(path: string, safe: string) {
    var prefix := VineyardDir + safe + "_";
    var suffix := ".parquet";
    && |path| >= |prefix| + |suffix|
    && path[..|prefix|] == prefix
    && path[|path| - |suffix|..] == suffix
    && '/' !in path[|prefix|..|path| - |suffix|]
  }

  /** `is_bourgogne`: the region, lower-cased, is "bourgogne" or "burgundy". */
  predicate IsBourgogne(region: Option<string>) {
    region.Some? && region.value != "" && Strings.Lower(region.value) in ["bourgogne", "burgundy"]
  }

  /** `is_premier_cru_app`: the appellation name, lower-cased, contains "premier cru". */
  predicate IsPremierCru(appellationName: Option<string>) {
    appellationName.Some? && appellationName.value != ""
    && Strings.Contains(Strings.Lower(appellationName.value), "premier cru")
  }

  /** `get_vineyard_geo_paths(region, appellation_name)`: the regional files, plus the
      Burgundy premier-cru file, without duplicates. */
  function VineyardGeoPaths(disk: Disk, region: Option<string>, appellationName: Option<string>): (paths: set<string>)
    ensures forall p :: p in paths ==> p in disk
    ensures region.None? || region.value == "" ==> paths == {}
    ensures region.Some? && region.value != "" ==>
      forall p :: p in disk && GlobMatch(p, SafeName(region.value)) ==> p in paths
    ensures forall p :: p in paths ==>
      p == PremierCruPath || (region.Some? && region.value != "" && GlobMatch(p, SafeName(region.value)))
    ensures PremierCruPath in paths <==>
      PremierCruPath in disk
      && ((region.Some? && region.value != "" && GlobMatch(PremierCruPath, SafeName(region.value)))
          || (IsBourgogne(region) && (IsPremierCru(appellationName) || appellationName.None?)))
  {
    var regional := if region.Some? && region.value != "" then
        set p | p in disk && GlobMatch(p, SafeName(region.value))
      else {};
    var premier := if IsBourgogne(region) && (IsPremierCru(appellationName) || appellationName.None?)
        && PremierCruPath in disk then {PremierCruPath} else {};
    regional + premier
  }

  /** A broad Burgundy load (no appellation) includes the premier-cru file. */
  lemma PremierCruBroadLoad(disk: Disk)
    requires PremierCruPath in disk
    ensures PremierCruPath in VineyardGeoPaths(disk, Some("Burgundy"), None)
  {
    assert Strings.Lower("Burgundy") == "burgundy";
  }

  /** A premier-cru appellation in Bourgogne includes the premier-cru file. */
  lemma PremierCruAppellation(disk: Disk)
    requires PremierCruPath in disk
    ensures PremierCruPath in VineyardGeoPaths(disk, Some("bourgogne"), Some("Premier Cru"))
  {
    assert Strings.Lower("bourgogne") == "bourgogne";
    var lowered := Strings.Lower("Premier Cru");
    assert lowered == "premier cru";
    assert Strings.Contains(lowered, "premier cru");
  }

  /** An empty appellation name is neither `None` nor a premier cru: no premier-cru file. */
  lemma PremierCruEmptyName(disk: Disk)
    requires PremierCruPath in disk
    ensures PremierCruPath !in VineyardGeoPaths(disk, Some("Bourgogne"), Some(""))
  {
    assert Strings.Lower("Bourgogne") == "bourgogne";
    assert PremierCruPath[|VineyardDir|] == 'v';
    assert (VineyardDir + SafeName("Bourgogne") + "_")[|VineyardDir|] == 'b';
  }

  /** Outside Burgundy the premier-cru file is never added. */
  lemma PremierCruOtherRegion(disk: Disk)
    requires PremierCruPath in disk
    ensures PremierCruPath !in VineyardGeoPaths(disk, Some("Loire"), None)
  {
    assert Strings.Lower("Loire") == "loire";
    assert PremierCruPath[|VineyardDir|] == 'v';
    assert (VineyardDir + SafeName("Loire") + "_")[|VineyardDir|] == 'l';
  }

  /** The table one vineyard file contributes: keyed by `id`, else by `vineyard_id`;
      nothing when the file cannot be read or has neither column. */
  function VineyardFileTable(disk: Disk, path: string): (t: Table)
    ensures path !in disk ==> t == map[]
    ensures path in disk && disk[path].Some? ==>
      var frame := disk[path].value;
      && ("id" in frame.columns ==> t == ToDict(frame.rows, "id"))
      && ("id" !in frame.columns && "vineyard_id" in frame.columns ==> t == ToDict(frame.rows, "vineyard_id"))
      && ("id" !in frame.columns && "vineyard_id" !in frame.columns ==> t == map[])
  {
    KeyedTable(disk, path, "id", "vineyard_id")
  }

  /** The files' tables merged in order, each `update` overriding earlier keys. */
  function MergeFiles(disk: Disk, files: seq<string>): Table {
    if files == [] then map[]
    else MergeFiles(disk, files[..|files| - 1]) + VineyardFileTable(disk, files[|files| - 1])
  }

  /** `files` lists the set `paths` once each, in some order. */
  ghost predicate Enumerates(files: seq<string>, paths: set<string>) {
    (forall i, j :: 0 <= i < j < |files| ==> files[i] != files[j])
    && (forall f :: f in files <==> f in paths)
  }

  /** The table `get_vineyard_data(region_name, appellation_name)` returns when it
      iterates the files in the order `files`: `{}` for a missing region. */
  function VineyardTable(disk: Disk, regionName: Option<string>, files: seq<string>): (t: Table)
    ensures regionName.None? || regionName.value == "" || files == [] ==> t == map[]
  {
    if regionName.None? || regionName.value == "" then map[] else MergeFiles(disk, files)
  }

  /** `get_vineyard_data(region_name, appellation_name)`. Python iterates
      `list(set(paths))` in an order it does not specify; `files` is that order. */
  method VineyardData(disk: Disk, regionName: Option<string>, appellationName: Option<string>, files: seq<string>)
    returns (combined: Table)
    requires Enumerates(files, VineyardGeoPaths(disk, regionName, appellationName))
    ensures combined == VineyardTable(disk, regionName, files)
  {
    if regionName.None? || regionName.value == "" {
      return map[];
    }
    if files == [] {
      return map[];
    }
    combined := MergeInOrder(disk, files);
  }

  /** The loop of `get_vineyard_data` over the files: each readable file with an `id`
      or a `vineyard_id` column updates the combined table. */
  method MergeInOrder(disk: Disk, files: seq<string>) returns (combined: Table)
    ensures combined == MergeFiles(disk, files)
  {
    combined := map[];
    for i := 0 to |files|
      invariant combined == MergeFiles(disk, files[..i])
    {
      assert files[..i + 1][..i] == files[..i];
      var path := files[i];
      if path in disk && disk[path].Some? {
        var frame := disk[path].value;
        if "id" in frame.columns {
          combined := combined + ToDict(frame.rows, "id");
        } else if "vineyard_id" in frame.columns {
          combined := combined + ToDict(frame.rows, "vineyard_id");
        }
      }
    }
    assert files[..|files|] == files;
  }

  /** Later files override earlier ones: a key maps to its value in the last file that
      holds it, and is absent when no file holds it. */
  lemma {:induction false} MergeFilesLastWins(disk: Disk, files: seq<string>, key: Value)
    ensures key in MergeFiles(disk, files) <==>
      exists i :: 0 <= i < |files| && key in VineyardFileTable(disk, files[i])
    ensures forall i ::
      (0 <= i < |files| && key in VineyardFileTable(disk, files[i])
       && (forall j :: i < j < |files| ==> key !in VineyardFileTable(disk, files[j])))
      ==> MergeFiles(disk, files)[key] == VineyardFileTable(disk, files[i])[key]
  {
    if files != [] {
      var init := files[..|files| - 1];
      MergeFilesLastWins(disk, init, key);
      if key in MergeFiles(disk, init) {
        var i :| 0 <= i < |init| && key in VineyardFileTable(disk, init[i]);
        assert files[i] == init[i];
      }
      if exists i :: 0 <= i < |files| && key in VineyardFileTable(disk, files[i]) {
        var i :| 0 <= i < |files| && key in VineyardFileTable(disk, files[i]);
        if i < |init| { assert init[i] == files[i]; }
      }
      forall i | 0 <= i < |files| && key in VineyardFileTable(disk, files[i])
        && (forall j :: i < j < |files| ==> key !in VineyardFileTable(disk, files[j]))
        ensures MergeFiles(disk, files)[key] == VineyardFileTable(disk, files[i])[key]
      {
        if i < |init| {
          assert init[i] == files[i];
          assert forall j :: i < j < |init| ==> init[j] == files[j];
        }
      }
    }
  }

  /** When no key is shared between two files, the merge does not depend on the order in
      which `list(set(paths))` happens to list the files. */
  lemma {:induction false} MergeOrderIrrelevantWhenDisjoint(disk: Disk, a: seq<string>, b: seq<string>)
    requires multiset(a) == multiset(b)
    requires forall i, j :: 0 <= i < |a| && 0 <= j < |a| && a[i] != a[j] ==>
      VineyardFileTable(disk, a[i]).Keys !! VineyardFileTable(disk, a[j]).Keys
    ensures MergeFiles(disk, a) == MergeFiles(disk, b)
  {
    forall key
      ensures key in MergeFiles(disk, a) <==> key in MergeFiles(disk, b)
      ensures key in MergeFiles(disk, a) ==> MergeFiles(disk, a)[key] == MergeFiles(disk, b)[key]
    {
      MergeFilesLastWins(disk, a, key);
      MergeFilesLastWins(disk, b, key);
      if key in MergeFiles(disk, a) {
        var i :| 0 <= i < |a| && key in VineyardFileTable(disk, a[i]);
        var f := a[i];
        assert f in multiset(b);
        var k :| 0 <= k < |b| && b[k] == f;
        LastHolder(disk, a, i, key);
        forall j | 0 <= j < |b| && b[j] != b[k]
          ensures key !in VineyardFileTable(disk, b[j])
        {
          assert b[j] in multiset(a);
          var m :| 0 <= m < |a| && a[m] == b[j];
        }
        LastHolder(disk, b, k, key);
      }
      if key in MergeFiles(disk, b) {
        var k :| 0 <= k < |b| && key in VineyardFileTable(disk, b[k]);
        assert b[k] in multiset(a);
      }
    }
  }

  /** Holding a key in one file of a key-disjoint list makes the merge hold that file's
      value for it. */
  lemma LastHolder(disk: Disk, files: seq<string>, i: int, key: Value)
    requires 0 <= i < |files| && key in VineyardFileTable(disk, files[i])
    requires forall j :: 0 <= j < |files| && files[j] != files[i] ==> key !in VineyardFileTable(disk, files[j])
    ensures key in MergeFiles(disk, files)
    ensures MergeFiles(disk, files)[key] == VineyardFileTable(disk, files[i])[key]
  {
    MergeFilesLastWins(disk, files, key);
    var last := i;
    var j := i + 1;
    while j < |files|
      invariant i <= last < j <= |files|
      invariant files[last] == files[i]
      invariant forall m :: last < m < j ==> key !in VineyardFileTable(disk, files[m])
    {
      if files[j] == files[i] {
        last := j;
      }
      j := j + 1;
    }
  }

  /** Files outside the list do not matter: a missing or corrupt file of another
      region cannot change the merged table of this one. */
  lemma {:induction false} MergeFilesLocal(disk1: Disk, disk2: Disk, files: seq<string>)
    requires forall f :: f in files ==> (f in disk1 <==> f in disk2) && (f in disk1 ==> disk1[f] == disk2[f])
    ensures MergeFiles(disk1, files) == MergeFiles(disk2, files)
  {
    if files != [] {
      var init := files[..|files| - 1];
      assert forall f :: f in init ==> f in files;
      MergeFilesLocal(disk1, disk2, init);
      assert files[|files| - 1] in files;
    }
  }
}
