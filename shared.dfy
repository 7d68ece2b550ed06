/** Region helpers shared by every page: the region record, its name and colour
    lookups, get-or-create over the regions table, and the ISO country table that
    names the per-country PDO geometry files. */
module Shared {
  import opened Wrappers
  import Strings

  /** A row of the `regions` table (name is NOT NULL and unique). */
  datatype Region = Region(name: string, country: Option<string>, color: Option<string>)

  /** Python truthiness of an optional string column. */
  predicate Truthy(s: Option<string>) {
    s.Some? && s.value != ""
  }

  /** `get_region_name(obj)`: the attached region's name, or `None` when there is none. */
  function GetRegionName(regionObj: Option<Region>): (r: Option<string>)
    ensures r.Some? <==> regionObj.Some?
    ensures r.Some? ==> r.value == regionObj.value.name
  {
    match regionObj
    case Some(reg) => Some(reg.name)
    case None => None
  }

  /** `get_region_colors_map()`: a dict comprehension over the regions, later rows
      overriding earlier ones with the same name. */
  function RegionColorsMap(regions: seq<Region>): (m: map<string, string>)
    ensures forall n :: n in m ==> exists i :: 0 <= i < |regions| && regions[i].name == n
  {
    if regions == [] then map[]
    else
      var rest := RegionColorsMap(regions[..|regions| - 1]);
      var last := regions[|regions| - 1];
      if Truthy(last.color) then rest[last.name := last.color.value] else rest
  }

  /** Region names are unique, as the table's UNIQUE constraint demands. */
  predicate UniqueNames(regions: seq<Region>) {
    forall i, j :: 0 <= i < j < |regions| ==> regions[i].name != regions[j].name
  }

  /** With unique names, the colours map holds exactly the regions with a truthy colour,
      each mapped to its own colour. */
  lemma {:induction false} RegionColorsMapExact(regions: seq<Region>)
    requires UniqueNames(regions)
    ensures forall i :: 0 <= i < |regions| ==>
      (regions[i].name in RegionColorsMap(regions) <==> Truthy(regions[i].color))
    ensures forall i :: 0 <= i < |regions| && Truthy(regions[i].color) ==>
      RegionColorsMap(regions)[regions[i].name] == regions[i].color.value
  {
    if regions != [] {
      var init := regions[..|regions| - 1];
      assert UniqueNames(init);
      RegionColorsMapExact(init);
      var last := regions[|regions| - 1];
      forall i | 0 <= i < |init|
        ensures init[i].name != last.name
      {
        assert regions[i] == init[i];
      }
      forall i | 0 <= i < |regions|
        ensures regions[i].name in RegionColorsMap(regions) <==> Truthy(regions[i].color)
        ensures Truthy(regions[i].color) ==> RegionColorsMap(regions)[regions[i].name] == regions[i].color.value
      {
        if i < |init| {
          assert regions[i] == init[i];
        }
      }
    }
  }

  /** The index of the first row with the given name, as `query(...).first()` finds it. */
  function FindFrom(rows: seq<Region>, name: string, i: nat): (r: Option<nat>)
    requires i <= |rows|
    ensures r.Some? ==> i <= r.value < |rows| && rows[r.value].name == name
    ensures r.Some? ==> forall j :: i <= j < r.value ==> rows[j].name != name
    ensures r.None? ==> forall j :: i <= j < |rows| ==> rows[j].name != name
    decreases |rows| - i
  {
    if i == |rows| then None
    else if rows[i].name == name then Some(i)
    else FindFrom(rows, name, i + 1)
  }

  /** The outcome of `get_or_create_region(session, name)` on a table: the index of the
      region returned (`None` for a missing or blank name) and the table afterwards. */
  function GetOrCreateResult(rows: seq<Region>, name: Option<string>): (res: (Option<nat>, seq<Region>))
    ensures name.None? || Strings.IsBlank(name.value) ==> res == (None, rows)
    ensures name.Some? && !Strings.IsBlank(name.value) ==>
      var trimmed := Strings.Strip(name.value);
      && res.0.Some? && res.0.value < |res.1| && res.1[res.0.value].name == trimmed
      && rows <= res.1 && |res.1| <= |rows| + 1
      && (|res.1| == |rows| + 1 <==> forall i :: 0 <= i < |rows| ==> rows[i].name != trimmed)
  {
    if name.None? || Strings.Strip(name.value) == [] then
      if name.Some? then Strings.StripEmptyIffBlank(name.value); (None, rows)
      else (None, rows)
    else
      Strings.StripEmptyIffBlank(name.value);
      var trimmed := Strings.Strip(name.value);
      match FindFrom(rows, trimmed, 0)
      case Some(i) => (Some(i), rows)
      case None => (Some(|rows|), rows + [Region(trimmed, None, None)])
  }

  /** Get-or-create keeps region names unique. */
  lemma GetOrCreateKeepsUnique(rows: seq<Region>, name: Option<string>)
    requires UniqueNames(rows)
    ensures UniqueNames(GetOrCreateResult(rows, name).1)
  {
    var res := GetOrCreateResult(rows, name);
    if |res.1| == |rows| + 1 {
      assert res.1 == rows + [res.1[|rows|]];
    }
  }

  /** Get-or-create is idempotent: a second call with the same name returns the same
      region and adds nothing. */
  lemma {:induction false} GetOrCreateIdempotent(rows: seq<Region>, name: Option<string>)
    requires UniqueNames(rows)
    ensures var (r1, rows1) := GetOrCreateResult(rows, name);
      GetOrCreateResult(rows1, name) == (r1, rows1)
  {
    var (r1, rows1) := GetOrCreateResult(rows, name);
    if name.Some? && !Strings.IsBlank(name.value) {
      var trimmed := Strings.Strip(name.value);
      GetOrCreateKeepsUnique(rows, name);
      var j := FindFrom(rows1, trimmed, 0);
      assert j.Some?;
    }
  }

  /** The regions table, held in memory in insertion order. */
  class RegionTable {
    var rows: seq<Region>

    ghost predicate Valid()
      reads this
    {
      UniqueNames(rows)
    }

    constructor (initial: seq<Region>)
      requires UniqueNames(initial)
      ensures rows == initial && Valid()
    {
      rows := initial;
    }

    /** `get_or_create_region(session, name)`: adds a row only when no region has the
        trimmed name. */
    method GetOrCreate(name: Option<string>) returns (r: Option<nat>)
      requires Valid()
      modifies this
      ensures Valid()
      ensures (r, rows) == GetOrCreateResult(old(rows), name)
    {
      GetOrCreateKeepsUnique(rows, name);
      if name.None? || Strings.Strip(name.value) == "" {
        return None;
      }
      var trimmed := Strings.Strip(name.value);
      var i := 0;
      while i < |rows|
        invariant 0 <= i <= |rows|
        invariant FindFrom(rows, trimmed, 0) == FindFrom(rows, trimmed, i)
      {
        if rows[i].name == trimmed {
          return Some(i);
        }
        i := i + 1;
      }
      rows := rows + [Region(trimmed, None, None)];
      r := Some(|rows| - 1);
    }
  }

  /** `ISO_MAP`: the two-letter codes for which the PDO file name is not simply the
      lower-cased code. */
  const IsoMap: map<string, string> := map[
    "IT" := "italy", "FR" := "france", "ES" := "spain", "DE" := "germany",
    "PT" := "portugal", "AT" := "austria", "BE" := "belgium", "BG" := "bulgaria",
    "CY" := "cyprus", "CZ" := "czech_republic", "EL" := "greece", "GR" := "gr",
    "HU" := "hungary", "HR" := "croatia", "LU" := "luxembourg", "MT" := "malta",
    "NL" := "netherlands", "PL" := "poland", "RO" := "romania", "SI" := "slovenia",
    "SK" := "slovakia", "GB" := "united_kingdom", "DK" := "dk"
  ]
}
