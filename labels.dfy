/** Display labels the pages share: the location group of a bottle, the vintage label
    of a non-vintage wine, and the city-and-stars line under a tasting card. */
module Labels {
  import opened Wrappers
  import Strings
  import Shared

  /** `str(loc)` for an optional text column: `None` prints as "None". */
  function LocText(loc: Option<string>): (r: string)
    ensures loc.Some? ==> r == loc.value
    ensures loc.None? ==> r == "None"
  {
    match loc
    case Some(s) => s
    case None => "None"
  }

  /** `get_loc_group(loc)`: locations starting with "H" are at home, those starting with
      "WB" at the WineBanc store; any other location is its own group. */
  function LocGroup(loc: Option<string>): (r: string)
    ensures Strings.StartsWith(LocText(loc), "H") ==> r == "Home"
    ensures !Strings.StartsWith(LocText(loc), "H") && Strings.StartsWith(LocText(loc), "WB") ==> r == "WineBanc"
    ensures !Strings.StartsWith(LocText(loc), "H") && !Strings.StartsWith(LocText(loc), "WB") ==> r == LocText(loc)
  {
    var s := LocText(loc);
    if Strings.StartsWith(s, "H") then "Home"
    else if Strings.StartsWith(s, "WB") then "WineBanc"
    else s
  }

  /** Grouping is idempotent: a group name is its own group. */
  lemma LocGroupIdempotent(loc: Option<string>)
    ensures LocGroup(Some(LocGroup(loc))) == LocGroup(loc)
  {
    var g := LocGroup(loc);
    var s := LocText(loc);
    if !Strings.StartsWith(s, "H") && !Strings.StartsWith(s, "WB") {
      assert LocText(Some(g)) == s;
    } else if g == "Home" {
      assert Strings.StartsWith(LocText(Some(g)), "H");
    } else {
      assert g == "WineBanc" && g[1] == 'i';
      assert !Strings.StartsWith(LocText(Some(g)), "WB");
    }
  }

  /** The vintage shown for a wine: "NV - <disgorgement>" for a non-vintage wine with a
      disgorgement date, otherwise the vintage as stored. */
  function VintageLabel(vintage: Option<string>, disgorgement: Option<string>): (r: Option<string>)
    ensures vintage == Some("NV") && Shared.Truthy(disgorgement) ==> r == Some("NV - " + disgorgement.value)
    ensures !(vintage == Some("NV") && Shared.Truthy(disgorgement)) ==> r == vintage
  {
    if vintage == Some("NV") && Shared.Truthy(disgorgement) then Some("NV - " + disgorgement.value)
    else vintage
  }

  /** A label differs from the stored vintage only for "NV", and it keeps the "NV" in front. */
  lemma VintageLabelKeepsVintage(vintage: Option<string>, disgorgement: Option<string>)
    ensures var r := VintageLabel(vintage, disgorgement);
      r.Some? <==> vintage.Some?
    ensures var r := VintageLabel(vintage, disgorgement);
      r != vintage ==> vintage == Some("NV") && Strings.StartsWith(r.value, "NV - ")
  {
  }

  const Star := "\U{2B50}"
  const MetaSeparator := " \U{2022} "
  const EmptyMeta := "&nbsp;"

  /** The parts of the line under a tasting card: the city when it is set, then the
      stars when there are any. */
  function MetaParts(city: Option<string>, stars: int): seq<string> {
    (if Shared.Truthy(city) then [city.value] else []) + (if stars != 0 then [Strings.Repeat(Star, stars)] else [])
  }

  /** The line itself: the parts joined with " • ", or a non-breaking space when there
      are none. */
  function Meta(city: Option<string>, stars: int): (r: string)
    ensures !Shared.Truthy(city) && stars == 0 ==> r == EmptyMeta
    ensures Shared.Truthy(city) && stars == 0 ==> r == city.value
    ensures !Shared.Truthy(city) && stars != 0 ==> r == Strings.Repeat(Star, stars)
    ensures Shared.Truthy(city) && stars != 0 ==> r == city.value + MetaSeparator + Strings.Repeat(Star, stars)
  {
    var parts := MetaParts(city, stars);
    assert |parts| == 2 ==> Strings.Join(parts, MetaSeparator) == parts[0] + MetaSeparator + parts[1] by {
      if |parts| == 2 {
        assert Strings.Join(parts[1..], MetaSeparator) == parts[1];
      }
    }
    if parts == [] then EmptyMeta else Strings.Join(parts, MetaSeparator)
  }
}
