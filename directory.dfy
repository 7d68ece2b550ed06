/** The directory pages: producers with their cleaned "Lists" column, the list options
    and the list filter, and places with their visit count, last visit, ordering and
    star display. */
module Directory {
  import opened Wrappers
  import Strings
  import Lists
  import Sorting
  import Dates
  import Shared
  import Details

  // ---- producers: the "Lists" column ----

  /** `.str.strip("[]").str.replace("'", "").str.replace('"', "").str.strip()`. */
  function CleanLists(s: string): (r: string)
    ensures '\'' !in r && '"' !in r
    ensures r != [] ==> !Strings.IsSpace(r[0]) && !Strings.IsSpace(r[|r| - 1])
    ensures forall c :: c in r ==> c in s
    ensures forall c :: c in s && c !in {'[', ']', '\'', '"'} && !Strings.IsSpace(c) ==> c in r
  {
    var unbracketed := Strings.StripChars(s, {'[', ']'});
    var noSingle := Strings.RemoveChar(unbracketed, '\'');
    var noDouble := Strings.RemoveChar(noSingle, '"');
    Strings.RemoveCharKeeps(unbracketed, '\'');
    Strings.RemoveCharKeeps(noSingle, '"');
    assert '\'' !in noDouble;
    CleanStepsKeep(s);
    Strings.Strip(noDouble)
  }

  /** A character that none of the four cleaning steps removes survives them. */
  lemma CleanStepsKeep(s: string)
    ensures var noDouble := Strings.RemoveChar(Strings.RemoveChar(Strings.StripChars(s, {'[', ']'}), '\''), '"');
      forall c :: c in s && c !in {'[', ']', '\'', '"'} && !Strings.IsSpace(c) ==> c in Strings.Strip(noDouble)
  {
    var unbracketed := Strings.StripChars(s, {'[', ']'});
    var noSingle := Strings.RemoveChar(unbracketed, '\'');
    var noDouble := Strings.RemoveChar(noSingle, '"');
    Strings.StripCharsKeeps(s, {'[', ']'});
    Strings.RemoveCharKeeps(unbracketed, '\'');
    Strings.RemoveCharKeeps(noSingle, '"');
    Strings.StripKeeps(noDouble);
    KeptThroughSteps(s, unbracketed, noSingle, noDouble, Strings.Strip(noDouble));
  }

  /** Four steps that each keep the characters they do not remove keep them all. */
  lemma KeptThroughSteps(s: string, unbracketed: string, noSingle: string, noDouble: string, r: string)
    requires forall c :: c in s && c !in {'[', ']'} ==> c in unbracketed
    requires forall c :: c in unbracketed && c != '\'' ==> c in noSingle
    requires forall c :: c in noSingle && c != '"' ==> c in noDouble
    requires forall c :: c in noDouble && !Strings.IsSpace(c) ==> c in r
    ensures forall c :: c in s && c !in {'[', ']', '\'', '"'} && !Strings.IsSpace(c) ==> c in r
  {
  }

  /** The `.str` accessor leaves a missing value missing. */
  function CleanColumn(l: Option<string>): (r: Option<string>)
    ensures r.Some? <==> l.Some?
    ensures r.Some? ==> r.value == CleanLists(l.value)
  {
    match l
    case Some(s) => Some(CleanLists(s))
    case None => None
  }

  /** `[item.strip() for item in str(l).split(",")]`. */
  function SplitItems(l: string): (r: seq<string>)
    ensures |r| == |Strings.Split(l, ',')|
    ensures forall i :: 0 <= i < |r| ==> ',' !in r[i]
  {
    var parts := Strings.Split(l, ',');
    seq(|parts|, i requires 0 <= i < |parts| => Strings.Strip(parts[i]))
  }

  /** `split_lists` after the loop over the non-missing cells of the column. */
  function AllItems(col: seq<Option<string>>): seq<string>
    decreases |col|
  {
    if col == [] then []
    else
      var last := col[|col| - 1];
      AllItems(col[..|col| - 1]) + (if last.Some? then SplitItems(last.value) else [])
  }

  /** An item comes from one cell of the column. */
  lemma AllItemsMembers(col: seq<Option<string>>, x: string)
    ensures x in AllItems(col) <==> exists k :: 0 <= k < |col| && col[k].Some? && x in SplitItems(col[k].value)
  {
    if x in AllItems(col) {
      var k := CellOfItem(col, x);
    }
    if exists k :: 0 <= k < |col| && col[k].Some? && x in SplitItems(col[k].value) {
      var k :| 0 <= k < |col| && col[k].Some? && x in SplitItems(col[k].value);
      ItemOfCell(col, x, k);
    }
  }

  /** The cell an item of the column comes from. */
  lemma {:induction false} CellOfItem(col: seq<Option<string>>, x: string) returns (k: nat)
    requires x in AllItems(col)
    ensures k < |col| && col[k].Some? && x in SplitItems(col[k].value)
    decreases |col|
  {
    var init := col[..|col| - 1];
    if x in AllItems(init) {
      k := CellOfItem(init, x);
      assert init[k] == col[k];
    } else {
      k := |col| - 1;
    }
  }

  /** Every item of a cell is an item of the column. */
  lemma {:induction false} ItemOfCell(col: seq<Option<string>>, x: string, k: nat)
    requires k < |col| && col[k].Some? && x in SplitItems(col[k].value)
    ensures x in AllItems(col)
    decreases |col|
  {
    var init := col[..|col| - 1];
    if k < |col| - 1 {
      assert init[k] == col[k];
      ItemOfCell(init, x, k);
    }
    assert AllItems(col) == AllItems(init) + (if col[|col| - 1].Some? then SplitItems(col[|col| - 1].value) else []);
  }

  /** The loop that extends `split_lists` cell by cell. It visits every non-null cell,
      where the source visits `.dropna().unique()`: a repeated cell only repeats items,
      and `ListOptions` keeps each item once. */
  method CollectItems(col: seq<Option<string>>) returns (items: seq<string>)
    ensures items == AllItems(col)
  {
    items := [];
    var i := 0;
    while i < |col|
      invariant 0 <= i <= |col|
      invariant items == AllItems(col[..i])
    {
      assert col[..i + 1][..i] == col[..i];
      if col[i].Some? {
        items := items + SplitItems(col[i].value);
      }
      i := i + 1;
    }
    assert col[..|col|] == col;
  }

  predicate NonEmpty(s: string) {
    s != ""
  }

  /** `sorted(set(item for item in split_lists if item))`. */
  function ListOptions(col: seq<Option<string>>): (r: seq<string>)
    ensures forall x :: x in r <==> x != "" && x in AllItems(col)
    ensures forall i, j :: 0 <= i < j < |r| ==> Strings.Less(r[i], r[j])
  {
    Sorting.SortedSet(Lists.Filter(AllItems(col), NonEmpty))
  }

  const QuoteChars: set<char> := {'\'', '"'}

  /** `i.strip().strip("'\"")`. */
  function Unquote(x: string): string {
    Strings.StripChars(Strings.Strip(x), QuoteChars)
  }

  /** `item_lists`: the cell's comma-separated items, each unquoted. */
  function UnquotedItems(cell: string): seq<string> {
    Lists.Map(Strings.Split(cell, ','), Unquote)
  }

  /** `has_selected_list(cell)`: an empty or missing cell has no list; otherwise some
      selected value names one of the cell's comma-separated items, both compared
      after stripping blanks and then quotes. */
  function HasSelectedList(cell: Option<string>, selected: seq<string>): (r: bool)
    ensures !Shared.Truthy(cell) ==> !r
    ensures Shared.Truthy(cell) ==>
      (r <==> exists s, item :: s in selected && item in Strings.Split(cell.value, ',') && Unquote(s) == Unquote(item))
  {
    if !Shared.Truthy(cell) then false
    else exists s :: s in selected && Unquote(s) in UnquotedItems(cell.value)
  }

  /** Every offered list option finds the producers whose cell it came from. */
  lemma OptionFindsItsRows(col: seq<Option<string>>, x: string)
    requires x in ListOptions(col)
    ensures exists k :: 0 <= k < |col| && HasSelectedList(col[k], [x])
  {
    AllItemsMembers(col, x);
    var k :| 0 <= k < |col| && col[k].Some? && x in SplitItems(col[k].value);
    ItemSelectsCell(col[k].value, x);
  }

  /** A non-empty item of a cell, selected, selects that cell. */
  lemma ItemSelectsCell(cell: string, x: string)
    requires x in SplitItems(cell) && x != ""
    ensures HasSelectedList(Some(cell), [x])
  {
    var parts := Strings.Split(cell, ',');
    var i :| 0 <= i < |parts| && SplitItems(cell)[i] == x;
    var part := parts[i];
    assert x == Strings.Strip(part);
    assert Unquote(x) == Unquote(part) by {
      Strings.StripIdempotent(part);
    }
    assert cell != "";
    SelectedByWitness(cell, [x], x, part);
  }

  /** One selected value that matches one item of a non-empty cell selects the cell. */
  lemma SelectedByWitness(cell: string, selected: seq<string>, s: string, item: string)
    requires cell != "" && s in selected && item in Strings.Split(cell, ',') && Unquote(s) == Unquote(item)
    ensures HasSelectedList(Some(cell), selected)
  {
  }

  /** A producer row as the directory shows it. */
  datatype Producer = Producer(
    name: string,
    region: Option<string>,
    subregion: Option<string>,
    village: Option<string>,
    winemaker: Option<string>,
    lists: Option<string>)

  /** The multiselects (their options never hold a missing value) and the search box. */
  datatype ProducerSelection = ProducerSelection(
    regions: seq<string>,
    subregions: seq<string>,
    villages: seq<string>,
    winemakers: seq<string>,
    lists: seq<string>,
    search: string)

  /** `isin` on a column with missing values: a missing value never matches. */
  predicate IsIn(v: Option<string>, sel: seq<string>) {
    v.Some? && v.value in sel
  }

  /** `str.contains(search, case=False)` for a search text without pattern characters. */
  predicate NameMatches(name: string, search: string) {
    Strings.Contains(Strings.Lower(name), Strings.Lower(search))
  }

  predicate ProducerPasses(sel: ProducerSelection, p: Producer) {
    (sel.regions == [] || IsIn(p.region, sel.regions))
    && (sel.subregions == [] || IsIn(p.subregion, sel.subregions))
    && (sel.villages == [] || IsIn(p.village, sel.villages))
    && (sel.winemakers == [] || IsIn(p.winemaker, sel.winemakers))
    && (sel.lists == [] || HasSelectedList(CleanColumn(p.lists), sel.lists))
    && (sel.search == "" || NameMatches(p.name, sel.search))
  }

  /** The producers left after the filters: an empty selection or search restricts
      nothing; a producer with no lists is dropped by any list selection. */
  function ProducersShown(ps: seq<Producer>, sel: ProducerSelection): (r: seq<Producer>)
    ensures forall p :: p in r <==> p in ps && ProducerPasses(sel, p)
    ensures sel.lists != [] ==> forall p :: p in r ==> Shared.Truthy(CleanColumn(p.lists))
  {
    Lists.Filter(ps, (p: Producer) => ProducerPasses(sel, p))
  }

  /** Searching ignores letter case. */
  lemma SearchIgnoresCase(name: string, search: string)
    ensures NameMatches(name, search) == NameMatches(Strings.Upper(name), search)
  {
    assert Strings.Lower(Strings.Upper(name)) == Strings.Lower(name);
  }

  // ---- places ----

  /** A place with the dates of its tasting notes and its visits. */
  datatype Place = Place(
    name: string,
    city: Option<string>,
    country: Option<string>,
    kind: Option<string>,
    stars: Option<int>,
    noteDates: seq<Option<Dates.Date>>,
    visitDates: seq<Option<Dates.Date>>)

  datatype PlaceRow = PlaceRow(
    name: string,
    city: Option<string>,
    country: Option<string>,
    kind: Option<string>,
    stars: int,
    visits: nat,
    lastVisit: Option<Dates.Date>)

  /** `max(all_dates) if all_dates else None` over the dated entries. */
  function LatestDate(ds: seq<Option<Dates.Date>>): (r: Option<Dates.Date>)
    ensures r.None? <==> forall i :: 0 <= i < |ds| ==> ds[i].None?
    ensures r.Some? ==> Some(r.value) in ds
    ensures r.Some? ==> forall d :: Some(d) in ds ==> Dates.NotAfter(d, r.value)
    decreases |ds|
  {
    if ds == [] then None
    else
      var init := ds[..|ds| - 1];
      var last := ds[|ds| - 1];
      assert ds == init + [last];
      var m := LatestDate(init);
      if last.None? then m
      else if m.None? then last
      else Some(Dates.Max(m.value, last.value))
  }

  /** The "Michelin Stars", "Visits" and "Last Visit" columns of one place. */
  function MakeRow(p: Place): PlaceRow {
    PlaceRow(p.name, p.city, p.country, p.kind,
      if p.stars.Some? && p.stars.value != 0 then p.stars.value else 0,
      Details.VisitCount(p.noteDates, p.visitDates),
      LatestDate(p.noteDates + p.visitDates))
  }

  /** The latest date of two lists is the latest of their distinct dates. */
  lemma LatestOfBoth(a: seq<Option<Dates.Date>>, b: seq<Option<Dates.Date>>)
    ensures var r := LatestDate(a + b);
      r.None? <==> Details.DateSet(a) + Details.DateSet(b) == {}
    ensures var r := LatestDate(a + b);
      r.Some? ==> r.value in Details.DateSet(a) + Details.DateSet(b)
    ensures var r := LatestDate(a + b);
      r.Some? ==> forall d :: d in Details.DateSet(a) + Details.DateSet(b) ==> Dates.NotAfter(d, r.value)
  {
    var all := a + b;
    var dates := Details.DateSet(a) + Details.DateSet(b);
    assert forall d :: d in dates <==> Some(d) in all;
  }

  /** The last visit is the latest of the counted dates; there is one exactly when the
      count is not zero. */
  lemma MakeRowVisits(p: Place)
    ensures var r := MakeRow(p);
      r.lastVisit.None? <==> r.visits == 0
    ensures var r := MakeRow(p);
      r.lastVisit.Some? ==> r.lastVisit.value in Details.DateSet(p.noteDates) + Details.DateSet(p.visitDates)
    ensures var r := MakeRow(p);
      r.lastVisit.Some? ==>
        forall d :: d in Details.DateSet(p.noteDates) + Details.DateSet(p.visitDates) ==> Dates.NotAfter(d, r.lastVisit.value)
  {
    LatestOfBoth(p.noteDates, p.visitDates);
  }

  /** The loop that appends one row per place. */
  method PlaceRows(places: seq<Place>) returns (rows: seq<PlaceRow>)
    ensures |rows| == |places|
    ensures forall i :: 0 <= i < |places| ==> rows[i] == MakeRow(places[i])
  {
    rows := [];
    for i := 0 to |places|
      invariant |rows| == i
      invariant forall k :: 0 <= k < i ==> rows[k] == MakeRow(places[k])
    {
      var row := MakeRow(places[i]);
      rows := rows + [row];
    }
  }

  /** `sort_values("Last Visit", ascending=False, na_position="last")`: a row may
      precede another when its last visit is not earlier, and rows without one go last. */
  function RecentFirst(): (le: (PlaceRow, PlaceRow) -> bool) {
    (a: PlaceRow, b: PlaceRow) =>
      match (a.lastVisit, b.lastVisit)
      case (Some(x), Some(y)) => !Dates.Before(x, y)
      case (Some(_), None) => true
      case (None, Some(_)) => false
      case (None, None) => true
  }

  lemma RecentFirstTotal()
    ensures Sorting.TotalPreorder(RecentFirst())
  {
    var le := RecentFirst();
    forall a: PlaceRow, b: PlaceRow
      ensures le(a, b) || le(b, a)
    {
      if a.lastVisit.Some? && b.lastVisit.Some? {
        Dates.BeforeTotal(a.lastVisit.value, b.lastVisit.value);
      }
    }
    forall a: PlaceRow, b: PlaceRow, c: PlaceRow | le(a, b) && le(b, c)
      ensures le(a, c)
    {
      if a.lastVisit.Some? && b.lastVisit.Some? && c.lastVisit.Some? {
        var x, y, z := a.lastVisit.value, b.lastVisit.value, c.lastVisit.value;
        Dates.BeforeTotal(x, y);
        Dates.BeforeTotal(y, z);
        Dates.BeforeTotal(x, z);
        if Dates.Before(x, z) {
          if Dates.Before(y, z) {
            assert false;
          }
          if Dates.Before(x, y) {
            assert false;
          }
          if y == z {
            assert false;
          }
          Dates.BeforeTransitive(x, z, y);
        }
      }
    }
  }

  /** The sorted table holds the same rows, latest visit first, rows without a visit
      at the end. */
  function SortPlaces(rows: seq<PlaceRow>): (r: seq<PlaceRow>)
    ensures multiset(r) == multiset(rows)
    ensures forall i, j :: 0 <= i < j < |r| && r[j].lastVisit.Some? ==>
      r[i].lastVisit.Some? && Dates.NotAfter(r[j].lastVisit.value, r[i].lastVisit.value)
  {
    Sorting.SortByPermutation(rows, RecentFirst());
    RecentFirstTotal();
    Sorting.SortBySorted(rows, RecentFirst());
    var r := Sorting.SortBy(rows, RecentFirst());
    forall i, j | 0 <= i < j < |r| && r[j].lastVisit.Some?
      ensures r[i].lastVisit.Some? && Dates.NotAfter(r[j].lastVisit.value, r[i].lastVisit.value)
    {
      assert RecentFirst()(r[i], r[j]);
      if r[i].lastVisit.Some? {
        Dates.BeforeTotal(r[i].lastVisit.value, r[j].lastVisit.value);
      }
    }
    r
  }

  /** How the places tab ends: a `KeyError` escaping the page, the "No places found."
      notice, or the sorted table the filters are applied to. */
  datatype PlacesOutcome = KeyErrorRaised | NoPlacesFound | PlacesTable(rows: seq<PlaceRow>)

  /** The places tab as written: a frame built from no rows has no "Last Visit" column,
      so `sort_values` raises before the emptiness test is reached. */
  function PlacesPageAsWritten(rows: seq<PlaceRow>): (p: PlacesOutcome)
    ensures p.KeyErrorRaised? <==> rows == []
    ensures !p.NoPlacesFound?
    ensures p.PlacesTable? ==> p.rows == SortPlaces(rows)
  {
    if rows == [] then KeyErrorRaised else PlacesTable(SortPlaces(rows))
  }

  /** The places tab as intended: no places give the notice, never an exception. */
  function PlacesPage(rows: seq<PlaceRow>): (p: PlacesOutcome)
    ensures p.NoPlacesFound? <==> rows == []
    ensures !p.KeyErrorRaised?
    ensures p.PlacesTable? ==> p.rows == SortPlaces(rows) && p.rows != []
  {
    if rows == [] then NoPlacesFound else PlacesTable(SortPlaces(rows))
  }

  /** With no places at all, the written page raises where the intended one shows the
      notice; with at least one place the two agree. */
  lemma EmptyDirectoryRaises(rows: seq<PlaceRow>)
    ensures PlacesPageAsWritten([]) == KeyErrorRaised && PlacesPage([]) == NoPlacesFound
    ensures rows != [] ==> PlacesPageAsWritten(rows) == PlacesPage(rows)
  {
  }

  /** The place filters (options drawn without missing values) and the search box. */
  datatype PlaceSelection = PlaceSelection(
    countries: seq<string>,
    cities: seq<string>,
    kinds: seq<string>,
    stars: seq<int>,
    search: string)

  predicate PlacePasses(sel: PlaceSelection, r: PlaceRow) {
    (sel.countries == [] || IsIn(r.country, sel.countries))
    && (sel.cities == [] || IsIn(r.city, sel.cities))
    && (sel.kinds == [] || IsIn(r.kind, sel.kinds))
    && (sel.stars == [] || r.stars in sel.stars)
    && (sel.search == "" || NameMatches(r.name, sel.search))
  }

  /** The places left after the filters, in table order. */
  function PlacesShown(rows: seq<PlaceRow>, sel: PlaceSelection): (r: seq<PlaceRow>)
    ensures forall x :: x in r <==> x in rows && PlacePasses(sel, x)
  {
    Lists.Filter(rows, (x: PlaceRow) => PlacePasses(sel, x))
  }

  // ---- the star column ----

  /** The star glyph as the page writes it: the first two characters of the UTF-8
      bytes of U+2B50 read as Windows-1252, "â" and a soft hyphen. */
  const GarbledStar := "\U{E2}\U{AD}"

  /** `"â­" * int(x) if x > 0 else ""`, as written. */
  function StarDisplayAsWritten(n: int): (r: string)
    ensures |r| == if n > 0 then 2 * n else 0
  {
    if n > 0 then Strings.Repeat(GarbledStar, n) else ""
  }

  /** One star shows as two characters, neither of them a star. */
  lemma StarGlyphGarbled()
    ensures StarDisplayAsWritten(1) == "\U{E2}\U{AD}"
    ensures '\U{2B50}' !in StarDisplayAsWritten(3)
  {
    assert StarDisplayAsWritten(3) == GarbledStar + GarbledStar + GarbledStar;
  }

  /** The star column as intended: `n` star glyphs for `n > 0`, else nothing. */
  function StarDisplay(n: int): (r: string)
    ensures |r| == if n > 0 then n else 0
    ensures forall i :: 0 <= i < |r| ==> r[i] == '\U{2B50}'
  {
    Strings.RepeatChar('\U{2B50}', n);
    if n > 0 then Strings.Repeat("\U{2B50}", n) else ""
  }
}
