/** The tastings page: the period picker, the filters over the tasting rows and the
    restaurant visits, the merged event list, and the map of geocoded places with
    their event counts. */
module TastingHistory {
  import opened Wrappers
  import Dates
  import Lists
  import Sorting

  // ---- period ----

  datatype Period = YearToDate | All | Last30Days | Custom

  datatype Range = Range(start: Dates.Date, end: Dates.Date)

  /** The start and end dates for a period. `minDate` and `dataMax` are the oldest and
      newest tasting dates, `today` the clock's date, `picked` what the Custom range
      picker returned (a pair once both ends are chosen). */
  function PeriodRange(period: Period, minDate: Dates.Date, dataMax: Dates.Date, today: Dates.Date,
                       picked: seq<Dates.Date>): (r: Range)
    requires Dates.Valid(today)
    requires period == Last30Days ==> Dates.CanGoBack(today, 30)
    ensures !(period == Custom && |picked| == 2) ==> r.end == Dates.Max(dataMax, today)
    ensures period == YearToDate ==> r.start == Dates.Max(minDate, Dates.NewYear(today.year))
    ensures period == Last30Days ==> r.start == Dates.Max(minDate, Dates.DaysBack(today, 30))
    ensures period == All ==> r.start == minDate
    ensures period == Custom && |picked| == 2 ==> r == Range(picked[0], picked[1])
  {
    var pickerMax := Dates.Max(dataMax, today);
    var ytdStart := Dates.NewYear(today.year);
    match period
    case YearToDate => Range(Dates.Max(minDate, ytdStart), pickerMax)
    case Last30Days => Range(Dates.Max(minDate, Dates.DaysBack(today, 30)), pickerMax)
    case All => Range(minDate, pickerMax)
    case Custom =>
      var initStart := Dates.Max(minDate, ytdStart);
      var initStart := if Dates.Before(pickerMax, initStart) then pickerMax else initStart;
      if |picked| == 2 then Range(picked[0], picked[1]) else Range(initStart, pickerMax)
  }

  /** Unless the user picked both ends, the range is never empty, starts no earlier than
      the oldest tasting and ends no earlier than today or the newest tasting. */
  lemma PeriodRangeSound(period: Period, minDate: Dates.Date, dataMax: Dates.Date, today: Dates.Date,
                         picked: seq<Dates.Date>)
    requires Dates.Valid(today)
    requires period == Last30Days ==> Dates.CanGoBack(today, 30)
    requires Dates.NotAfter(minDate, dataMax)
    requires !(period == Custom && |picked| == 2)
    ensures var r := PeriodRange(period, minDate, dataMax, today, picked);
      Dates.NotAfter(minDate, r.start) && Dates.NotAfter(r.start, r.end)
      && Dates.NotAfter(today, r.end) && Dates.NotAfter(dataMax, r.end)
  {
    var r := PeriodRange(period, minDate, dataMax, today, picked);
    var ytd := Dates.NewYear(today.year);
    assert Dates.NotAfter(ytd, today);
    Dates.BeforeTotal(minDate, dataMax);
    if period == Last30Days && today != r.end {
      Dates.BeforeTransitive(Dates.DaysBack(today, 30), today, r.end);
    }
  }

  // ---- rows and filters ----

  /** A place as the tasting query and the visit query see it. */
  datatype PlaceInfo = PlaceInfo(id: int, name: string, city: Option<string>, stars: Option<int>,
                                 lat: Option<real>, lng: Option<real>)

  /** One row of the tasting query: the tasting joined with its wine and, when it has
      one, its place; `locRaw` is the tasting's free-text location. */
  datatype Row = Row(tid: int, date: Dates.Date, color: Option<string>, region: Option<string>,
                     domaine: string, place: Option<PlaceInfo>, locRaw: Option<string>)

  /** The Location column: the place name, filled in from the free-text location when
      the tasting has no place. */
  function Location(r: Row): (l: Option<string>)
    ensures r.place.Some? ==> l == Some(r.place.value.name)
    ensures r.place.None? ==> l == r.locRaw
  {
    if r.place.Some? then Some(r.place.value.name) else r.locRaw
  }

  /** The four multiselects; an empty selection selects everything. */
  datatype Selection = Selection(colors: seq<Option<string>>, regions: seq<Option<string>>,
                                 producers: seq<string>, locations: seq<Option<string>>)

  predicate InRange(d: Dates.Date, period: Period, range: Range) {
    period == All || (Dates.NotAfter(range.start, d) && Dates.NotAfter(d, range.end))
  }

  predicate Passes(r: Row, sel: Selection, period: Period, range: Range) {
    (sel.colors == [] || r.color in sel.colors)
    && (sel.regions == [] || r.region in sel.regions)
    && (sel.producers == [] || r.domaine in sel.producers)
    && (sel.locations == [] || Location(r) in sel.locations)
    && InRange(r.date, period, range)
  }

  /** The filtered tasting rows, in query order. */
  function FilterRows(rows: seq<Row>, sel: Selection, period: Period, range: Range): (r: seq<Row>)
    ensures forall x :: x in r <==> (x in rows
      && (sel.colors == [] || x.color in sel.colors)
      && (sel.regions == [] || x.region in sel.regions)
      && (sel.producers == [] || x.domaine in sel.producers)
      && (sel.locations == [] || Location(x) in sel.locations)
      && (period == All || (Dates.NotAfter(range.start, x.date) && Dates.NotAfter(x.date, range.end))))
  {
    Lists.Filter(rows, x => Passes(x, sel, period, range))
  }

  /** With nothing selected and the whole period, no row is dropped. */
  lemma NoFilterKeepsAll(rows: seq<Row>, range: Range)
    ensures FilterRows(rows, Selection([], [], [], []), All, range) == rows
  {
    Lists.FilterAll(rows, x => Passes(x, Selection([], [], [], []), All, range));
  }

  /** Both ends of the range are kept. */
  lemma RangeInclusive(r: Row, period: Period, range: Range)
    requires r.date == range.start || r.date == range.end
    requires Dates.NotAfter(range.start, range.end)
    ensures InRange(r.date, period, range)
  {
  }

  // ---- restaurant visits ----

  datatype Visit = Visit(id: int, date: Dates.Date, place: PlaceInfo)

  /** Visits carry no colour, region or producer: they are shown only while none of
      those filters is active. */
  predicate VisitsShown(sel: Selection) {
    sel.colors == [] && sel.regions == [] && sel.producers == []
  }

  /** The visit query as written: the location filter names the places table without
      joining it to the visits (the eager load uses its own alias), so the query is the
      cross product with the places table, and a visit passes when ANY place has a
      selected name. */
  function ShownVisitsAsWritten(visits: seq<Visit>, places: seq<PlaceInfo>, sel: Selection,
                                period: Period, range: Range): (r: seq<Visit>)
    ensures !VisitsShown(sel) ==> r == []
    ensures VisitsShown(sel) && sel.locations != [] && !(exists p :: p in places && Some(p.name) in sel.locations) ==> r == []
    ensures forall v :: v in r <==> (v in visits && VisitsShown(sel) && InRange(v.date, period, range)
      && (sel.locations == [] || exists p :: p in places && Some(p.name) in sel.locations))
  {
    if !VisitsShown(sel) then []
    else
      var r := Lists.Filter(visits, VisitQueryAsWritten(places, sel, period, range));
      assert r != [] ==> r[0] in r;
      r
  }

  function VisitQueryAsWritten(places: seq<PlaceInfo>, sel: Selection, period: Period, range: Range): Visit -> bool {
    var anyPlace := exists p :: p in places && Some(p.name) in sel.locations;
    (v: Visit) => InRange(v.date, period, range) && (sel.locations == [] || anyPlace)
  }

  function VisitQuery(sel: Selection, period: Period, range: Range): Visit -> bool {
    (v: Visit) => InRange(v.date, period, range) && (sel.locations == [] || Some(v.place.name) in sel.locations)
  }

  /** The visit query as intended: a visit passes the location filter when its own
      place has a selected name. */
  function ShownVisits(visits: seq<Visit>, sel: Selection, period: Period, range: Range): (r: seq<Visit>)
    ensures forall v :: v in r <==> (v in visits && VisitsShown(sel) && InRange(v.date, period, range)
      && (sel.locations == [] || Some(v.place.name) in sel.locations))
  {
    if !VisitsShown(sel) then []
    else Lists.Filter(visits, VisitQuery(sel, period, range))
  }

  /** Filtering on "Noma" still shows the visit to "Frantzen", because a place called
      "Noma" exists. */
  lemma LocationFilterLeaks()
    ensures var d := Dates.Date(2024, 5, 1);
      var noma := PlaceInfo(1, "Noma", None, None, None, None);
      var frantzen := PlaceInfo(2, "Frantzen", None, None, None, None);
      var v := Visit(7, d, frantzen);
      var sel := Selection([], [], [], [Some("Noma")]);
      ShownVisitsAsWritten([v], [noma, frantzen], sel, All, Range(d, d)) == [v]
      && ShownVisits([v], sel, All, Range(d, d)) == []
  {
    var d := Dates.Date(2024, 5, 1);
    var noma := PlaceInfo(1, "Noma", None, None, None, None);
    var frantzen := PlaceInfo(2, "Frantzen", None, None, None, None);
    var v := Visit(7, d, frantzen);
    var sel := Selection([], [], [], [Some("Noma")]);
    assert noma in [noma, frantzen] && Some(noma.name) in sel.locations;
    assert Some(frantzen.name) !in sel.locations;
    var r := ShownVisitsAsWritten([v], [noma, frantzen], sel, All, Range(d, d));
    assert v in r;
    assert |r| <= 1;
    assert r == [v];
  }

  /** Where no location is selected the two agree. */
  lemma ShownVisitsAgree(visits: seq<Visit>, places: seq<PlaceInfo>, sel: Selection, period: Period, range: Range)
    requires sel.locations == []
    ensures ShownVisitsAsWritten(visits, places, sel, period, range) == ShownVisits(visits, sel, period, range)
  {
    if VisitsShown(sel) {
      Lists.FilterSame(visits, VisitQueryAsWritten(places, sel, period, range), VisitQuery(sel, period, range));
    }
  }

  // ---- the merged event list ----

  /** A card: a restaurant visit, or the tastings of one (date, location) group. */
  datatype Event =
    | VisitEvent(visit: Visit)
    | TastingGroup(day: Dates.Date, placeName: Option<string>, plid: Option<int>, wines: seq<Row>)

  function EventDate(e: Event): Dates.Date {
    if e.VisitEvent? then e.visit.date else e.day
  }

  /** The order of `sort(key=date, reverse=True)` on events. */
  function LaterEvent(): (le: (Event, Event) -> bool)
  {
    (a: Event, b: Event) => !Dates.Before(EventDate(a), EventDate(b))
  }

  lemma LaterEventTotal()
    ensures Sorting.TotalPreorder(LaterEvent())
  {
    forall a: Event, b: Event
      ensures LaterEvent()(a, b) || LaterEvent()(b, a)
    {
      Dates.BeforeTotal(EventDate(a), EventDate(b));
    }
    forall a: Event, b: Event, c: Event | LaterEvent()(a, b) && LaterEvent()(b, c)
      ensures LaterEvent()(a, c)
    {
      if Dates.Before(EventDate(a), EventDate(c)) {
        Dates.BeforeTotal(EventDate(a), EventDate(b));
        Dates.BeforeTotal(EventDate(b), EventDate(c));
      }
    }
  }

  function VisitEvents(vs: seq<Visit>): (r: seq<Event>)
    ensures |r| == |vs| && forall i :: 0 <= i < |vs| ==> r[i] == VisitEvent(vs[i])
  {
    seq(|vs|, i requires 0 <= i < |vs| => VisitEvent(vs[i]))
  }

  /** `visits_data + tastings_data`, sorted newest first. */
  function MergeEvents(vs: seq<Visit>, groups: seq<Event>): seq<Event> {
    Sorting.SortBy(VisitEvents(vs) + groups, LaterEvent())
  }

  predicate OnDay(e: Event, d: Dates.Date) {
    EventDate(e) == d
  }

  /** The merged list has every visit and every group once, newest first, and on any
      one day the visits come first and each kind keeps its own order. */
  lemma MergeEventsOrder(vs: seq<Visit>, groups: seq<Event>, d: Dates.Date)
    ensures var r := MergeEvents(vs, groups);
      multiset(r) == multiset(VisitEvents(vs) + groups)
      && (forall i, j :: 0 <= i < j < |r| ==> !Dates.Before(EventDate(r[i]), EventDate(r[j])))
      && Lists.Filter(r, e => OnDay(e, d))
        == Lists.Filter(VisitEvents(vs), e => OnDay(e, d)) + Lists.Filter(groups, e => OnDay(e, d))
  {
    var xs := VisitEvents(vs) + groups;
    Sorting.SortByPermutation(xs, LaterEvent());
    LaterEventTotal();
    Sorting.SortBySorted(xs, LaterEvent());
    Sorting.SortByStable(xs, LaterEvent(), e => OnDay(e, d));
    Lists.FilterAppend(VisitEvents(vs), groups, e => OnDay(e, d));
  }

  // ---- the map of places ----

  datatype MarkerKind = VisitMarker | TastingMarker

  datatype Marker = Marker(name: Option<string>, lat: real, lng: real, count: nat, kind: MarkerKind)

  /** `v.place.lat and v.place.lng`: a coordinate of exactly 0.0 is falsy. */
  predicate VisitGeocoded(v: Visit) {
    v.place.lat.Some? && v.place.lat.value != 0.0 && v.place.lng.Some? && v.place.lng.value != 0.0
  }

  /** `pd.notnull(row["Lat"]) and pd.notnull(row["Lng"])`. */
  predicate RowGeocoded(r: Row) {
    r.place.Some? && r.place.value.lat.Some? && r.place.value.lng.Some?
  }

  type Places = (seq<int>, map<int, Marker>)

  /** A visit sets its place's marker to one visit. */
  function AddVisit(m: Places, v: Visit): Places {
    if VisitGeocoded(v) then
      var pid := v.place.id;
      (if pid in m.1 then m.0 else m.0 + [pid],
       m.1[pid := Marker(Some(v.place.name), v.place.lat.value, v.place.lng.value, 1, VisitMarker)])
    else m
  }

  /** A geocoded tasting row adds one to its place's count, opening a tasting marker at
      zero first when the place has none. */
  function AddRow(m: Places, r: Row): Places {
    if RowGeocoded(r) then
      var pid := r.place.value.id;
      var mk := if pid in m.1 then m.1[pid]
        else Marker(Location(r), r.place.value.lat.value, r.place.value.lng.value, 0, TastingMarker);
      (if pid in m.1 then m.0 else m.0 + [pid], m.1[pid := mk.(count := mk.count + 1)])
    else m
  }

  function AfterVisits(vs: seq<Visit>): Places
    decreases |vs|
  {
    if vs == [] then ([], map[]) else AddVisit(AfterVisits(vs[..|vs| - 1]), vs[|vs| - 1])
  }

  function AfterRows(m: Places, rows: seq<Row>): Places
    decreases |rows|
  {
    if rows == [] then m else AddRow(AfterRows(m, rows[..|rows| - 1]), rows[|rows| - 1])
  }

  /** The `unique_places` loops: visits first, then the tasting rows. */
  method UniquePlaces(vs: seq<Visit>, rows: seq<Row>) returns (keys: seq<int>, places: map<int, Marker>)
    ensures (keys, places) == AfterRows(AfterVisits(vs), rows)
  {
    keys, places := [], map[];
    var i := 0;
    while i < |vs|
      invariant 0 <= i <= |vs|
      invariant (keys, places) == AfterVisits(vs[..i])
    {
      var v := vs[i];
      if v.place.lat.Some? && v.place.lat.value != 0.0 && v.place.lng.Some? && v.place.lng.value != 0.0 {
        if v.place.id !in places {
          keys := keys + [v.place.id];
        }
        places := places[v.place.id := Marker(Some(v.place.name), v.place.lat.value, v.place.lng.value, 1, VisitMarker)];
      }
      assert vs[..i + 1][..i] == vs[..i];
      i := i + 1;
    }
    assert vs[..|vs|] == vs;
    ghost var start := (keys, places);
    var j := 0;
    while j < |rows|
      invariant 0 <= j <= |rows|
      invariant (keys, places) == AfterRows(start, rows[..j])
    {
      var r := rows[j];
      if r.place.Some? && r.place.value.lat.Some? && r.place.value.lng.Some? {
        var pid := r.place.value.id;
        ghost var prev := (keys, places);
        if pid !in places {
          places := places[pid := Marker(Location(r), r.place.value.lat.value, r.place.value.lng.value, 0, TastingMarker)];
          keys := keys + [pid];
        }
        ghost var mk := places[pid];
        places := places[pid := places[pid].(count := places[pid].count + 1)];
        assert places == prev.1[pid := mk.(count := mk.count + 1)];
      }
      assert rows[..j + 1][..j] == rows[..j];
      j := j + 1;
    }
    assert rows[..|rows|] == rows;
  }

  /** The ids of the places of geocoded visits. */
  function VisitedIds(vs: seq<Visit>): set<int> {
    set v | v in vs && VisitGeocoded(v) :: v.place.id
  }

  /** The number of geocoded tasting rows at place `pid`. */
  function RowsAt(rows: seq<Row>, pid: int): nat
    decreases |rows|
  {
    if rows == [] then 0
    else
      var r := rows[|rows| - 1];
      RowsAt(rows[..|rows| - 1], pid) + (if RowGeocoded(r) && r.place.value.id == pid then 1 else 0)
  }

  /** After the visits: one marker per visited geocoded place, each counting one visit. */
  lemma {:induction false} AfterVisitsMarkers(vs: seq<Visit>)
    ensures var keys, m := AfterVisits(vs).0, AfterVisits(vs).1;
      (forall pid :: pid in m <==> pid in VisitedIds(vs))
      && (forall pid :: pid in m <==> pid in keys)
      && (forall pid :: pid in m ==> m[pid].count == 1 && m[pid].kind == VisitMarker)
    decreases |vs|
  {
    if vs != [] {
      var init := vs[..|vs| - 1];
      var last := vs[|vs| - 1];
      AfterVisitsMarkers(init);
      assert vs == init + [last];
      assert VisitedIds(vs) == VisitedIds(init) + (if VisitGeocoded(last) then {last.place.id} else {});
    }
  }

  /** After the rows: a place's count is its visit (if any) plus its geocoded tasting
      rows, and it is a visit marker exactly when it was visited. */
  lemma {:induction false} AfterRowsCounts(start: Places, rows: seq<Row>)
    requires forall pid :: pid in start.1 <==> pid in start.0
    ensures var keys, m := AfterRows(start, rows).0, AfterRows(start, rows).1;
      (forall pid :: pid in m <==> pid in start.1 || RowsAt(rows, pid) > 0)
      && (forall pid :: pid in m <==> pid in keys)
      && (forall pid :: pid in m ==>
            m[pid].count == (if pid in start.1 then start.1[pid].count else 0) + RowsAt(rows, pid)
            && m[pid].kind == (if pid in start.1 then start.1[pid].kind else TastingMarker))
    decreases |rows|
  {
    if rows != [] {
      AfterRowsCounts(start, rows[..|rows| - 1]);
    }
  }

  /** The map's markers, counted: a visited place shows 1 plus its tastings, any other
      place its number of tastings, and only places with an event appear. */
  lemma UniquePlacesCounts(vs: seq<Visit>, rows: seq<Row>, pid: int)
    ensures var (keys, m) := AfterRows(AfterVisits(vs), rows);
      (pid in m <==> pid in keys)
      && (pid in m <==> pid in VisitedIds(vs) || RowsAt(rows, pid) > 0)
      && (pid in m ==> m[pid].count == (if pid in VisitedIds(vs) then 1 else 0) + RowsAt(rows, pid))
      && (pid in m ==> (m[pid].kind == VisitMarker <==> pid in VisitedIds(vs)))
  {
    AfterVisitsMarkers(vs);
    var start := AfterVisits(vs);
    assert forall q :: q in AfterVisits(vs).1 <==> q in VisitedIds(vs);
    assert forall q :: q in AfterVisits(vs).1 <==> q in AfterVisits(vs).0;
    assert forall q :: q in start.1 <==> q in start.0;
    AfterRowsCounts(start, rows);
  }

  // ---- map framing ----

  function MinOf(xs: seq<real>): (m: real)
    requires xs != []
    ensures m in xs && forall i :: 0 <= i < |xs| ==> m <= xs[i]
  {
    if |xs| == 1 then xs[0]
    else
      var rest := MinOf(xs[1..]);
      assert forall i :: 1 <= i < |xs| ==> xs[i] == xs[1..][i - 1];
      if xs[0] <= rest then xs[0] else rest
  }

  function MaxOf(xs: seq<real>): (m: real)
    requires xs != []
    ensures m in xs && forall i :: 0 <= i < |xs| ==> xs[i] <= m
  {
    if |xs| == 1 then xs[0]
    else
      var rest := MaxOf(xs[1..]);
      assert forall i :: 1 <= i < |xs| ==> xs[i] == xs[1..][i - 1];
      if rest <= xs[0] then xs[0] else rest
  }

  datatype Frame = Frame(center: (real, real), bounds: Option<((real, real), (real, real))>)

  /** The map's view: centred on the middle of the places' box and fitted to it, or the
      default centre when there are no coordinates. */
  function MapFrame(lats: seq<real>, lngs: seq<real>): (f: Frame)
    ensures lats == [] || lngs == [] ==> f == Frame((47.0, 4.0), None)
    ensures lats != [] && lngs != [] ==> (f.bounds.Some?
      && var ((s, w), (n, e)) := f.bounds.value;
      s in lats && n in lats && w in lngs && e in lngs
      && (forall i :: 0 <= i < |lats| ==> s <= lats[i] <= n)
      && (forall i :: 0 <= i < |lngs| ==> w <= lngs[i] <= e)
      && s <= f.center.0 <= n && w <= f.center.1 <= e
      && f.center.0 - s == n - f.center.0 && f.center.1 - w == e - f.center.1)
  {
    if lats == [] || lngs == [] then Frame((47.0, 4.0), None)
    else
      var s, n := MinOf(lats), MaxOf(lats);
      var w, e := MinOf(lngs), MaxOf(lngs);
      Frame(((s + n) / 2.0, (w + e) / 2.0), Some(((s, w), (n, e))))
  }

  /** The latitudes and longitudes of the markers, in insertion order. */
  function Coordinates(keys: seq<int>, m: map<int, Marker>): (c: (seq<real>, seq<real>))
    requires forall i :: 0 <= i < |keys| ==> keys[i] in m
    ensures |c.0| == |keys| == |c.1|
    ensures forall i :: 0 <= i < |keys| ==> c.0[i] == m[keys[i]].lat && c.1[i] == m[keys[i]].lng
  {
    (seq(|keys|, i requires 0 <= i < |keys| => m[keys[i]].lat),
     seq(|keys|, i requires 0 <= i < |keys| => m[keys[i]].lng))
  }
}
