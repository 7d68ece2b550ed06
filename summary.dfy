/** The dashboard: the vintage axis order, the Michelin star totals and the top-10
    lists. */
module Summary {
  import opened Wrappers
  import Strings
  import Numbers
  import Dates
  import Lists
  import Sorting

  // ---- vintage order ----

  /** `sort_vintage(v)`: a missing, empty or "NV" vintage sorts as 9999, a numeral as its
      value, anything else (the bare `except` catches every error) as 0. */
  function SortVintage(v: Option<string>): (k: int)
    ensures v.None? || v == Some("") || v == Some("NV") ==> k == 9999
    ensures v.Some? && v.value != "" && v.value != "NV" && Numbers.ParseInt(v.value).None? ==> k == 0
  {
    if v.None? || v.value == "" || v.value == "NV" then 9999
    else
      match Numbers.ParseInt(v.value)
      case Some(n) => n
      case None => 0
  }

  /** A year written out sorts as that year. */
  lemma SortVintageOfYear(year: int)
    ensures SortVintage(Some(Strings.IntToString(year))) == year
  {
    var t := Strings.IntToString(year);
    assert t != "" && t != "NV" by {
      assert t[0] == '-' || '0' <= t[0] <= '9';
    }
    assert Numbers.ParseInt(t) == Some(year) by {
      Numbers.ParseIntOfIntToString(year);
    }
  }

  /** The vintage axis: the distinct vintages ordered by `sort_vintage`. */
  function VintageAxis(vs: seq<Option<string>>): (r: seq<Option<string>>)
    ensures forall v :: v in r <==> v in vs
    ensures forall i, j :: 0 <= i < j < |r| ==> r[i] != r[j] && SortVintage(r[i]) <= SortVintage(r[j])
  {
    var d := Sorting.Distinct(vs);
    var r := Sorting.SortBy(d, Sorting.ByKey(SortVintage));
    Sorting.SortByKey(d, SortVintage);
    assert forall v :: v in r <==> v in multiset(r);
    forall i, j | 0 <= i < j < |r|
      ensures r[i] != r[j]
    {
      Sorting.DistinctAfterPermutation(d, r, i, j);
    }
    r
  }

  /** "NV" comes after every vintage that sorts below 9999, every year up to 9998 among
      them. */
  lemma NonVintageLast(vs: seq<Option<string>>, i: int, j: int)
    requires 0 <= i < |VintageAxis(vs)| && 0 <= j < |VintageAxis(vs)|
    requires VintageAxis(vs)[j] == Some("NV") && SortVintage(VintageAxis(vs)[i]) < 9999
    ensures i < j
  {
  }

  // ---- Michelin stars ----

  datatype PlaceStars = PlaceStars(id: int, stars: Option<int>)

  /** `Place.michelin_stars > 0`: the starred places. */
  function StarPlaces(places: seq<PlaceStars>): (r: seq<PlaceStars>)
    ensures forall p :: p in r <==> p in places && p.stars.Some? && p.stars.value > 0
  {
    Lists.Filter(places, (p: PlaceStars) => p.stars.Some? && p.stars.value > 0)
  }

  /** The stars of the starred places whose id was visited, summed over the list. */
  function VisitedStars(ps: seq<PlaceStars>, visited: set<Option<int>>): int
    requires forall p :: p in ps ==> p.stars.Some?
    decreases |ps|
  {
    if ps == [] then 0
    else
      var p := ps[|ps| - 1];
      VisitedStars(ps[..|ps| - 1], visited) + (if Some(p.id) in visited then p.stars.value else 0)
  }

  /** The unique-stars loop over the starred places. */
  method UniqueStars(places: seq<PlaceStars>, tastingPlaceIds: set<Option<int>>, visitPlaceIds: set<Option<int>>)
    returns (total: int)
    ensures total == VisitedStars(StarPlaces(places), tastingPlaceIds + visitPlaceIds)
  {
    var starPlaces := StarPlaces(places);
    var visited := tastingPlaceIds + visitPlaceIds;
    total := 0;
    var i := 0;
    while i < |starPlaces|
      invariant 0 <= i <= |starPlaces|
      invariant total == VisitedStars(starPlaces[..i], visited)
    {
      var p := starPlaces[i];
      if Some(p.id) in visited {
        total := total + p.stars.value;
      }
      assert starPlaces[..i + 1][..i] == starPlaces[..i];
      i := i + 1;
    }
    assert starPlaces[..|starPlaces|] == starPlaces;
  }

  /** Over starred places the total is zero exactly when none of them was visited, and
      visiting more places never lowers it. */
  lemma {:induction false} VisitedStarsProperties(ps: seq<PlaceStars>, visited: set<Option<int>>, more: set<Option<int>>)
    requires forall p :: p in ps ==> p.stars.Some? && p.stars.value > 0
    requires visited <= more
    ensures VisitedStars(ps, visited) >= 0
    ensures VisitedStars(ps, visited) == 0 <==> forall p :: p in ps ==> Some(p.id) !in visited
    ensures VisitedStars(ps, visited) <= VisitedStars(ps, more)
    decreases |ps|
  {
    if ps != [] {
      var init := ps[..|ps| - 1];
      assert forall p :: p in init ==> p in ps;
      VisitedStarsProperties(init, visited, more);
      assert forall p :: p in ps ==> p in init || p == ps[|ps| - 1];
    }
  }

  /** A visit: its date and place, either possibly missing. */
  type VisitKey = (Option<Dates.Date>, Option<int>)

  /** `{p.id: p.michelin_stars for p in star_places}`. */
  function StarMap(ps: seq<PlaceStars>): (m: map<int, int>)
    requires forall p :: p in ps ==> p.stars.Some?
    ensures forall id :: id in m <==> exists p :: p in ps && p.id == id
    decreases |ps|
  {
    if ps == [] then map[]
    else
      var p := ps[|ps| - 1];
      var init := ps[..|ps| - 1];
      assert forall q :: q in ps <==> q in init || q == p;
      StarMap(init)[p.id := p.stars.value]
  }

  /** A place id maps to the stars of the last place with that id. */
  lemma {:induction false} StarMapLastWins(ps: seq<PlaceStars>, i: int)
    requires forall p :: p in ps ==> p.stars.Some?
    requires 0 <= i < |ps| && forall j :: i < j < |ps| ==> ps[j].id != ps[i].id
    ensures ps[i].id in StarMap(ps) && StarMap(ps)[ps[i].id] == ps[i].stars.value
    decreases |ps|
  {
    if i < |ps| - 1 {
      var init := ps[..|ps| - 1];
      assert init[i] == ps[i];
      assert forall q :: q in init ==> q in ps;
      StarMapLastWins(init, i);
    }
  }

  /** `place_stars_map.get(place_id, 0)`. */
  function StarsAt(m: map<int, int>, place: Option<int>): int {
    if place.Some? && place.value in m then m[place.value] else 0
  }

  /** The stars summed over a set of visits, in any order. */
  ghost function SetSum(s: set<VisitKey>, m: map<int, int>): int
    decreases |s|
  {
    if s == {} then 0
    else
      var x :| x in s;
      StarsAt(m, x.1) + SetSum(s - {x}, m)
  }

  /** The sum does not depend on which element is taken first. */
  lemma {:induction false} SetSumRemove(s: set<VisitKey>, m: map<int, int>, y: VisitKey)
    requires y in s
    ensures SetSum(s, m) == StarsAt(m, y.1) + SetSum(s - {y}, m)
    decreases |s|
  {
    var x :| x in s && SetSum(s, m) == StarsAt(m, x.1) + SetSum(s - {x}, m);
    if x != y {
      SetSumRemove(s - {x}, m, y);
      SetSumRemove(s - {y}, m, x);
      assert s - {x} - {y} == s - {y} - {x};
    }
  }

  /** The cumulative-stars loop over the distinct (date, place) pairs of the tastings
      and the visits. */
  method CumulativeStars(tastingVisits: set<VisitKey>, manualVisits: set<VisitKey>, starPlaces: seq<PlaceStars>)
    returns (total: int)
    requires forall p :: p in starPlaces ==> p.stars.Some?
    ensures total == SetSum(tastingVisits + manualVisits, StarMap(starPlaces))
  {
    var all := tastingVisits + manualVisits;
    var m := StarMap(starPlaces);
    var remaining := all;
    total := 0;
    while remaining != {}
      invariant remaining <= all
      invariant total + SetSum(remaining, m) == SetSum(all, m)
      decreases |remaining|
    {
      var x :| x in remaining;
      SetSumRemove(remaining, m, x);
      total := total + StarsAt(m, x.1);
      remaining := remaining - {x};
    }
  }

  /** A day with both a tasting and a visit at one place counts once: the total over
      the union is the two totals less the total over the shared visits. */
  lemma {:induction false} SetSumUnion(a: set<VisitKey>, b: set<VisitKey>, m: map<int, int>)
    ensures SetSum(a + b, m) + SetSum(a * b, m) == SetSum(a, m) + SetSum(b, m)
    decreases |a|
  {
    if a != {} {
      var x :| x in a;
      var a' := a - {x};
      SetSumRemove(a, m, x);
      SetSumRemove(a + b, m, x);
      if x in b {
        var b' := b - {x};
        SetSumRemove(b, m, x);
        SetSumRemove(a * b, m, x);
        assert (a + b) - {x} == a' + b';
        assert (a * b) - {x} == a' * b';
        SetSumUnion(a', b', m);
      } else {
        assert (a + b) - {x} == a' + b;
        assert a * b == a' * b;
        SetSumUnion(a', b, m);
      }
    } else {
      assert a + b == b && a * b == {};
    }
  }

  /** A visit to a place without stars adds nothing. */
  lemma UnstarredAddsNothing(s: set<VisitKey>, m: map<int, int>, x: VisitKey)
    requires x !in s
    requires x.1.None? || x.1.value !in m
    ensures SetSum(s + {x}, m) == SetSum(s, m)
  {
    SetSumRemove(s + {x}, m, x);
    assert s + {x} - {x} == s;
  }

  // ---- top 10 ----

  /** A (producer, id, region) group of rows and its size. */
  datatype Group = Group(producer: string, pid: int, region: Option<string>, count: nat)

  /** The sort key of a descending sort on the count. */
  function CountDesc(g: Group): int {
    -(g.count as int)
  }

  /** `.sort_values("Count", ascending=False).head(10)`. */
  function TopTen(groups: seq<Group>): (r: seq<Group>)
  {
    Sorting.Take(Sorting.SortBy(groups, Sorting.ByKey(CountDesc)), 10)
  }

  /** The top list has at most ten groups, all taken from the input, largest first, and
      no group left out is larger than a group kept. */
  lemma TopTenSpec(groups: seq<Group>)
    ensures var r := TopTen(groups);
      |r| == (if |groups| < 10 then |groups| else 10)
      && multiset(r) <= multiset(groups)
      && (forall i, j :: 0 <= i < j < |r| ==> r[i].count >= r[j].count)
      && (forall g, k :: g in multiset(groups) - multiset(r) && 0 <= k < |r| ==> g.count <= r[k].count)
  {
    Sorting.TakeSortedByKey(groups, CountDesc, 10);
    var r := TopTen(groups);
    forall i, j | 0 <= i < j < |r|
      ensures r[i].count >= r[j].count
    {
      assert CountDesc(r[i]) <= CountDesc(r[j]);
    }
    forall g, k | g in multiset(groups) - multiset(r) && 0 <= k < |r|
      ensures g.count <= r[k].count
    {
      assert CountDesc(r[k]) <= CountDesc(g);
    }
  }

  /** A (producer, id, region) row of the query. */
  type ProducerRow = (string, int, Option<string>)

  /** The row has a region, so pandas gives it a group key. */
  predicate HasRegion(row: ProducerRow) {
    row.2.Some?
  }

  /** The group has a region. */
  predicate Regional(g: Group) {
    g.region.Some?
  }

  /** The rows equal to `key`. */
  function IsKey(key: ProducerRow): ProducerRow -> bool {
    row => row == key
  }

  /** The group of `key` with its number of rows. */
  function GroupOf(rows: seq<ProducerRow>, key: ProducerRow): Group {
    Group(key.0, key.1, key.2, Lists.Count(rows, IsKey(key)))
  }

  /** The groups of the rows as `groupby(...).size()` counts them as written: a row
      whose region is missing has a missing group key and is dropped. The groups are
      listed in order of first occurrence; pandas lists them by sorted key, which only
      decides which of equally large groups the top ten keeps. */
  function GroupSizesAsWritten(rows: seq<ProducerRow>): (r: seq<Group>)
    ensures forall g :: g in r ==> g.region.Some?
  {
    var kept := Lists.Filter(rows, HasRegion);
    var r := GroupSizes(kept);
    forall g | g in r
      ensures g.region.Some?
    {
      var i :| 0 <= i < |r| && r[i] == g;
      assert Sorting.Distinct(kept)[i] in Sorting.Distinct(kept);
    }
    r
  }

  /** The groups with a missing region kept as a group of their own. */
  function GroupSizes(rows: seq<ProducerRow>): (r: seq<Group>)
    ensures |r| == |Sorting.Distinct(rows)|
    ensures forall i :: 0 <= i < |r| ==> var key := Sorting.Distinct(rows)[i];
      r[i] == Group(key.0, key.1, key.2, Lists.Count(rows, IsKey(key)))
  {
    Lists.Map(Sorting.Distinct(rows), (key: ProducerRow) => GroupOf(rows, key))
  }

  /** The written `groupby` gives exactly the groups with a region, in the same order
      and with the same counts: dropping the region-less rows first only removes their
      groups. */
  lemma GroupSizesAsWrittenFilters(rows: seq<ProducerRow>)
    ensures GroupSizesAsWritten(rows) == Lists.Filter(GroupSizes(rows), Regional)
  {
    var kept := Lists.Filter(rows, HasRegion);
    var ofRows := (key: ProducerRow) => GroupOf(rows, key);
    var ofKept := (key: ProducerRow) => GroupOf(kept, key);
    var d := Sorting.Distinct(rows);
    assert GroupSizes(rows) == Lists.Map(d, ofRows);
    assert GroupSizes(kept) == Lists.Map(Sorting.Distinct(kept), ofKept);
    Lists.FilterMap(d, ofRows, Regional, HasRegion);
    Sorting.DistinctFilter(rows, HasRegion);
    var dk := Sorting.Distinct(kept);
    forall key | key in dk
      ensures ofKept(key) == ofRows(key)
    {
      var both := (row: ProducerRow) => HasRegion(row) && IsKey(key)(row);
      Lists.FilterFilter(rows, HasRegion, IsKey(key), both);
      Lists.FilterSame(rows, both, IsKey(key));
    }
    assert Lists.Map(dk, ofKept) == Lists.Map(dk, ofRows);
  }

  /** A producer whose wines have no region never reaches its top list. */
  lemma MissingRegionDropped()
    ensures GroupSizesAsWritten([("Roulot", 3, None)]) == []
    ensures GroupSizes([("Roulot", 3, None)]) == [Group("Roulot", 3, None, 1)]
  {
    var row: ProducerRow := ("Roulot", 3, None);
    assert Sorting.Distinct([row]) == [row] by {
      assert [row][..0] == [];
    }
    assert Lists.Filter([row], HasRegion) == [];
    var none: seq<ProducerRow> := [];
    assert Sorting.Distinct(none) == [];
    assert Lists.Count([row], IsKey(row)) == 1;
  }
}
