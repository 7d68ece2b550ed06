/** The detail pages: tasting notes grouped into one card per (date, place), the
    vintage summaries, a place's visit count and the coercion of page ids. */
module Details {
  import opened Wrappers
  import Strings
  import Numbers
  import Dates
  import Sorting
  import Shared
  import Labels

  /** The place a tasting note was written at, as far as the cards use it. */
  datatype PlaceRef = PlaceRef(id: int, name: string, city: Option<string>, stars: Option<int>)

  /** A tasting note joined with its wine: `vintage` and `disgorgement` are the wine's. */
  datatype Tasting = Tasting(
    id: int, date: Dates.Date, place: Option<PlaceRef>, location: Option<string>,
    wid: int, vintage: Option<string>, disgorgement: Option<string>)

  /** One wine line of a card. */
  datatype Entry = Entry(tid: int, wid: int, vintage: Option<string>, city: Option<string>, stars: int)

  /** A card before its url and meta line are added. */
  datatype Group = Group(date: Dates.Date, placeName: string, plid: Option<int>, wines: seq<Entry>)

  type Key = (Dates.Date, int)

  /** `t.place.id if t.place else 0`. */
  function PlaceId(t: Tasting): int {
    if t.place.Some? then t.place.value.id else 0
  }

  function KeyOf(t: Tasting): Key {
    (t.date, PlaceId(t))
  }

  /** The wine line a tasting adds to its card. */
  function EntryOf(t: Tasting): (e: Entry)
    ensures e.vintage == Labels.VintageLabel(t.vintage, t.disgorgement)
    ensures t.place.None? ==> e.city == Some("") && e.stars == 0
    ensures t.place.Some? ==> e.city == t.place.value.city
    ensures t.place.Some? && t.place.value.stars.Some? ==> e.stars == t.place.value.stars.value
  {
    Entry(t.id, t.wid, Labels.VintageLabel(t.vintage, t.disgorgement),
      if t.place.Some? then t.place.value.city else Some(""),
      if t.place.Some? && t.place.value.stars.Some? then t.place.value.stars.value else 0)
  }

  /** The card a tasting opens when it is the first with its key: the place name, else
      the free-text location, else "Unknown"; no place link without a place id. */
  function Header(t: Tasting): (g: Group)
    ensures g.date == t.date && g.wines == []
    ensures t.place.Some? ==> g.placeName == t.place.value.name
    ensures t.place.None? && Shared.Truthy(t.location) ==> g.placeName == t.location.value
    ensures t.place.None? && !Shared.Truthy(t.location) ==> g.placeName == "Unknown"
    ensures g.plid.Some? <==> PlaceId(t) != 0
    ensures g.plid.Some? ==> g.plid.value == PlaceId(t)
  {
    var name := if t.place.Some? then t.place.value.name
      else if Shared.Truthy(t.location) then t.location.value else "Unknown";
    Group(t.date, name, if PlaceId(t) != 0 then Some(PlaceId(t)) else None, [])
  }

  /** One step of the grouping loop: open the key's card if it is new, then append. */
  function AddTasting(keys: seq<Key>, groups: map<Key, Group>, t: Tasting): (seq<Key>, map<Key, Group>) {
    var k := KeyOf(t);
    var g := if k in groups then groups[k] else Header(t);
    (if k in groups then keys else keys + [k], groups[k := g.(wines := g.wines + [EntryOf(t)])])
  }

  /** The dictionary the loop builds, with its keys in insertion order. */
  function GroupSpec(ts: seq<Tasting>): (seq<Key>, map<Key, Group>)
    decreases |ts|
  {
    if ts == [] then ([], map[])
    else
      var prev := GroupSpec(ts[..|ts| - 1]);
      AddTasting(prev.0, prev.1, ts[|ts| - 1])
  }

  /** The grouping loop over the tastings, in query order. */
  method GroupTastings(ts: seq<Tasting>) returns (keys: seq<Key>, groups: map<Key, Group>)
    ensures (keys, groups) == GroupSpec(ts)
  {
    keys, groups := [], map[];
    var i := 0;
    while i < |ts|
      invariant 0 <= i <= |ts|
      invariant (keys, groups) == GroupSpec(ts[..i])
    {
      var t := ts[i];
      var k := KeyOf(t);
      ghost var prev := (keys, groups);
      ghost var g := if k in groups then groups[k] else Header(t);
      if k !in groups {
        groups := groups[k := Header(t)];
        keys := keys + [k];
      }
      assert groups[k] == g;
      groups := groups[k := groups[k].(wines := groups[k].wines + [EntryOf(t)])];
      assert groups == prev.1[k := g.(wines := g.wines + [EntryOf(t)])];
      assert ts[..i + 1][..i] == ts[..i] && ts[..i + 1][i] == t;
      i := i + 1;
    }
    assert ts[..|ts|] == ts;
  }

  function KeysOf(ts: seq<Tasting>): (r: seq<Key>)
    ensures |r| == |ts| && forall i :: 0 <= i < |ts| ==> r[i] == KeyOf(ts[i])
  {
    seq(|ts|, i requires 0 <= i < |ts| => KeyOf(ts[i]))
  }

  /** The wine lines of the tastings with key `k`, in query order. */
  function EntriesWith(ts: seq<Tasting>, k: Key): seq<Entry>
    decreases |ts|
  {
    if ts == [] then []
    else
      var t := ts[|ts| - 1];
      EntriesWith(ts[..|ts| - 1], k) + (if KeyOf(t) == k then [EntryOf(t)] else [])
  }

  /** The cards are keyed by the distinct (date, place) keys in order of first
      occurrence. */
  lemma {:induction false} GroupKeys(ts: seq<Tasting>)
    ensures var (keys, groups) := GroupSpec(ts);
      keys == Sorting.Distinct(KeysOf(ts)) && (forall k :: k in groups <==> k in keys)
    decreases |ts|
  {
    if ts != [] {
      var n := |ts| - 1;
      GroupKeys(ts[..n]);
      var ks := KeysOf(ts);
      assert ks[..n] == KeysOf(ts[..n]);
      assert ks[n] == KeyOf(ts[n]);
      var prev := GroupSpec(ts[..n]);
      assert GroupSpec(ts) == AddTasting(prev.0, prev.1, ts[n]);
      assert Sorting.Distinct(ks) ==
        if ks[n] in Sorting.Distinct(ks[..n]) then Sorting.Distinct(ks[..n]) else Sorting.Distinct(ks[..n]) + [ks[n]];
    }
  }

  lemma GroupDomain(ts: seq<Tasting>)
    ensures forall k :: k in GroupSpec(ts).1 <==> k in KeysOf(ts)
  {
    GroupKeys(ts);
  }

  /** Each card holds exactly the tastings with its key, in query order. */
  lemma {:induction false} GroupWines(ts: seq<Tasting>)
    ensures var groups := GroupSpec(ts).1;
      (forall k :: k in groups ==> groups[k].wines == EntriesWith(ts, k) && groups[k].wines != [])
      && (forall k :: k !in groups ==> EntriesWith(ts, k) == [])
    decreases |ts|
  {
    if ts != [] {
      GroupWines(ts[..|ts| - 1]);
    }
  }

  /** A card's header comes from the first tasting with its key. */
  lemma {:induction false} GroupHeader(ts: seq<Tasting>)
    ensures var groups := GroupSpec(ts).1;
      forall i :: 0 <= i < |ts| && FirstWithKey(ts, i) ==>
        KeyOf(ts[i]) in groups && groups[KeyOf(ts[i])].(wines := []) == Header(ts[i])
    decreases |ts|
  {
    if ts != [] {
      var n := |ts| - 1;
      var init := ts[..n];
      GroupHeader(init);
      if FirstWithKey(ts, n) {
        forall j | 0 <= j < |init|
          ensures KeyOf(init[j]) != KeyOf(ts[n])
        {
          assert init[j] == ts[j];
        }
        NewKeyAbsent(init, ts[n]);
      }
      forall i | 0 <= i < |ts| && FirstWithKey(ts, i)
        ensures KeyOf(ts[i]) in GroupSpec(ts).1 && GroupSpec(ts).1[KeyOf(ts[i])].(wines := []) == Header(ts[i])
      {
        HeaderStep(ts, i);
      }
    }
  }

  /** No earlier tasting shares the key of tasting `i`. */
  predicate FirstWithKey(ts: seq<Tasting>, i: int)
    requires 0 <= i < |ts|
  {
    forall j :: 0 <= j < i ==> KeyOf(ts[j]) != KeyOf(ts[i])
  }

  lemma HeaderStep(ts: seq<Tasting>, i: int)
    requires 0 <= i < |ts| && FirstWithKey(ts, i)
    requires var init := ts[..|ts| - 1]; var groups := GroupSpec(init).1;
      forall i :: 0 <= i < |init| && FirstWithKey(init, i) ==>
        KeyOf(init[i]) in groups && groups[KeyOf(init[i])].(wines := []) == Header(init[i])
    requires FirstWithKey(ts, |ts| - 1) ==> KeyOf(ts[|ts| - 1]) !in GroupSpec(ts[..|ts| - 1]).1
    ensures KeyOf(ts[i]) in GroupSpec(ts).1 && GroupSpec(ts).1[KeyOf(ts[i])].(wines := []) == Header(ts[i])
  {
    var n := |ts| - 1;
    var init := ts[..n];
    var (pk, pg) := GroupSpec(init);
    assert GroupSpec(ts) == AddTasting(pk, pg, ts[n]);
    if i < n {
      assert KeyOf(ts[i]) in pg && pg[KeyOf(ts[i])].(wines := []) == Header(ts[i]) by {
        assert init[i] == ts[i];
        assert FirstWithKey(init, i);
      }
      HeaderKept(pk, pg, ts[n], KeyOf(ts[i]));
    }
  }

  lemma NewKeyAbsent(init: seq<Tasting>, t: Tasting)
    requires forall j :: 0 <= j < |init| ==> KeyOf(init[j]) != KeyOf(t)
    ensures KeyOf(t) !in GroupSpec(init).1
  {
    GroupDomain(init);
    assert KeyOf(t) !in KeysOf(init);
  }

  /** Appending a line to a card leaves every card's header as it was. */
  lemma HeaderKept(keys: seq<Key>, groups: map<Key, Group>, t: Tasting, k: Key)
    requires k in groups
    ensures var next := AddTasting(keys, groups, t).1;
      k in next && next[k].(wines := []) == groups[k].(wines := [])
  {
  }

  /** The number of wine lines over the cards of `keys`. */
  function TotalWines(keys: seq<Key>, groups: map<Key, Group>): nat
    requires forall k :: k in keys ==> k in groups
  {
    if keys == [] then 0 else |groups[keys[0]].wines| + TotalWines(keys[1..], groups)
  }

  lemma {:induction false} TotalWinesUpdate(keys: seq<Key>, groups: map<Key, Group>, k: Key, g: Group)
    requires forall x :: x in keys ==> x in groups
    requires forall i, j :: 0 <= i < j < |keys| ==> keys[i] != keys[j]
    ensures k !in keys ==> TotalWines(keys, groups[k := g]) == TotalWines(keys, groups)
    ensures k in keys && k in groups ==>
      TotalWines(keys, groups[k := g]) == TotalWines(keys, groups) - |groups[k].wines| + |g.wines|
  {
    if keys != [] {
      TotalWinesUpdate(keys[1..], groups, k, g);
      if keys[0] == k {
        assert k !in keys[1..];
      }
    }
  }

  lemma {:induction false} TotalWinesAppend(keys: seq<Key>, k: Key, groups: map<Key, Group>)
    requires forall x :: x in keys + [k] ==> x in groups
    ensures TotalWines(keys + [k], groups) == TotalWines(keys, groups) + |groups[k].wines|
  {
    if keys != [] {
      assert (keys + [k])[1..] == keys[1..] + [k];
      TotalWinesAppend(keys[1..], k, groups);
    }
  }

  /** Every tasting lands in exactly one card: the cards hold as many lines as there
      are tastings. */
  lemma {:induction false} EveryTastingOnce(ts: seq<Tasting>)
    ensures var (keys, groups) := GroupSpec(ts);
      (forall k :: k in keys ==> k in groups) && TotalWines(keys, groups) == |ts|
    decreases |ts|
  {
    if ts != [] {
      var n := |ts| - 1;
      var init := ts[..n];
      var t := ts[n];
      EveryTastingOnce(init);
      GroupKeys(init);
      var (pk, pg) := GroupSpec(init);
      var k := KeyOf(t);
      var g := if k in pg then pg[k] else Header(t);
      var g' := g.(wines := g.wines + [EntryOf(t)]);
      TotalWinesUpdate(pk, pg, k, g');
      if k !in pg {
        TotalWinesAppend(pk, k, pg[k := g']);
      }
    }
  }

  /** `list(grouped.values())`. */
  function Events(keys: seq<Key>, groups: map<Key, Group>): (r: seq<Group>)
    requires forall k :: k in keys ==> k in groups
    ensures |r| == |keys| && forall i :: 0 <= i < |keys| ==> r[i] == groups[keys[i]]
  {
    seq(|keys|, i requires 0 <= i < |keys| => groups[keys[i]])
  }

  /** The order of `sort(key=date, reverse=True)`: a card may come before another
      unless it is older. */
  function Later(): (le: (Group, Group) -> bool)
  {
    (a: Group, b: Group) => !Dates.Before(a.date, b.date)
  }

  lemma LaterTotal()
    ensures Sorting.TotalPreorder(Later())
  {
    forall a: Group, b: Group
      ensures Later()(a, b) || Later()(b, a)
    {
      Dates.BeforeTotal(a.date, b.date);
    }
    forall a: Group, b: Group, c: Group | Later()(a, b) && Later()(b, c)
      ensures Later()(a, c)
    {
      if Dates.Before(a.date, c.date) {
        Dates.BeforeTotal(a.date, b.date);
        Dates.BeforeTotal(b.date, c.date);
      }
    }
  }

  /** A card ready to render: its group, the link to the place page and the meta line. */
  datatype Card = Card(group: Group, url: Option<string>, meta: string)

  const PlaceUrl := "/?page=Place+Detail&id="

  /** The per-card step of the rendering loop: a link only for a real place id, and
      the meta line from the card's first wine. */
  function MakeCard(g: Group): (c: Card)
    ensures c.group == g
    ensures c.url.Some? <==> g.plid.Some? && g.plid.value != 0
    ensures c.url.Some? ==> c.url.value == PlaceUrl + Strings.IntToString(g.plid.value)
    ensures g.wines != [] ==> c.meta == Labels.Meta(g.wines[0].city, g.wines[0].stars)
    ensures g.wines == [] ==> c.meta == Labels.EmptyMeta
  {
    var url := if g.plid.Some? && g.plid.value != 0 then Some(PlaceUrl + Strings.IntToString(g.plid.value)) else None;
    var meta := if g.wines != [] then Labels.Meta(g.wines[0].city, g.wines[0].stars) else Labels.Meta(None, 0);
    Card(g, url, meta)
  }

  /** The tasting-history tab: group, sort the cards newest first, then add links and
      meta lines one card at a time. */
  method TastingCards(ts: seq<Tasting>) returns (cards: seq<Card>)
    ensures var (keys, groups) := GroupSpec(ts);
      (forall k :: k in keys ==> k in groups)
      && var events := Sorting.SortBy(Events(keys, groups), Later());
      |cards| == |events| && forall i :: 0 <= i < |cards| ==> cards[i] == MakeCard(events[i])
  {
    var keys, groups := GroupTastings(ts);
    GroupKeys(ts);
    assert forall k :: k in keys ==> k in groups;
    var events := Sorting.SortBy(Events(keys, groups), Later());
    cards := MakeCards(events);
  }

  /** The rendering loop: one card per event, in order. */
  method MakeCards(events: seq<Group>) returns (cards: seq<Card>)
    ensures |cards| == |events| && forall i :: 0 <= i < |events| ==> cards[i] == MakeCard(events[i])
  {
    cards := [];
    for i := 0 to |events|
      invariant |cards| == i && forall j :: 0 <= j < i ==> cards[j] == MakeCard(events[j])
    {
      cards := cards + [MakeCard(events[i])];
    }
  }

  /** The cards come newest first, one per distinct (date, place) key of the tastings. */
  lemma CardsOrdered(ts: seq<Tasting>)
    ensures var (keys, groups) := GroupSpec(ts);
      (forall k :: k in keys ==> k in groups)
      && var events := Sorting.SortBy(Events(keys, groups), Later());
      multiset(events) == multiset(Events(keys, groups))
      && (forall i, j :: 0 <= i < j < |events| ==> !Dates.Before(events[i].date, events[j].date))
      && |events| == |Sorting.Distinct(KeysOf(ts))|
  {
    GroupKeys(ts);
    var (keys, groups) := GroupSpec(ts);
    Sorting.SortByPermutation(Events(keys, groups), Later());
    LaterTotal();
    Sorting.SortBySorted(Events(keys, groups), Later());
  }

  // ---- format_v_list ----

  /** Row `row` contributes the label `x`: its vintage is truthy and `x` is its label. */
  predicate Labeled(row: (Option<string>, Option<string>), x: string) {
    Shared.Truthy(row.0) && Labels.VintageLabel(row.0, row.1) == Some(x)
  }

  /** The labels the loop collects: falsy vintages skipped, "NV" with a disgorgement
      date written "NV - <date>". */
  function VintageLabels(rows: seq<(Option<string>, Option<string>)>): (r: seq<string>)
    ensures forall x :: x in r <==> (exists i :: 0 <= i < |rows| && Labeled(rows[i], x))
    decreases |rows|
  {
    if rows == [] then []
    else
      var last := rows[|rows| - 1];
      var init := VintageLabels(rows[..|rows| - 1]);
      assert forall i :: 0 <= i < |rows| - 1 ==> rows[..|rows| - 1][i] == rows[i];
      if Shared.Truthy(last.0) then init + [Labels.VintageLabel(last.0, last.1).value] else init
  }

  /** `format_v_list(v_rows)`. */
  method FormatVList(rows: seq<(Option<string>, Option<string>)>) returns (r: seq<string>)
    ensures r == Sorting.SortedSetDescending(VintageLabels(rows))
  {
    var res := [];
    var i := 0;
    while i < |rows|
      invariant 0 <= i <= |rows|
      invariant res == VintageLabels(rows[..i])
    {
      var (v, d) := rows[i];
      if Shared.Truthy(v) {
        res := res + [Labels.VintageLabel(v, d).value];
      }
      i := i + 1;
      assert rows[..i][..i - 1] == rows[..i - 1];
    }
    assert rows[..|rows|] == rows;
    r := Sorting.SortedSetDescending(res);
  }

  /** The vintage list has each label of a truthy vintage exactly once, newest first
      (string order), and nothing else. */
  lemma FormatVListContents(rows: seq<(Option<string>, Option<string>)>)
    ensures var r := Sorting.SortedSetDescending(VintageLabels(rows));
      (forall x :: x in r <==> (exists i :: 0 <= i < |rows| && Labeled(rows[i], x)))
      && (forall i, j :: 0 <= i < j < |r| ==> r[i] != r[j] && Strings.Less(r[j], r[i]))
  {
    var r := Sorting.SortedSetDescending(VintageLabels(rows));
    forall i, j | 0 <= i < j < |r|
      ensures r[i] != r[j]
    {
      Strings.LessIrreflexive(r[i]);
    }
  }

  // ---- a place's visit count ----

  /** `set([d for d in dates if d])`. */
  function DateSet(dates: seq<Option<Dates.Date>>): (r: set<Dates.Date>)
    ensures forall d :: d in r <==> Some(d) in dates
    ensures |r| <= |dates|
    decreases |dates|
  {
    if dates == [] then {}
    else
      var init := dates[..|dates| - 1];
      var last := dates[|dates| - 1];
      assert dates == init + [last];
      var s := DateSet(init);
      if last.Some? then s + {last.value} else s
  }

  /** Total visits: the distinct dates on which the place saw a tasting or a visit. */
  function VisitCount(noteDates: seq<Option<Dates.Date>>, visitDates: seq<Option<Dates.Date>>): (n: nat)
  {
    |DateSet(noteDates) + DateSet(visitDates)|
  }

  /** A day with both a tasting and a visit counts once; the count lies between the
      larger of the two distinct-date counts and the number of dated records. */
  lemma VisitCountBounds(noteDates: seq<Option<Dates.Date>>, visitDates: seq<Option<Dates.Date>>)
    ensures var n := VisitCount(noteDates, visitDates);
      |DateSet(noteDates)| <= n && |DateSet(visitDates)| <= n && n <= |noteDates| + |visitDates|
    ensures VisitCount(noteDates, visitDates) == 0 <==>
      (forall i :: 0 <= i < |noteDates| ==> noteDates[i].None?)
      && (forall i :: 0 <= i < |visitDates| ==> visitDates[i].None?)
  {
    var a, b := DateSet(noteDates), DateSet(visitDates);
    assert a <= a + b && b <= a + b;
    SubsetCard(a, a + b);
    SubsetCard(b, a + b);
    if VisitCount(noteDates, visitDates) != 0 {
      var d :| d in a + b;
    }
  }

  /** A visit on a day that already has a tasting note does not change the count. */
  lemma SameDayCountsOnce(noteDates: seq<Option<Dates.Date>>, visitDates: seq<Option<Dates.Date>>, d: Dates.Date)
    requires Some(d) in noteDates
    ensures VisitCount(noteDates, visitDates + [Some(d)]) == VisitCount(noteDates, visitDates)
  {
    assert DateSet(noteDates) + DateSet(visitDates + [Some(d)]) == DateSet(noteDates) + DateSet(visitDates);
  }

  lemma {:induction false} SubsetCard<T>(a: set<T>, b: set<T>)
    requires a <= b
    ensures |a| <= |b|
  {
    if a != {} {
      var x :| x in a;
      SubsetCard(a - {x}, b - {x});
    }
  }

  // ---- page id coercion ----

  /** What the `try: int(float(id)) except (ValueError, TypeError): 0` block ends in:
      an id, or an exception it does not catch. */
  datatype IdOutcome = PageId(id: int) | Raises

  /** The coercion as written: a missing parameter is a `TypeError` and junk or "nan" a
      `ValueError`, both giving id 0, but "inf" raises `OverflowError`, which escapes. */
  function CoerceIdAsWritten(param: Option<string>): (r: IdOutcome)
    ensures param.None? ==> r == PageId(0)
    ensures param.Some? ==> (r.Raises? <==> Numbers.IntOfFloatText(param.value).OverflowError?)
    ensures param.Some? && Numbers.IntOfFloatText(param.value).IntValue? ==>
      r == PageId(Numbers.IntOfFloatText(param.value).value)
  {
    match param
    case None => PageId(0)
    case Some(s) =>
      match Numbers.IntOfFloatText(s)
      case IntValue(v) => PageId(v)
      case ValueError => PageId(0)
      case OverflowError => Raises
  }

  /** "inf", and finite-looking text beyond the double range such as "1e309", get past
      the `except` clause, where the intended coercion gives 0. */
  lemma InfinityEscapes()
    ensures CoerceIdAsWritten(Some("inf")) == Raises && CoerceId(Some("inf")) == 0
    ensures CoerceIdAsWritten(Some("1e309")) == Raises && CoerceId(Some("1e309")) == 0
  {
    Numbers.SpecialTexts();
    Numbers.ExponentOverflows();
  }

  /** The coercion as intended: every bad id, infinite ones included, falls back to 0. */
  function CoerceId(param: Option<string>): (r: int)
    ensures param.Some? && Numbers.IntOfFloatText(param.value).IntValue? ==>
      r == Numbers.IntOfFloatText(param.value).value
    ensures (param.None? || !Numbers.IntOfFloatText(param.value).IntValue?) ==> r == 0
  {
    match param
    case None => 0
    case Some(s) =>
      match Numbers.IntOfFloatText(s)
      case IntValue(v) => v
      case _ => 0
  }

  /** The two agree wherever the written one does not raise (`InfinityEscapes` shows
      where it does); a stored id such as "1284.0" comes back as 1284 while a double
      holds it exactly. */
  lemma CoerceIdAgrees(param: Option<string>, n: int)
    ensures !CoerceIdAsWritten(param).Raises? ==> CoerceIdAsWritten(param) == PageId(CoerceId(param))
    ensures -(Numbers.MaxExactInt as int) <= n <= Numbers.MaxExactInt ==>
      CoerceId(Some(Strings.IntToString(n) + ".0")) == n && CoerceId(Some(Strings.IntToString(n))) == n
  {
    if -(Numbers.MaxExactInt as int) <= n <= Numbers.MaxExactInt {
      Numbers.IntOfFloatPointZero(n);
      Numbers.IntOfFloatOfInt(n);
    }
  }
}
