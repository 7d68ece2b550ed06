/** The cellar page: the rows of bottles in stock with their derived columns (vintage
    label, location group, total value), the value of the bottles kept in Singapore, and
    the five multiselect filters over the inventory table. */
module Cellar {
  import opened Wrappers
  import Strings
  import Lists
  import Labels

  /** A row of the inventory query (`qty > 0`); `priceSgd` is the price already
      converted with the exchange rates. */
  datatype Bottle = Bottle(
    location: Option<string>,
    qty: int,
    color: Option<string>,
    region: Option<string>,
    domaine: string,
    vintage: Option<string>,
    disgorgement: Option<string>,
    priceSgd: real)

  /** A row after the derived columns are added: "Vintage" relabelled, "LocGroup" and
      "Total(sgd)". */
  datatype Row = Row(bottle: Bottle, vintage: Option<string>, locGroup: string, total: real)

  function Derive(b: Bottle): Row {
    Row(b, Labels.VintageLabel(b.vintage, b.disgorgement), Labels.LocGroup(b.location), b.qty as real * b.priceSgd)
  }

  /** The derived table, row by row. */
  function DeriveAll(bs: seq<Bottle>): (r: seq<Row>)
    ensures |r| == |bs|
    ensures forall i :: 0 <= i < |bs| ==> r[i].bottle == bs[i]
    ensures forall i :: 0 <= i < |bs| ==> r[i].locGroup == Labels.LocGroup(bs[i].location)
    ensures forall i :: 0 <= i < |bs| ==> r[i].vintage == Labels.VintageLabel(bs[i].vintage, bs[i].disgorgement)
    ensures forall i :: 0 <= i < |bs| ==> r[i].total == bs[i].qty as real * bs[i].priceSgd
  {
    seq(|bs|, i requires 0 <= i < |bs| => Derive(bs[i]))
  }

  /** Locations outside Singapore, matched as case-sensitive substrings. */
  const ExcludedKeywords: seq<string> := ["Paris", "Chemaze", "Beaune", "Octavian"]

  /** The keyword scan of `is_singapore` over the keywords from index `i` on. */
  function NoKeywordFrom(s: string, i: nat): (r: bool)
    requires i <= |ExcludedKeywords|
    ensures r <==> forall j :: i <= j < |ExcludedKeywords| ==> !Strings.Contains(s, ExcludedKeywords[j])
    decreases |ExcludedKeywords| - i
  {
    if i == |ExcludedKeywords| then true
    else if Strings.Contains(s, ExcludedKeywords[i]) then false
    else NoKeywordFrom(s, i + 1)
  }

  /** `is_singapore(loc)`: false as soon as one keyword occurs in `str(loc)`. */
  function IsSingapore(loc: Option<string>): (r: bool)
    ensures var s := Labels.LocText(loc);
      r <==> (!Strings.Contains(s, "Paris") && !Strings.Contains(s, "Chemaze")
              && !Strings.Contains(s, "Beaune") && !Strings.Contains(s, "Octavian"))
  {
    var s := Labels.LocText(loc);
    assert ExcludedKeywords[0] == "Paris" && ExcludedKeywords[1] == "Chemaze";
    assert ExcludedKeywords[2] == "Beaune" && ExcludedKeywords[3] == "Octavian";
    NoKeywordFrom(s, 0)
  }

  /** The match is on substrings and is case-sensitive. */
  lemma SingaporeExamples()
    ensures !IsSingapore(Some("Paris 7e"))
    ensures IsSingapore(Some("paris"))
    ensures IsSingapore(None)
  {
    assert Strings.Contains("Paris 7e", "Paris");
    Strings.ContainsAt("paris", "Paris");
    Strings.ContainsAt("paris", "Chemaze");
    Strings.ContainsAt("paris", "Beaune");
    Strings.ContainsAt("paris", "Octavian");
    assert "paris"[0] != "Paris"[0];
    assert !Strings.OccursAt("paris", "Paris", 0);
    Strings.ContainsAt("None", "Paris");
    Strings.ContainsAt("None", "Chemaze");
    Strings.ContainsAt("None", "Beaune");
    Strings.ContainsAt("None", "Octavian");
  }

  predicate InSingapore(r: Row) {
    IsSingapore(r.bottle.location)
  }

  predicate Abroad(r: Row) {
    !IsSingapore(r.bottle.location)
  }

  /** `df['Total(sgd)'].sum()`. */
  function TotalOf(rows: seq<Row>): real {
    if rows == [] then 0.0 else rows[0].total + TotalOf(rows[1..])
  }

  /** The "Est. SG Value": the totals of the rows whose location is in Singapore. */
  function SingaporeValue(rows: seq<Row>): real {
    TotalOf(Lists.Filter(rows, InSingapore))
  }

  lemma {:induction false} TotalOfAppend(a: seq<Row>, b: seq<Row>)
    ensures TotalOf(a + b) == TotalOf(a) + TotalOf(b)
  {
    if a != [] {
      assert (a + b)[0] == a[0] && (a + b)[1..] == a[1..] + b;
      TotalOfAppend(a[1..], b);
    } else {
      assert a + b == b;
    }
  }

  /** The table's value splits into the Singapore value and the value of the bottles
      kept elsewhere: every row is counted on exactly one side. */
  lemma {:induction false} SingaporeValuePartition(rows: seq<Row>)
    ensures SingaporeValue(rows) + TotalOf(Lists.Filter(rows, Abroad)) == TotalOf(rows)
  {
    if rows != [] {
      SingaporeValuePartition(rows[1..]);
      assert rows == [rows[0]] + rows[1..];
      Lists.FilterCons(rows[0], rows[1..], InSingapore);
      Lists.FilterCons(rows[0], rows[1..], Abroad);
      var c := if InSingapore(rows[0]) then [rows[0]] else [];
      TotalOfAppend(c, Lists.Filter(rows[1..], InSingapore));
      var d := if Abroad(rows[0]) then [rows[0]] else [];
      TotalOfAppend(d, Lists.Filter(rows[1..], Abroad));
    }
  }

  /** A row whose every location is in Singapore has the whole value as its SG value. */
  lemma SingaporeValueAll(rows: seq<Row>)
    requires forall r :: r in rows ==> InSingapore(r)
    ensures SingaporeValue(rows) == TotalOf(rows)
  {
    Lists.FilterAll(rows, InSingapore);
  }

  /** The five multiselects; an empty list selects nothing and so filters nothing. */
  datatype Selection = Selection(
    colors: seq<Option<string>>,
    regions: seq<Option<string>>,
    producers: seq<string>,
    locGroups: seq<string>,
    locations: seq<Option<string>>)

  function ColorIn(sel: seq<Option<string>>): Row -> bool {
    (r: Row) => r.bottle.color in sel
  }

  function RegionIn(sel: seq<Option<string>>): Row -> bool {
    (r: Row) => r.bottle.region in sel
  }

  function ProducerIn(sel: seq<string>): Row -> bool {
    (r: Row) => r.bottle.domaine in sel
  }

  function LocGroupIn(sel: seq<string>): Row -> bool {
    (r: Row) => r.locGroup in sel
  }

  function LocationIn(sel: seq<Option<string>>): Row -> bool {
    (r: Row) => r.bottle.location in sel
  }

  /** `if sel: df = df[df[col].isin(sel)]`. */
  function Narrow(rows: seq<Row>, active: bool, p: Row -> bool): (r: seq<Row>)
    ensures forall x :: x in r <==> x in rows && (!active || p(x))
  {
    if active then Lists.Filter(rows, p) else rows
  }

  /** A row passes when it matches every non-empty selection. */
  predicate Passes(sel: Selection, r: Row) {
    (sel.colors == [] || r.bottle.color in sel.colors)
    && (sel.regions == [] || r.bottle.region in sel.regions)
    && (sel.producers == [] || r.bottle.domaine in sel.producers)
    && (sel.locGroups == [] || r.locGroup in sel.locGroups)
    && (sel.locations == [] || r.bottle.location in sel.locations)
  }

  function PassesAll(sel: Selection): Row -> bool {
    r => Passes(sel, r)
  }

  /** `filtered_df`: the five filters applied one after another. */
  function FilteredRows(rows: seq<Row>, sel: Selection): (res: seq<Row>)
    ensures forall x :: x in res <==> x in rows && Passes(sel, x)
  {
    var r1 := Narrow(rows, sel.colors != [], ColorIn(sel.colors));
    var r2 := Narrow(r1, sel.regions != [], RegionIn(sel.regions));
    var r3 := Narrow(r2, sel.producers != [], ProducerIn(sel.producers));
    var r4 := Narrow(r3, sel.locGroups != [], LocGroupIn(sel.locGroups));
    Narrow(r4, sel.locations != [], LocationIn(sel.locations))
  }

  /** One more filter step keeps the order of a filtered table. */
  lemma NarrowFiltered(rows: seq<Row>, q: Row -> bool, active: bool, p: Row -> bool, q2: Row -> bool)
    requires forall x :: q2(x) == (q(x) && (!active || p(x)))
    ensures Narrow(Lists.Filter(rows, q), active, p) == Lists.Filter(rows, q2)
  {
    if active {
      Lists.FilterFilter(rows, q, p, q2);
    } else {
      Lists.FilterSame(rows, q, q2);
    }
  }

  /** The chain of filters is one conjunctive filter: it keeps exactly the passing rows
      and keeps them in table order. */
  lemma FilteredRowsInOrder(rows: seq<Row>, sel: Selection)
    ensures FilteredRows(rows, sel) == Lists.Filter(rows, PassesAll(sel))
  {
    var q0 := (x: Row) => true;
    var q1 := (x: Row) => q0(x) && (sel.colors == [] || ColorIn(sel.colors)(x));
    var q2 := (x: Row) => q1(x) && (sel.regions == [] || RegionIn(sel.regions)(x));
    var q3 := (x: Row) => q2(x) && (sel.producers == [] || ProducerIn(sel.producers)(x));
    var q4 := (x: Row) => q3(x) && (sel.locGroups == [] || LocGroupIn(sel.locGroups)(x));
    var q5 := (x: Row) => q4(x) && (sel.locations == [] || LocationIn(sel.locations)(x));
    Lists.FilterAll(rows, q0);
    NarrowFiltered(rows, q0, sel.colors != [], ColorIn(sel.colors), q1);
    var r1 := Narrow(rows, sel.colors != [], ColorIn(sel.colors));
    NarrowFiltered(rows, q1, sel.regions != [], RegionIn(sel.regions), q2);
    var r2 := Narrow(r1, sel.regions != [], RegionIn(sel.regions));
    NarrowFiltered(rows, q2, sel.producers != [], ProducerIn(sel.producers), q3);
    var r3 := Narrow(r2, sel.producers != [], ProducerIn(sel.producers));
    NarrowFiltered(rows, q3, sel.locGroups != [], LocGroupIn(sel.locGroups), q4);
    var r4 := Narrow(r3, sel.locGroups != [], LocGroupIn(sel.locGroups));
    NarrowFiltered(rows, q4, sel.locations != [], LocationIn(sel.locations), q5);
    Lists.FilterSame(rows, q5, PassesAll(sel));
  }

  /** With nothing selected the whole table is shown. */
  lemma NoSelectionShowsAll(rows: seq<Row>)
    ensures FilteredRows(rows, Selection([], [], [], [], [])) == rows
  {
  }
}
