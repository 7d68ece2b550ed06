/** The entry forms: the toggles kept in the session state, the default positions of
    the select boxes, the wine-type options, the vineyard and wine labels, the option
    list of a producer's wines with one "New Vintage" entry per group, the bottle
    consumed with a tasting note, and the place chosen on the visit form. */
module Forms {
  import opened Wrappers
  import Strings
  import Shared
  import Sorting
  import Lists
  import Labels

  // ---- the session state ----

  /** `_get_state(key, default)` on the state as a map: the key is set only when absent. */
  function WithDefault(m: map<string, bool>, key: string, default: bool): (r: map<string, bool>)
    ensures key in r
    ensures key in m ==> r == m
    ensures key !in m ==> r[key] == default && forall k :: k in m ==> k in r && r[k] == m[k]
  {
    if key in m then m else m[key := default]
  }

  /** `_toggle_state(key)` on the state as a map. */
  function Toggled(m: map<string, bool>, key: string): (r: map<string, bool>)
    requires key in m
    ensures r.Keys == m.Keys && r[key] == !m[key]
    ensures forall k :: k in m && k != key ==> r[k] == m[k]
  {
    m[key := !m[key]]
  }

  /** Toggling twice restores the state. */
  lemma ToggleTwice(m: map<string, bool>, key: string)
    requires key in m
    ensures Toggled(Toggled(m, key), key) == m
  {
    var t := Toggled(Toggled(m, key), key);
    assert forall k :: k in t <==> k in m;
    assert forall k :: k in t ==> t[k] == m[k];
  }

  /** Reading a key a second time, whatever the default, changes nothing and reads the
      same value. */
  lemma GetStateStable(m: map<string, bool>, key: string, d1: bool, d2: bool)
    ensures WithDefault(WithDefault(m, key, d1), key, d2) == WithDefault(m, key, d1)
    ensures WithDefault(m, key, d1)[key] == (if key in m then m[key] else d1)
  {
  }

  /** `st.session_state` as far as these helpers use it. */
  class SessionState {
    var state: map<string, bool>

    constructor ()
      ensures state == map[]
    {
      state := map[];
    }

    /** `_get_state(key, default)`. */
    method GetState(key: string, default: bool) returns (v: bool)
      modifies this
      ensures state == WithDefault(old(state), key, default)
      ensures v == state[key]
    {
      if key !in state {
        state := state[key := default];
      }
      v := state[key];
    }

    /** `_toggle_state(key)`: raises a KeyError (here `ok == false`) when the key was
        never set, and changes nothing then. */
    method ToggleState(key: string) returns (ok: bool)
      modifies this
      ensures ok <==> key in old(state)
      ensures ok ==> state == Toggled(old(state), key)
      ensures !ok ==> state == old(state)
    {
      if key in state {
        state := state[key := !state[key]];
        ok := true;
      } else {
        ok := false;
      }
    }
  }

  // ---- select boxes ----

  const Select := "Select..."
  const CreateNew := "\U{2795} Create New..."
  const CreateNewWine := "\U{2795} Create New Wine..."
  const CreateNewPlace := "\U{2795} Create New Place..."
  const NewVintageSuffix := " - \U{2795} New Vintage"

  /** The default position in `[Select, Create New] + names`: the default name's
      position plus two, or 0 (Select) when the name is missing or not listed. */
  function DefaultIndex(names: seq<string>, name: Option<string>): (r: nat)
    ensures r == 0 <==> name.None? || name.value !in names
    ensures r != 0 ==> 2 <= r < |names| + 2 && ([Select, CreateNew] + names)[r] == name.value
    ensures r != 0 ==> forall j :: 2 <= j < r ==> ([Select, CreateNew] + names)[j] != name.value
  {
    if name.Some? && name.value in names then Lists.IndexOf(names, name.value) + 2 else 0
  }

  /** The visit form's two steps: position plus one, then plus one more when set. */
  function VisitPlaceIndex(names: seq<string>, name: Option<string>): nat {
    var current := if name.Some? && name.value in names then Lists.IndexOf(names, name.value) + 1 else 0;
    if current > 0 then current + 1 else 0
  }

  /** The two steps land where the one-step forms do. */
  lemma VisitPlaceIndexAgrees(names: seq<string>, name: Option<string>)
    ensures VisitPlaceIndex(names, name) == DefaultIndex(names, name)
  {
  }

  /** The producer box of the wine form as written: the position in the names as the
      database ordered them, into a list that shows the names re-sorted by `sorted`. */
  function ProducerIndexAsWritten(dbNames: seq<string>, name: Option<string>): (r: nat)
    ensures r == 0 <==> name.None? || name.value !in dbNames
    ensures r != 0 ==> 2 <= r < |dbNames| + 2 && dbNames[r - 2] == name.value
    ensures r != 0 ==> forall j :: 0 <= j < r - 2 ==> dbNames[j] != name.value
  {
    DefaultIndex(dbNames, name)
  }

  /** The options the wine form's producer box shows. */
  function ProducerOptions(dbNames: seq<string>): seq<string> {
    [Select, CreateNew] + Sorting.SortStrings(dbNames)
  }

  /** A database that orders names case-insensitively ("abc" before "Bcd") makes the
      box preselect the other producer. */
  lemma CollationMisselects()
    ensures ProducerOptions(["abc", "Bcd"])[ProducerIndexAsWritten(["abc", "Bcd"], Some("abc"))] == "Bcd"
  {
    var names := ["abc", "Bcd"];
    assert Strings.Less("Bcd", "abc");
    Strings.LessIrreflexive("abc");
    var s := Sorting.SortStrings(names);
    assert multiset(s) == multiset(names);
    assert |s| == 2;
    assert s[0] in multiset(names) && s[1] in multiset(names);
    assert s[0] == "Bcd";
  }

  /** The position as intended: taken in the list the box shows. */
  function ProducerIndex(dbNames: seq<string>, name: Option<string>): (r: nat)
    ensures r == 0 <==> name.None? || name.value !in dbNames
    ensures r != 0 ==> r < |ProducerOptions(dbNames)| && ProducerOptions(dbNames)[r] == name.value
  {
    var sorted := Sorting.SortStrings(dbNames);
    assert forall x :: x in sorted <==> x in dbNames by {
      assert forall x :: x in sorted <==> x in multiset(sorted);
      assert forall x :: x in dbNames <==> x in multiset(dbNames);
    }
    DefaultIndex(sorted, name)
  }

  // ---- wine types ----

  /** `get_type_emoji(t)`: the emoji as they stand in the source file, UTF-8 bytes read
      as Windows-1252 text. */
  function TypeEmoji(t: string): (r: string)
    ensures r != [] && ' ' !in r
    ensures r[0] == '\U{F0}'
  {
    if t == "Red" then "\U{F0}\U{178}\U{201D}\U{B4}"
    else if t == "White" then "\U{F0}\U{178}\U{178}\U{A1}"
    else if t == "Bubbles" then "\U{F0}\U{178}\U{BE}"
    else if t == "Rose" then "\U{F0}\U{178}\U{152}\U{B8}"
    else if t == "Sweet" then "\U{F0}\U{178}\U{AF}"
    else if t == "Orange" then "\U{F0}\U{178}\U{178}\U{A0}"
    else if t == "Fortified" then "\U{F0}\U{178}\U{203A}\U{A1}\U{EF}\U{B8}"
    else "\U{F0}\U{178}\U{B7}"
  }

  /** The seven types of the colour table. */
  const WineTypes: seq<string> := ["Bubbles", "Fortified", "Orange", "Red", "Rose", "Sweet", "White"]

  /** Each known type has its own emoji, and none of them is the fallback. */
  lemma TypeEmojiDistinct()
    ensures forall i, j :: 0 <= i < j < |WineTypes| ==> TypeEmoji(WineTypes[i]) != TypeEmoji(WineTypes[j])
    ensures forall i :: 0 <= i < |WineTypes| ==> TypeEmoji(WineTypes[i]) != TypeEmoji("")
  {
  }

  /** An entry of the type box: `f"{emoji} {t}"`. */
  function TypeOption(t: string): string {
    TypeEmoji(t) + " " + t
  }

  /** `s.split(" ", 1)[1] if " " in s else s`: what follows the first space. */
  function ChosenType(s: string): (r: string)
    ensures ' ' !in s ==> r == s
    ensures ' ' in s ==> exists i :: 0 <= i < |s| && s[i] == ' ' && ' ' !in s[..i] && r == s[i + 1..]
  {
    if ' ' !in s then s
    else if s[0] == ' ' then s[1..]
    else
      assert ' ' in s[1..];
      var r := ChosenType(s[1..]);
      ghost var i :| 0 <= i < |s[1..]| && s[1..][i] == ' ' && ' ' !in s[1..][..i] && r == s[1..][i + 1..];
      assert s[..i + 1] == [s[0]] + s[1..][..i];
      r
  }

  /** Reading the type back from its entry gives the type. */
  lemma ChosenTypeOfOption(t: string)
    ensures ChosenType(TypeOption(t)) == t
  {
    ChosenTypeAfter(TypeEmoji(t), t);
  }

  /** What follows a space-free prefix and one space. */
  lemma {:induction false} ChosenTypeAfter(e: string, t: string)
    requires ' ' !in e
    ensures ChosenType(e + " " + t) == t
  {
    var s := e + " " + t;
    assert s[|e|] == ' ';
    if e == [] {
      assert s[1..] == t;
    } else {
      assert s[1..] == e[1..] + " " + t;
      ChosenTypeAfter(e[1..], t);
    }
  }

  // ---- labels ----

  /** A value `p` with `p and str(p).strip()`. */
  predicate NonBlank(p: Option<string>) {
    p.Some? && !Strings.IsBlank(p.value)
  }

  /** The present parts of a vineyard label. */
  function VinyParts(sub: Option<string>, village: Option<string>, name: Option<string>): seq<string> {
    (if NonBlank(sub) then [sub.value] else [])
    + (if NonBlank(village) then [village.value] else [])
    + (if NonBlank(name) then [name.value] else [])
  }

  /** `format_viny(v)`: the non-blank sub-region, village and name joined with " - ",
      or the bare name when none is. */
  function FormatViny(sub: Option<string>, village: Option<string>, name: Option<string>): Option<string> {
    var parts := VinyParts(sub, village, name);
    if parts != [] then Some(Strings.Join(parts, " - ")) else name
  }

  /** The label in each case. */
  lemma FormatVinyCases(sub: Option<string>, village: Option<string>, name: Option<string>)
    ensures !NonBlank(sub) && !NonBlank(village) ==> FormatViny(sub, village, name) == name
    ensures NonBlank(sub) && NonBlank(village) && NonBlank(name) ==>
      FormatViny(sub, village, name) == Some(sub.value + " - " + village.value + " - " + name.value)
    ensures NonBlank(sub) && !NonBlank(village) && NonBlank(name) ==>
      FormatViny(sub, village, name) == Some(sub.value + " - " + name.value)
    ensures !NonBlank(sub) && NonBlank(village) && NonBlank(name) ==>
      FormatViny(sub, village, name) == Some(village.value + " - " + name.value)
    ensures NonBlank(sub) && NonBlank(village) && !NonBlank(name) ==>
      FormatViny(sub, village, name) == Some(sub.value + " - " + village.value)
    ensures NonBlank(sub) && !NonBlank(village) && !NonBlank(name) ==>
      FormatViny(sub, village, name) == Some(sub.value)
    ensures !NonBlank(sub) && NonBlank(village) && !NonBlank(name) ==>
      FormatViny(sub, village, name) == Some(village.value)
  {
    var p0 := if NonBlank(sub) then [sub.value] else [];
    var p1 := if NonBlank(village) then [village.value] else [];
    var p2 := if NonBlank(name) then [name.value] else [];
    Strings.JoinUpToThree(p0, p1, p2, " - ");
    if NonBlank(sub) && NonBlank(village) && NonBlank(name) {
      assert sub.value + " - " + village.value + " - " + name.value
        == sub.value + (" - " + village.value) + (" - " + name.value);
    }
  }

  /** `"(vintage)"`, or `"(NV - disgorgement)"` for a dated non-vintage wine. */
  function VintageText(vintage: string, disgorge: Option<string>): string {
    "(" + (if vintage == "NV" && Shared.Truthy(disgorge) then vintage + " - " + disgorge.value else vintage) + ")"
  }

  /** `", ".join(x for x in [app, var] if x)`. */
  function DetailText(app: string, variety: string): string {
    if app != "" && variety != "" then app + ", " + variety else app + variety
  }

  /** `make_label(type, cuvee, app, var, vintage, disgorge)`: the parts joined by spaces. */
  function MakeLabel(t: string, cuvee: string, app: string, variety: string, vintage: Option<string>, disgorge: Option<string>): string {
    var vpart := if Shared.Truthy(vintage) then [VintageText(vintage.value, disgorge)] else [];
    JoinLabel(TypeEmoji(t) + " " + cuvee, vpart, app, variety)
  }

  /** The head, the vintage part and the details part, joined by spaces. */
  function JoinLabel(head: string, vpart: seq<string>, app: string, variety: string): string {
    var details := (if app != "" then [app] else []) + (if variety != "" then [variety] else []);
    var dpart := if details != [] then ["- " + Strings.Join(details, ", ")] else [];
    Strings.Join([head] + vpart + dpart, " ")
  }

  lemma JoinLabelShape(head: string, vpart: seq<string>, app: string, variety: string)
    requires |vpart| <= 1
    ensures JoinLabel(head, vpart, app, variety)
      == head + (if vpart != [] then " " + vpart[0] else "")
      + (if app != "" || variety != "" then " - " + DetailText(app, variety) else "")
  {
    var a := if app != "" then [app] else [];
    var v := if variety != "" then [variety] else [];
    var details := a + v;
    Strings.JoinUpToThree(a, v, [], ", ");
    assert details + [] == details;
    assert details != [] ==> Strings.Join(details, ", ") == DetailText(app, variety);
    var dpart := if details != [] then ["- " + Strings.Join(details, ", ")] else [];
    Strings.JoinOptional(head, vpart, dpart, " ");
  }

  /** The label: emoji and cuvee, then the vintage in brackets when there is one, then
      the appellation and variety that are set. */
  lemma MakeLabelShape(t: string, cuvee: string, app: string, variety: string, vintage: Option<string>, disgorge: Option<string>)
    ensures MakeLabel(t, cuvee, app, variety, vintage, disgorge)
      == TypeEmoji(t) + " " + cuvee
      + (if Shared.Truthy(vintage) then " " + VintageText(vintage.value, disgorge) else "")
      + (if app != "" || variety != "" then " - " + DetailText(app, variety) else "")
  {
    var vpart := if Shared.Truthy(vintage) then [VintageText(vintage.value, disgorge)] else [];
    JoinLabelShape(TypeEmoji(t) + " " + cuvee, vpart, app, variety);
  }

  /** The vintage shown in a wine's option is the label the detail pages show. */
  lemma LabelShowsVintageLabel(vintage: Option<string>, disgorge: Option<string>)
    requires Shared.Truthy(vintage)
    ensures VintageText(vintage.value, disgorge) == "(" + Labels.VintageLabel(vintage, disgorge).value + ")"
  {
  }

  // ---- the wine box of a producer: one "New Vintage" entry per group ----

  /** A wine of the chosen producer, in query order; `app`, `variety` and `vineyard`
      are the names of the related rows, when there are any. */
  datatype WineRec = WineRec(
    id: int,
    wtype: string,
    cuvee: string,
    app: Option<string>,
    variety: Option<string>,
    vintage: Option<string>,
    disgorgement: Option<string>,
    region: Option<string>,
    vineyard: Option<string>,
    blend: Option<string>,
    drinkStart: Option<int>,
    drinkEnd: Option<int>)

  /** (type, cuvee, appellation name or "", varietal name or ""). */
  type GroupKey = (string, string, string, string)

  function KeyOf(w: WineRec): GroupKey {
    (w.wtype, w.cuvee, w.app.GetOr(""), w.variety.GetOr(""))
  }

  /** `groups.setdefault(key, []).append(w)` over the wines. */
  function GroupsOf(ws: seq<WineRec>): map<GroupKey, seq<WineRec>>
    decreases |ws|
  {
    if ws == [] then map[]
    else
      var m := GroupsOf(ws[..|ws| - 1]);
      var w := ws[|ws| - 1];
      var k := KeyOf(w);
      m[k := (if k in m then m[k] else []) + [w]]
  }

  /** The grouping loop. */
  method GroupWines(ws: seq<WineRec>) returns (groups: map<GroupKey, seq<WineRec>>)
    ensures groups == GroupsOf(ws)
  {
    groups := map[];
    for i := 0 to |ws|
      invariant groups == GroupsOf(ws[..i])
    {
      var k := KeyOf(ws[i]);
      if k !in groups {
        groups := groups[k := []];
      }
      ghost var prev := GroupsOf(ws[..i]);
      assert groups[k] == if k in prev then prev[k] else [];
      groups := groups[k := groups[k] + [ws[i]]];
      assert groups == prev[k := (if k in prev then prev[k] else []) + [ws[i]]];
      assert ws[..i + 1][..i] == ws[..i] && ws[..i + 1][i] == ws[i];
    }
    assert ws[..|ws|] == ws;
  }

  function WithKey(k: GroupKey): WineRec -> bool {
    w => KeyOf(w) == k
  }

  /** A group holds exactly the wines with its key, in query order; a key no wine
      has gets no group. */
  lemma {:induction false} GroupsOfContents(ws: seq<WineRec>, k: GroupKey)
    ensures k in GroupsOf(ws) ==> GroupsOf(ws)[k] == Lists.Filter(ws, WithKey(k)) && GroupsOf(ws)[k] != []
    ensures k !in GroupsOf(ws) ==> Lists.Filter(ws, WithKey(k)) == []
    decreases |ws|
  {
    if ws == [] {
      assert Lists.Filter(ws, WithKey(k)) == [];
    } else {
      var init := ws[..|ws| - 1];
      var w := ws[|ws| - 1];
      var m := GroupsOf(init);
      GroupsOfContents(init, k);
      assert ws == init + [w];
      Lists.FilterAppend(init, [w], WithKey(k));
      Lists.FilterCons(w, [], WithKey(k));
      assert [w] + [] == [w];
      var f := Lists.Filter(init, WithKey(k));
      if KeyOf(w) == k {
        assert Lists.Filter(ws, WithKey(k)) == f + [w];
        assert GroupsOf(ws)[k] == (if k in m then m[k] else []) + [w];
      } else {
        assert Lists.Filter(ws, WithKey(k)) == f + [];
        assert f + [] == f;
        assert k in GroupsOf(ws) <==> k in m;
      }
    }
  }

  /** There is a group for exactly the keys the wines have. */
  lemma KeyInGroups(ws: seq<WineRec>, k: GroupKey)
    ensures k in GroupsOf(ws) <==> k in KeysOf(ws)
  {
    GroupsOfContents(ws, k);
    var f := Lists.Filter(ws, WithKey(k));
    if k in GroupsOf(ws) {
      assert f[0] in f;
      var i :| 0 <= i < |ws| && ws[i] == f[0];
      assert KeysOf(ws)[i] == k;
    }
    if k in KeysOf(ws) {
      var i :| 0 <= i < |ws| && KeysOf(ws)[i] == k;
      assert WithKey(k)(ws[i]);
      assert ws[i] in f;
    }
  }

  /** Lexicographic order on the keys, as Python compares tuples of strings. */
  predicate KeyLess(a: GroupKey, b: GroupKey) {
    Strings.Less(a.0, b.0)
    || (a.0 == b.0 && (Strings.Less(a.1, b.1)
    || (a.1 == b.1 && (Strings.Less(a.2, b.2)
    || (a.2 == b.2 && Strings.Less(a.3, b.3))))))
  }

  lemma KeyLessStrict(a: GroupKey, b: GroupKey, c: GroupKey)
    ensures !KeyLess(a, a)
    ensures a == b || KeyLess(a, b) || KeyLess(b, a)
    ensures KeyLess(a, b) && KeyLess(b, c) ==> KeyLess(a, c)
  {
    Strings.LessIrreflexive(a.0);
    Strings.LessIrreflexive(a.1);
    Strings.LessIrreflexive(a.2);
    Strings.LessIrreflexive(a.3);
    Strings.LessTotal(a.0, b.0);
    Strings.LessTotal(a.1, b.1);
    Strings.LessTotal(a.2, b.2);
    Strings.LessTotal(a.3, b.3);
    if Strings.Less(a.0, b.0) && Strings.Less(b.0, c.0) { Strings.LessTransitive(a.0, b.0, c.0); }
    if Strings.Less(a.1, b.1) && Strings.Less(b.1, c.1) { Strings.LessTransitive(a.1, b.1, c.1); }
    if Strings.Less(a.2, b.2) && Strings.Less(b.2, c.2) { Strings.LessTransitive(a.2, b.2, c.2); }
    if Strings.Less(a.3, b.3) && Strings.Less(b.3, c.3) { Strings.LessTransitive(a.3, b.3, c.3); }
  }

  function KeyOrder(): (le: (GroupKey, GroupKey) -> bool) {
    (a: GroupKey, b: GroupKey) => !KeyLess(b, a)
  }

  lemma KeyOrderTotal()
    ensures Sorting.TotalPreorder(KeyOrder())
  {
    forall a: GroupKey, b: GroupKey
      ensures KeyOrder()(a, b) || KeyOrder()(b, a)
    {
      KeyLessStrict(a, b, a);
    }
    forall a: GroupKey, b: GroupKey, c: GroupKey | KeyOrder()(a, b) && KeyOrder()(b, c)
      ensures KeyOrder()(a, c)
    {
      KeyLessStrict(a, b, c);
      KeyLessStrict(c, a, b);
      KeyLessStrict(b, c, a);
    }
  }

  function KeysOf(ws: seq<WineRec>): (r: seq<GroupKey>)
    ensures |r| == |ws| && forall i :: 0 <= i < |ws| ==> r[i] == KeyOf(ws[i])
  {
    seq(|ws|, i requires 0 <= i < |ws| => KeyOf(ws[i]))
  }

  /** `sorted(groups.keys())`. */
  function SortedKeys(ws: seq<WineRec>): seq<GroupKey> {
    Sorting.SortBy(Sorting.Distinct(KeysOf(ws)), KeyOrder())
  }

  /** The sorted keys are the groups' keys, each once, in strictly ascending order. */
  lemma SortedKeysOrdered(ws: seq<WineRec>)
    ensures forall k :: k in SortedKeys(ws) <==> k in GroupsOf(ws)
    ensures forall i, j :: 0 <= i < j < |SortedKeys(ws)| ==> KeyLess(SortedKeys(ws)[i], SortedKeys(ws)[j])
  {
    var d := Sorting.Distinct(KeysOf(ws));
    var r := SortedKeys(ws);
    Sorting.SortByPermutation(d, KeyOrder());
    KeyOrderTotal();
    Sorting.SortBySorted(d, KeyOrder());
    assert forall k :: k in r <==> k in multiset(r);
    forall k
      ensures k in r <==> k in GroupsOf(ws)
    {
      KeyInGroups(ws, k);
    }
    forall i, j | 0 <= i < j < |r|
      ensures KeyLess(r[i], r[j])
    {
      Sorting.DistinctAfterPermutation(d, r, i, j);
      KeyLessStrict(r[i], r[j], r[i]);
    }
  }

  /** The entry of an existing wine of group `k`. */
  function WineOption(w: WineRec, k: GroupKey): string {
    MakeLabel(w.wtype, w.cuvee, k.2, k.3, w.vintage, w.disgorgement)
  }

  /** The "New Vintage" entry of group `k`. */
  function NewVintageOption(k: GroupKey): string {
    MakeLabel(k.0, k.1, k.2, k.3, None, None) + NewVintageSuffix
  }

  /** How the box writes its entries: one per wine of a group, one per group. The
      option functions below take it as a parameter so that their properties hold for
      any entry texts. */
  datatype Entries = Entries(wine: (WineRec, GroupKey) -> string, group: GroupKey -> string)

  /** The entries of the wine box. */
  function BoxEntries(): Entries {
    Entries(WineOption, NewVintageOption)
  }

  function WineOptions(g: seq<WineRec>, k: GroupKey, e: Entries): (r: seq<string>)
    ensures |r| == |g| && forall i :: 0 <= i < |g| ==> r[i] == e.wine(g[i], k)
  {
    seq(|g|, i requires 0 <= i < |g| => e.wine(g[i], k))
  }

  /** The entries after Select and Create New Wine: each group's wines, then its
      "New Vintage" entry. */
  function OptionsFrom(keys: seq<GroupKey>, groups: map<GroupKey, seq<WineRec>>, e: Entries): seq<string>
    requires forall k :: k in keys ==> k in groups
    decreases |keys|
  {
    if keys == [] then []
    else
      var k := keys[|keys| - 1];
      OptionsFrom(keys[..|keys| - 1], groups, e) + WineOptions(groups[k], k, e) + [e.group(k)]
  }

  /** `group_map`: each "New Vintage" entry to its group's wines. */
  function GroupMapFrom(keys: seq<GroupKey>, groups: map<GroupKey, seq<WineRec>>, e: Entries): map<string, seq<WineRec>>
    requires forall k :: k in keys ==> k in groups
    decreases |keys|
  {
    if keys == [] then map[]
    else
      var k := keys[|keys| - 1];
      GroupMapFrom(keys[..|keys| - 1], groups, e)[e.group(k) := groups[k]]
  }

  /** `w_map` after the wines `g` of group `k` are added to `m`. */
  function AddIds(m: map<string, int>, g: seq<WineRec>, k: GroupKey, e: Entries): map<string, int>
    decreases |g|
  {
    if g == [] then m
    else
      var w := g[|g| - 1];
      AddIds(m, g[..|g| - 1], k, e)[e.wine(w, k) := w.id]
  }

  /** `w_map`: each wine's entry to its id (a later wine with the same entry wins). */
  function IdsFrom(keys: seq<GroupKey>, groups: map<GroupKey, seq<WineRec>>, e: Entries): map<string, int>
    requires forall k :: k in keys ==> k in groups
    decreases |keys|
  {
    if keys == [] then map[]
    else
      var k := keys[|keys| - 1];
      AddIds(IdsFrom(keys[..|keys| - 1], groups, e), groups[k], k, e)
  }

  /** The inner loop: the entries and ids of one group's wines. */
  method AddGroupWines(options0: seq<string>, ids0: map<string, int>, g: seq<WineRec>, k: GroupKey, e: Entries)
    returns (options: seq<string>, ids: map<string, int>)
    ensures options == options0 + WineOptions(g, k, e)
    ensures ids == AddIds(ids0, g, k, e)
  {
    options, ids := options0, ids0;
    for j := 0 to |g|
      invariant options == options0 + WineOptions(g[..j], k, e)
      invariant ids == AddIds(ids0, g[..j], k, e)
    {
      var entry := e.wine(g[j], k);
      assert g[..j + 1][..j] == g[..j] && g[..j + 1][j] == g[j];
      assert WineOptions(g[..j + 1], k, e) == WineOptions(g[..j], k, e) + [entry];
      options := options + [entry];
      ids := ids[entry := g[j].id];
    }
    assert g[..|g|] == g;
  }

  /** The keys are the groups' keys (a precondition of the option functions). */
  predicate KeysHaveGroups(ws: seq<WineRec>) {
    forall k :: k in SortedKeys(ws) ==> k in GroupsOf(ws)
  }

  lemma KeysHaveGroupsHolds(ws: seq<WineRec>)
    ensures KeysHaveGroups(ws)
  {
    SortedKeysOrdered(ws);
  }

  /** The outer loop: for each key in order, the group's wines and then its
      "New Vintage" entry. */
  method AddGroups(keys: seq<GroupKey>, groups: map<GroupKey, seq<WineRec>>, e: Entries)
    returns (options: seq<string>, wMap: map<string, int>, groupMap: map<string, seq<WineRec>>)
    requires forall k :: k in keys ==> k in groups
    ensures options == [Select, CreateNewWine] + OptionsFrom(keys, groups, e)
    ensures wMap == IdsFrom(keys, groups, e)
    ensures groupMap == GroupMapFrom(keys, groups, e)
  {
    options, wMap, groupMap := [Select, CreateNewWine], map[], map[];
    for i := 0 to |keys|
      invariant options == [Select, CreateNewWine] + OptionsFrom(keys[..i], groups, e)
      invariant wMap == IdsFrom(keys[..i], groups, e)
      invariant groupMap == GroupMapFrom(keys[..i], groups, e)
    {
      var k := keys[i];
      assert keys[..i + 1][..i] == keys[..i] && keys[..i + 1][i] == k;
      options, wMap := AddGroupWines(options, wMap, groups[k], k, e);
      options := options + [e.group(k)];
      groupMap := groupMap[e.group(k) := groups[k]];
    }
    assert keys[..|keys|] == keys;
  }

  /** The option list of the wine box, with its two lookup tables. */
  method WineBox(ws: seq<WineRec>) returns (options: seq<string>, wMap: map<string, int>, groupMap: map<string, seq<WineRec>>)
    ensures KeysHaveGroups(ws)
    ensures options == [Select, CreateNewWine] + OptionsFrom(SortedKeys(ws), GroupsOf(ws), BoxEntries())
    ensures wMap == IdsFrom(SortedKeys(ws), GroupsOf(ws), BoxEntries())
    ensures groupMap == GroupMapFrom(SortedKeys(ws), GroupsOf(ws), BoxEntries())
  {
    var groups := GroupWines(ws);
    KeysHaveGroupsHolds(ws);
    options, wMap, groupMap := AddGroups(SortedKeys(ws), groups, BoxEntries());
  }

  /** Every wine has its entry, and every group its "New Vintage" entry. */
  lemma {:induction false} OptionsListEverything(keys: seq<GroupKey>, groups: map<GroupKey, seq<WineRec>>, e: Entries)
    requires forall k :: k in keys ==> k in groups
    ensures forall k :: k in keys ==> e.group(k) in OptionsFrom(keys, groups, e)
    ensures forall k, w :: k in keys && w in groups[k] ==> e.wine(w, k) in OptionsFrom(keys, groups, e)
    decreases |keys|
  {
    if keys != [] {
      var init := keys[..|keys| - 1];
      var last := keys[|keys| - 1];
      OptionsListEverything(init, groups, e);
      var wo := WineOptions(groups[last], last, e);
      forall w | w in groups[last]
        ensures e.wine(w, last) in wo
      {
        var i :| 0 <= i < |groups[last]| && groups[last][i] == w;
        assert wo[i] == e.wine(w, last);
      }
      assert forall k :: k in keys ==> k in init || k == last;
    }
  }

  /** Each wine's entry is offered, so the default wine, when it is one of the
      producer's, is found in the box. */
  lemma WineListed(ws: seq<WineRec>, w: WineRec)
    requires w in ws
    ensures KeysHaveGroups(ws)
    ensures WineOption(w, KeyOf(w)) in OptionsFrom(SortedKeys(ws), GroupsOf(ws), BoxEntries())
  {
    KeysHaveGroupsHolds(ws);
    var k := KeyOf(w);
    GroupsOfContents(ws, k);
    assert WithKey(k)(w);
    assert w in GroupsOf(ws)[k];
    SortedKeysOrdered(ws);
    OptionsListEverything(SortedKeys(ws), GroupsOf(ws), BoxEntries());
  }

  /** `group_map` has one entry per group; when the groups' "New Vintage" entries
      differ, each entry leads back to its own group's wines. */
  lemma {:induction false} GroupMapLookup(keys: seq<GroupKey>, groups: map<GroupKey, seq<WineRec>>, e: Entries)
    requires forall k :: k in keys ==> k in groups
    requires forall i, j :: 0 <= i < j < |keys| ==> e.group(keys[i]) != e.group(keys[j])
    ensures forall l :: l in GroupMapFrom(keys, groups, e) <==> exists k :: k in keys && l == e.group(k)
    ensures forall k :: k in keys ==> GroupMapFrom(keys, groups, e)[e.group(k)] == groups[k]
    decreases |keys|
  {
    if keys != [] {
      var init := keys[..|keys| - 1];
      var last := keys[|keys| - 1];
      GroupMapLookup(init, groups, e);
      forall k | k in init
        ensures e.group(k) != e.group(last)
      {
        var i :| 0 <= i < |init| && init[i] == k;
        assert keys[i] == k;
      }
      assert forall k :: k in keys ==> k in init || k == last;
    }
  }

  /** The form defaults a "New Vintage" entry fills in. */
  datatype Defaults = Defaults(
    cuvee: string,
    vintage: string,
    wtype: string,
    region: Option<string>,
    app: Option<string>,
    variety: Option<string>,
    vineyard: Option<string>,
    blend: Option<string>,
    rpScore: string,
    rpNote: string,
    rpUrl: string,
    drinkStart: Option<int>,
    drinkEnd: Option<int>,
    disgorgement: string)

  /** The defaults copied from the last wine of the group. */
  function NewVintageDefaults(g: seq<WineRec>): Defaults
    requires g != []
  {
    var w := g[|g| - 1];
    Defaults(w.cuvee, "", w.wtype, w.region, w.app, w.variety, w.vineyard, w.blend, "", "", "", w.drinkStart, w.drinkEnd, "")
  }

  /** The defaults of a group's entry describe that group: its type, cuvee,
      appellation and varietal, taken from the group's latest wine, with the vintage,
      the scores and the disgorgement left blank. */
  lemma GroupDefaults(ws: seq<WineRec>, k: GroupKey)
    requires k in GroupsOf(ws)
    ensures GroupsOf(ws)[k] != []
    ensures var d := NewVintageDefaults(GroupsOf(ws)[k]);
      d.wtype == k.0 && d.cuvee == k.1 && d.app.GetOr("") == k.2 && d.variety.GetOr("") == k.3
      && d.vintage == "" && d.rpScore == "" && d.rpNote == "" && d.rpUrl == "" && d.disgorgement == ""
  {
    GroupsOfContents(ws, k);
    var g := GroupsOf(ws)[k];
    assert g[|g| - 1] in g;
    assert WithKey(k)(g[|g| - 1]);
  }

  /** `w_map` after one group: every wine of the group has its entry, the entries
      already there stay, and each entry leads to a wine carrying it or to its old id. */
  lemma {:induction false} AddIdsSound(m: map<string, int>, g: seq<WineRec>, k: GroupKey, e: Entries)
    ensures forall l :: l in m ==> l in AddIds(m, g, k, e)
    ensures forall w :: w in g ==> e.wine(w, k) in AddIds(m, g, k, e)
    ensures forall l :: l in AddIds(m, g, k, e) ==>
      (l in m && AddIds(m, g, k, e)[l] == m[l])
      || exists w :: w in g && e.wine(w, k) == l && w.id == AddIds(m, g, k, e)[l]
    decreases |g|
  {
    if g != [] {
      var init := g[..|g| - 1];
      var last := g[|g| - 1];
      AddIdsSound(m, init, k, e);
      assert g == init + [last];
      assert forall w :: w in g ==> w in init || w == last;
      forall l | l in AddIds(m, g, k, e) && l != e.wine(last, k)
        ensures (l in m && AddIds(m, g, k, e)[l] == m[l])
          || exists w :: w in g && e.wine(w, k) == l && w.id == AddIds(m, g, k, e)[l]
      {
        assert AddIds(m, g, k, e)[l] == AddIds(m, init, k, e)[l];
        if !(l in m && AddIds(m, init, k, e)[l] == m[l]) {
          var w :| w in init && e.wine(w, k) == l && w.id == AddIds(m, init, k, e)[l];
          assert w in g;
        }
      }
    }
  }

  /** `w_map` holds every wine's entry, and each entry leads to the id of a wine
      carrying that entry (the last one listed). */
  lemma {:induction false} IdsFromSound(keys: seq<GroupKey>, groups: map<GroupKey, seq<WineRec>>, e: Entries)
    requires forall k :: k in keys ==> k in groups
    ensures forall k, w :: k in keys && w in groups[k] ==> e.wine(w, k) in IdsFrom(keys, groups, e)
    ensures forall l :: l in IdsFrom(keys, groups, e) ==>
      exists k, w :: k in keys && w in groups[k] && e.wine(w, k) == l && w.id == IdsFrom(keys, groups, e)[l]
    decreases |keys|
  {
    if keys != [] {
      var init := keys[..|keys| - 1];
      var last := keys[|keys| - 1];
      var before := IdsFrom(init, groups, e);
      IdsFromSound(init, groups, e);
      AddIdsSound(before, groups[last], last, e);
      assert forall k :: k in keys ==> k in init || k == last;
      forall l | l in IdsFrom(keys, groups, e)
        ensures exists k, w :: k in keys && w in groups[k] && e.wine(w, k) == l && w.id == IdsFrom(keys, groups, e)[l]
      {
        if l in before && IdsFrom(keys, groups, e)[l] == before[l] {
          var k, w :| k in init && w in groups[k] && e.wine(w, k) == l && w.id == before[l];
          assert k in keys;
        } else {
          var w :| w in groups[last] && e.wine(w, last) == l && w.id == IdsFrom(keys, groups, e)[l];
          assert last in keys;
        }
      }
    }
  }

  /** Two groups can share their "New Vintage" entry: an appellation with a comma in
      its name reads like an appellation and a varietal. */
  lemma NewVintageEntriesCollide(t: string, cuvee: string)
    ensures (t, cuvee, "A, B", "") != (t, cuvee, "A", "B")
    ensures NewVintageOption((t, cuvee, "A, B", "")) == NewVintageOption((t, cuvee, "A", "B"))
  {
    MakeLabelShape(t, cuvee, "A, B", "", None, None);
    MakeLabelShape(t, cuvee, "A", "B", None, None);
    assert DetailText("A", "B") == "A, B";
  }

  /** Every entry the box builds starts with the first byte of a type emoji, so it is
      never "Select..." nor the create entry. */
  lemma EntryIsNoCommand(t: string, cuvee: string, app: string, variety: string, vintage: Option<string>, disgorge: Option<string>)
    ensures MakeLabel(t, cuvee, app, variety, vintage, disgorge)[0] == '\U{F0}'
    ensures MakeLabel(t, cuvee, app, variety, vintage, disgorge) != Select
    ensures MakeLabel(t, cuvee, app, variety, vintage, disgorge) + NewVintageSuffix != Select
    ensures MakeLabel(t, cuvee, app, variety, vintage, disgorge) != CreateNewWine
    ensures MakeLabel(t, cuvee, app, variety, vintage, disgorge) + NewVintageSuffix != CreateNewWine
  {
    MakeLabelShape(t, cuvee, app, variety, vintage, disgorge);
    var x := MakeLabel(t, cuvee, app, variety, vintage, disgorge);
    assert x[0] == TypeEmoji(t)[0];
    assert (x + NewVintageSuffix)[0] == x[0];
    assert Select[0] == 'S' && CreateNewWine[0] == '\U{2795}';
  }

  /** What the wine box's selection leads to. */
  datatype WineChoice = NewWine | NewVintage(defaults: Defaults) | ExistingWine(id: Option<int>) | NoWine

  /** The branch on the selected entry: the create entry, a group's "New Vintage"
      entry (defaults from the group's last wine), any other entry but "Select..."
      (`w_map.get`), or nothing. */
  function ChooseWine(sel: string, wMap: map<string, int>, groupMap: map<string, seq<WineRec>>): (r: WineChoice)
    requires forall l :: l in groupMap ==> groupMap[l] != []
    ensures r == NewWine <==> sel == CreateNewWine
    ensures r.NoWine? <==> sel == Select && sel !in groupMap
    ensures sel != CreateNewWine && sel in groupMap ==> r == NewVintage(NewVintageDefaults(groupMap[sel]))
    ensures r.ExistingWine? <==> sel != CreateNewWine && sel != Select && sel !in groupMap
    ensures r.ExistingWine? ==> (r.id.Some? <==> sel in wMap) && (sel in wMap ==> r.id.value == wMap[sel])
  {
    if sel == CreateNewWine then NewWine
    else if sel in groupMap then NewVintage(NewVintageDefaults(groupMap[sel]))
    else if sel != Select then ExistingWine(if sel in wMap then Some(wMap[sel]) else None)
    else NoWine
  }

  /** The tables of the box a producer's wines give. */
  function BoxTables(ws: seq<WineRec>): (map<string, int>, map<string, seq<WineRec>>) {
    KeysHaveGroupsHolds(ws);
    (IdsFrom(SortedKeys(ws), GroupsOf(ws), BoxEntries()), GroupMapFrom(SortedKeys(ws), GroupsOf(ws), BoxEntries()))
  }

  /** When the groups' "New Vintage" entries differ, the box's group map holds
      exactly those entries, each to its own, non-empty, group. */
  lemma BoxGroupMap(ws: seq<WineRec>)
    requires var keys := SortedKeys(ws);
      forall i, j :: 0 <= i < j < |keys| ==> NewVintageOption(keys[i]) != NewVintageOption(keys[j])
    ensures forall l :: l in BoxTables(ws).1 <==> exists k :: k in GroupsOf(ws) && l == NewVintageOption(k)
    ensures forall k :: k in GroupsOf(ws) ==> BoxTables(ws).1[NewVintageOption(k)] == GroupsOf(ws)[k]
    ensures forall l :: l in BoxTables(ws).1 ==> BoxTables(ws).1[l] != []
  {
    KeysHaveGroupsHolds(ws);
    SortedKeysOrdered(ws);
    GroupMapLookup(SortedKeys(ws), GroupsOf(ws), BoxEntries());
    forall k | k in GroupsOf(ws)
      ensures GroupsOf(ws)[k] != []
    {
      GroupsOfContents(ws, k);
    }
  }

  /** Choosing a group's "New Vintage" entry opens the new-wine form with that
      group's defaults: its type, cuvee, appellation and varietal, with a blank
      vintage, blank scores and a blank disgorgement date. */
  lemma ChooseNewVintage(ws: seq<WineRec>, k: GroupKey)
    requires var keys := SortedKeys(ws);
      forall i, j :: 0 <= i < j < |keys| ==> NewVintageOption(keys[i]) != NewVintageOption(keys[j])
    requires k in GroupsOf(ws)
    ensures forall l :: l in BoxTables(ws).1 ==> BoxTables(ws).1[l] != []
    ensures GroupsOf(ws)[k] != []
    ensures ChooseWine(NewVintageOption(k), BoxTables(ws).0, BoxTables(ws).1) == NewVintage(NewVintageDefaults(GroupsOf(ws)[k]))
    ensures var d := NewVintageDefaults(GroupsOf(ws)[k]);
      d.wtype == k.0 && d.cuvee == k.1 && d.app.GetOr("") == k.2 && d.variety.GetOr("") == k.3
      && d.vintage == "" && d.rpScore == "" && d.rpNote == "" && d.rpUrl == "" && d.disgorgement == ""
  {
    BoxGroupMap(ws);
    EntryIsNoCommand(k.0, k.1, k.2, k.3, None, None);
    GroupDefaults(ws, k);
  }

  /** Choosing the entry of one of the producer's wines, when it is not also a
      "New Vintage" entry, selects a wine carrying that entry. */
  lemma ChooseListedWine(ws: seq<WineRec>, w: WineRec)
    requires var keys := SortedKeys(ws);
      forall i, j :: 0 <= i < j < |keys| ==> NewVintageOption(keys[i]) != NewVintageOption(keys[j])
    requires w in ws
    requires WineOption(w, KeyOf(w)) !in BoxTables(ws).1
    ensures forall l :: l in BoxTables(ws).1 ==> BoxTables(ws).1[l] != []
    ensures var r := ChooseWine(WineOption(w, KeyOf(w)), BoxTables(ws).0, BoxTables(ws).1);
      r.ExistingWine? && r.id.Some?
      && exists v :: v in ws && WineOption(v, KeyOf(v)) == WineOption(w, KeyOf(w)) && v.id == r.id.value
  {
    BoxGroupMap(ws);
    var keys, groups := SortedKeys(ws), GroupsOf(ws);
    KeysHaveGroupsHolds(ws);
    SortedKeysOrdered(ws);
    var sel := WineOption(w, KeyOf(w));
    EntryIsNoCommand(w.wtype, w.cuvee, KeyOf(w).2, KeyOf(w).3, w.vintage, w.disgorgement);
    GroupsOfContents(ws, KeyOf(w));
    assert WithKey(KeyOf(w))(w);
    IdsFromSound(keys, groups, BoxEntries());
    assert sel in BoxTables(ws).0;
    var k, v :| k in keys && v in groups[k] && WineOption(v, k) == sel && v.id == BoxTables(ws).0[sel];
    GroupsOfContents(ws, k);
    assert WithKey(k)(v);
  }

  // ---- the bottle consumed with a note ----

  /** `if b_obj.qty > 0: b_obj.qty -= 1`. */
  function Consumed(qty: int): (r: int)
    ensures qty > 0 ==> r == qty - 1
    ensures qty <= 0 ==> r == qty
    ensures qty >= 0 ==> r >= 0
  {
    if qty > 0 then qty - 1 else qty
  }

  /** A cellar bottle's quantity. */
  class Bottle {
    var qty: int

    constructor (qty0: int)
      ensures qty == qty0
    {
      qty := qty0;
    }

    method Consume()
      modifies this
      ensures qty == Consumed(old(qty))
    {
      if qty > 0 {
        qty := qty - 1;
      }
    }
  }

  // ---- the place chosen on the visit form ----

  /** The "create" entry the visit form's save handler tests for: the Create New Place
      text as its UTF-8 bytes read as Windows-1252. */
  const GarbledCreateNewPlace := "\U{E2}\U{17E}\U{2022} Create New Place..."

  datatype PlaceOutcome = NewPlace | ExistingPlace(id: int) | SelectionRequired | KeyError

  /** The save handler as written: `place_map[sel_place]` for anything other than the
      garbled text and "Select...". */
  function PlaceChoiceAsWritten(sel: string, placeMap: map<string, int>): (r: PlaceOutcome)
    ensures r == NewPlace <==> sel == GarbledCreateNewPlace
    ensures r == SelectionRequired <==> sel == Select
    ensures r.ExistingPlace? <==> sel != GarbledCreateNewPlace && sel != Select && sel in placeMap
  {
    if sel == GarbledCreateNewPlace then NewPlace
    else if sel != Select then (if sel in placeMap then ExistingPlace(placeMap[sel]) else KeyError)
    else SelectionRequired
  }

  /** The box offers the real Create New Place entry, which the handler does not
      recognise: unless a place bears that very name, saving raises a KeyError. */
  lemma CreatePlaceUnreachable(placeMap: map<string, int>)
    requires CreateNewPlace !in placeMap
    ensures PlaceChoiceAsWritten(CreateNewPlace, placeMap) == KeyError
  {
    assert CreateNewPlace[0] != GarbledCreateNewPlace[0];
  }

  /** The handler as intended, comparing with the entry the box offers. */
  function PlaceChoice(sel: string, placeMap: map<string, int>): (r: PlaceOutcome)
    ensures r == NewPlace <==> sel == CreateNewPlace
    ensures r == SelectionRequired <==> sel == Select
  {
    if sel == CreateNewPlace then NewPlace
    else if sel != Select then (if sel in placeMap then ExistingPlace(placeMap[sel]) else KeyError)
    else SelectionRequired
  }

  /** Every entry of the box leads somewhere: creating, an existing place's id, or the
      "selection required" message; none raises. */
  lemma PlaceChoiceTotal(names: seq<string>, placeMap: map<string, int>, sel: string)
    requires forall n :: n in names <==> n in placeMap
    requires sel in [Select, CreateNewPlace] + names
    ensures PlaceChoice(sel, placeMap) != KeyError
    ensures sel in placeMap && sel != Select && sel != CreateNewPlace ==> PlaceChoice(sel, placeMap) == ExistingPlace(placeMap[sel])
  {
  }
}
