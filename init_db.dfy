/** Seeding the reference tables from CSV files: the coercion of a CSV text to a
    column's type, the record a CSV row becomes, and the rules that skip a table. */
module InitDb {
  import opened Wrappers
  import Strings
  import Numbers
  import Dates
  import Lists
  import Sorting

  /** The column types the coercion tells apart. */
  datatype ColumnType = IntegerColumn | FloatColumn | DateColumn | OtherColumn

  /** A value handed to a model's constructor. */
  datatype Cell = Null | IntCell(i: int) | FloatCell(f: Numbers.FloatVal) | DateCell(d: Dates.Date) | TextCell(s: string)

  /** `_coerce_value` as written can also raise: `int(float("inf"))` is an
      `OverflowError`, which the handler of `ValueError` and `TypeError` lets through. */
  datatype Coerced = Value(cell: Cell) | Raises

  /** `_coerce_value(value, column)` as written. `None` is a missing CSV field. */
  function CoerceValueAsWritten(value: Option<string>, col: ColumnType): (r: Coerced)
    ensures value == None || value == Some("") ==> r == Value(Null)
    ensures r.Raises? <==> col.IntegerColumn? && value.Some? && Numbers.IntOfFloatText(value.value).OverflowError?
  {
    if value == None || value == Some("") then Value(Null)
    else
      var s := value.value;
      match col
      case IntegerColumn =>
        (match Numbers.IntOfFloatText(s)
         case IntValue(v) => Value(IntCell(v))
         case ValueError => Value(Null)
         case OverflowError => Raises)
      case FloatColumn =>
        (match Numbers.ParseFloat(s)
         case Some(f) => Value(FloatCell(f))
         case None => Value(Null))
      case DateColumn =>
        (match Dates.ParseDate(s)
         case Some(d) => Value(DateCell(d))
         case None => Value(Null))
      case OtherColumn => Value(TextCell(s))
  }

  /** An integer column holding "inf", or a number beyond the double range such as
      "1e309", stops the whole seeding run. */
  lemma InfiniteIntegerRaises()
    ensures CoerceValueAsWritten(Some("inf"), IntegerColumn) == Raises
    ensures CoerceValueAsWritten(Some("1e309"), IntegerColumn) == Raises
  {
    Numbers.SpecialTexts();
    Numbers.ExponentOverflows();
  }

  /** The coercion as intended: any text the column type cannot hold is `None`. */
  function CoerceValue(value: Option<string>, col: ColumnType): (r: Cell)
    ensures value == None || value == Some("") ==> r == Null
    ensures r.IntCell? ==> col.IntegerColumn?
    ensures r.FloatCell? ==> col.FloatColumn?
    ensures r.DateCell? ==> col.DateColumn? && Dates.Valid(r.d)
    ensures r.TextCell? ==> col.OtherColumn? && value == Some(r.s)
  {
    if value == None || value == Some("") then Null
    else
      var s := value.value;
      match col
      case IntegerColumn =>
        (match Numbers.IntOfFloatText(s)
         case IntValue(v) => IntCell(v)
         case _ => Null)
      case FloatColumn =>
        (match Numbers.ParseFloat(s)
         case Some(f) => FloatCell(f)
         case None => Null)
      case DateColumn =>
        (match Dates.ParseDate(s)
         case Some(d) => DateCell(d)
         case None => Null)
      case OtherColumn => TextCell(s)
  }

  /** The intended coercion agrees with the written one wherever that one returns. */
  lemma CoerceValueAgrees(value: Option<string>, col: ColumnType)
    ensures !CoerceValueAsWritten(value, col).Raises? ==> CoerceValueAsWritten(value, col) == Value(CoerceValue(value, col))
  {
  }

  /** Integer columns read integer texts and whole-number float texts ("80.0" is 80) of
      every integer a double holds exactly, and an infinity, or an integer beyond the
      double range, is `None`. */
  lemma {:induction false} CoerceIntegers(n: int)
    ensures CoerceValue(Some("inf"), IntegerColumn) == Null
    ensures -(Numbers.MaxExactInt as int) <= n <= Numbers.MaxExactInt ==>
      CoerceValue(Some(Strings.IntToString(n)), IntegerColumn) == IntCell(n) &&
      CoerceValue(Some(Strings.IntToString(n) + ".0"), IntegerColumn) == IntCell(n)
    ensures Numbers.DoubleOverflow <= (if n < 0 then -n else n) as real ==>
      CoerceValue(Some(Strings.IntToString(n)), IntegerColumn) == Null &&
      CoerceValue(Some(Strings.IntToString(n) + ".0"), IntegerColumn) == Null
  {
    Numbers.SpecialTexts();
    Numbers.IntOfFloatOfInt(n);
    Numbers.IntOfFloatPointZero(n);
    IntegerText("inf", Numbers.OverflowError);
    IntegerText(Strings.IntToString(n), Numbers.IntOfFloatText(Strings.IntToString(n)));
    IntegerText(Strings.IntToString(n) + ".0", Numbers.IntOfFloatText(Strings.IntToString(n) + ".0"));
  }

  lemma IntegerText(t: string, r: Numbers.IntResult)
    requires Numbers.IntOfFloatText(t) == r
    ensures CoerceValue(Some(t), IntegerColumn) == if r.IntValue? then IntCell(r.value) else Null
  {
    if t == "" {
      assert Numbers.ParseFloat(t) == None by {
        assert Strings.Strip(t) == "";
      }
    }
  }

  /** Date columns read a date written as "YYYY-MM-DD" back as that date. */
  lemma CoerceDates(d: Dates.Date)
    requires Dates.Valid(d)
    ensures CoerceValue(Some(Dates.FormatDate(d)), DateColumn) == DateCell(d)
  {
    Dates.ParseFormat(d);
    assert |Dates.FormatDate(d)| == 10;
  }

  /** A CSV line read against the header: each header name with its text, in header
      order, `None` where the line is short. A header name may repeat. */
  type CsvRow = seq<Field>

  /** A header name with its text. */
  type Field = (string, Option<string>)

  /** A record: the keyword arguments of the model's constructor. */
  type Record = map<string, Cell>

  /** The `filtered` dict of a row: the row's fields that name a column, coerced, a
      later field of the same name replacing an earlier one. */
  function Filtered(row: CsvRow, columns: map<string, ColumnType>): Record
    decreases |row|
  {
    if row == [] then map[]
    else
      var (k, v) := row[|row| - 1];
      var m := Filtered(row[..|row| - 1], columns);
      if k in columns then m[k := CoerceValue(v, columns[k])] else m
  }

  /** The last text the row gives the field `k`, if it has one. */
  function LastText(row: CsvRow, k: string): (r: Option<Option<string>>)
    ensures r.None? <==> forall i :: 0 <= i < |row| ==> row[i].0 != k
    ensures r.Some? ==> exists i :: 0 <= i < |row| && row[i] == (k, r.value)
    decreases |row|
  {
    if row == [] then None
    else if row[|row| - 1].0 == k then Some(row[|row| - 1].1)
    else
      var r := LastText(row[..|row| - 1], k);
      assert forall i :: 0 <= i < |row| - 1 ==> row[..|row| - 1][i] == row[i];
      r
  }

  /** The record holds exactly the row's fields that are columns, each coerced from
      the last text the row gives it. */
  lemma {:induction false} FilteredFields(row: CsvRow, columns: map<string, ColumnType>, k: string)
    ensures k in Filtered(row, columns) <==> k in columns && LastText(row, k).Some?
    ensures k in Filtered(row, columns) ==> Filtered(row, columns)[k] == CoerceValue(LastText(row, k).value, columns[k])
    decreases |row|
  {
    if row != [] {
      FilteredFields(row[..|row| - 1], columns, k);
    }
  }

  /** The name of a field. */
  function FieldName(field: Field): string {
    field.0
  }

  /** The header names of the row, each once, in order of first occurrence: the keys of
      the dict `csv.DictReader` builds, a repeated name keeping its first place. */
  function Names(row: CsvRow): seq<string> {
    Sorting.Distinct(Lists.Map(row, FieldName))
  }

  /** The dict's keys are distinct and are exactly the names the header has. */
  lemma NamesOfRow(row: CsvRow)
    ensures forall i, j :: 0 <= i < j < |Names(row)| ==> Names(row)[i] != Names(row)[j]
    ensures forall k :: k in Names(row) <==> LastText(row, k).Some?
  {
    var ks := Names(row);
    forall k
      ensures k in ks <==> LastText(row, k).Some?
    {
      if k in ks {
        var f :| f in row && FieldName(f) == k;
        var i :| 0 <= i < |row| && row[i] == f;
      }
      if LastText(row, k).Some? {
        var i :| 0 <= i < |row| && row[i] == (k, LastText(row, k).value);
        assert FieldName(row[i]) in Lists.Map(row, FieldName);
      }
    }
  }

  /** The last text the line gives the name `k`, `None` also when it gives none. */
  function TextOf(row: CsvRow, k: string): Option<string> {
    match LastText(row, k)
    case Some(t) => t
    case None => None
  }

  /** `row.items()` of the dict `csv.DictReader` yields: each header name once, with
      the last text the line gives it. */
  function Items(row: CsvRow): CsvRow {
    var ks := Names(row);
    seq(|ks|, i requires 0 <= i < |ks| => (ks[i], TextOf(row, ks[i])))
  }

  /** The dict holds each name once, and the text it holds for a name is the last one
      the line gives it, as `csv.DictReader` keeps it. */
  lemma ItemsLastText(row: CsvRow, k: string)
    ensures forall i, j :: 0 <= i < j < |Items(row)| ==> Items(row)[i].0 != Items(row)[j].0
    ensures LastText(Items(row), k) == LastText(row, k)
  {
    var items := Items(row);
    var ks := Names(row);
    NamesOfRow(row);
    var t := LastText(items, k);
    if LastText(row, k).Some? {
      var i :| 0 <= i < |ks| && ks[i] == k;
      assert items[i].0 == k;
      var j :| 0 <= j < |items| && items[j] == (k, t.value);
      assert j == i;
    }
  }

  /** The dict's record is the record of the line: a repeated name keeps its last
      text either way. */
  lemma ItemsFiltered(row: CsvRow, columns: map<string, ColumnType>)
    ensures Filtered(Items(row), columns) == Filtered(row, columns)
  {
    var a := Filtered(Items(row), columns);
    var b := Filtered(row, columns);
    forall k
      ensures k in a <==> k in b
      ensures k in a ==> a[k] == b[k]
    {
      ItemsLastText(row, k);
      FilteredFields(Items(row), columns, k);
      FilteredFields(row, columns, k);
    }
  }

  /** The dict has an item passing `p` exactly when some name of the line, with the
      last text the line gives it, passes `p`. */
  lemma ItemsAny(row: CsvRow, p: Field -> bool)
    ensures Lists.Any(Items(row), p) <==> AnyText(row, p)
  {
    var items := Items(row);
    var ks := Names(row);
    NamesOfRow(row);
    if Lists.Any(items, p) {
      var i :| 0 <= i < |items| && p(items[i]);
      assert ks[i] in ks;
      assert LastText(row, ks[i]).Some?;
    }
    if exists k :: LastText(row, k).Some? && p((k, LastText(row, k).value)) {
      var k :| LastText(row, k).Some? && p((k, LastText(row, k).value));
      var i :| 0 <= i < |ks| && ks[i] == k;
      assert p(items[i]);
    }
  }

  /** Whether some name of the line, with the last text the line gives it, passes `p`. */
  ghost predicate AnyText(row: CsvRow, p: Field -> bool) {
    exists k :: LastText(row, k).Some? && p((k, LastText(row, k).value))
  }

  /** Whether coercing a field raises: the field names a column, and the written
      coercion of its text to the column's type raises. */
  function RaisesIn(columns: map<string, ColumnType>): Field -> bool {
    (field: Field) => field.0 in columns && CoerceValueAsWritten(field.1, columns[field.0]).Raises?
  }

  /** Whether coercing some field of the dict `csv.DictReader` built from the row
      raises: a name that the line gives a text, with the last text it gives it. A
      text that a later field of the same name replaced is never coerced. */
  ghost predicate RowRaises(row: CsvRow, columns: map<string, ColumnType>) {
    AnyText(row, RaisesIn(columns))
  }

  /** Whether coercing some item raises. */
  predicate ItemRaises(items: CsvRow, columns: map<string, ColumnType>) {
    Lists.Any(items, RaisesIn(columns))
  }

  /** The `filtered` dict the written coercion builds from a list of items: `None`
      when a coercion raises, otherwise the record of `Filtered`. */
  function FilterItems(items: CsvRow, columns: map<string, ColumnType>): (r: Option<Record>)
    ensures r.None? <==> ItemRaises(items, columns)
    ensures r.Some? ==> r.value == Filtered(items, columns)
    decreases |items|
  {
    if items == [] then Some(map[])
    else
      var init := items[..|items| - 1];
      var prefix := FilterItems(init, columns);
      Lists.AnySnoc(items, RaisesIn(columns));
      var (k, v) := items[|items| - 1];
      if prefix.None? then None
      else if k !in columns then prefix
      else
        match CoerceValueAsWritten(v, columns[k])
        case Raises => None
        case Value(c) =>
          CoerceValueAgrees(v, columns[k]);
          Some(prefix.value[k := c])
  }

  /** The `filtered` dict of a row as the written coercion builds it from the dict
      `csv.DictReader` yields: `None` when a coercion raises, otherwise the record of
      `Filtered`. */
  function FilteredAsWritten(row: CsvRow, columns: map<string, ColumnType>): (r: Option<Record>)
    ensures r.None? <==> RowRaises(row, columns)
    ensures r.Some? ==> r.value == Filtered(row, columns)
  {
    ItemsAny(row, RaisesIn(columns));
    ItemsFiltered(row, columns);
    FilterItems(Items(row), columns)
  }

  /** The coercion of one row: the loop over `row.items()` of the dict
      `csv.DictReader` yields. */
  method FilterRow(row: CsvRow, columns: map<string, ColumnType>) returns (filtered: Option<Record>)
    ensures filtered == FilteredAsWritten(row, columns)
  {
    filtered := CoerceItems(Items(row), columns);
  }

  /** The inner loop over the items: `None` when a coercion raises. */
  method CoerceItems(items: CsvRow, columns: map<string, ColumnType>) returns (filtered: Option<Record>)
    ensures filtered == FilterItems(items, columns)
  {
    var fields: Record := map[];
    for i := 0 to |items|
      invariant FilterItems(items[..i], columns) == Some(fields)
    {
      assert items[..i + 1][..i] == items[..i] && items[..i + 1][i] == items[i];
      var (k, v) := items[i];
      if k in columns {
        var c := CoerceValueAsWritten(v, columns[k]);
        if c.Raises? {
          Lists.AnyPrefix(items, i + 1, RaisesIn(columns));
          return None;
        }
        fields := fields[k := c.cell];
      }
    }
    assert items[..|items|] == items;
    filtered := Some(fields);
  }

  /** A repeated header name keeps only the line's last text: a row that names only
      the column `k`, however often, loads with the value of the last text it gives
      `k` whenever that text coerces, whatever the earlier texts hold. With the header
      `id,id` and the line `inf,1`, the "inf" is never coerced and the row loads with
      id 1 (`IntegerCoerces` shows "1" is 1), while the line `inf` under the header
      `id` stops the run (`LastTextRaises`). */
  lemma DuplicateHeaderKeepsLast(row: CsvRow, columns: map<string, ColumnType>, k: string, t: Option<string>, c: Cell)
    requires forall i :: 0 <= i < |row| ==> row[i].0 == k
    requires LastText(row, k) == Some(t)
    requires k in columns && CoerceValueAsWritten(t, columns[k]) == Value(c)
    ensures FilteredAsWritten(row, columns) == Some(map[k := c])
  {
    AnyTextOneName(row, k, t, RaisesIn(columns));
    OneNameFiltered(row, columns, k, t, c);
  }

  /** In a row that names only `k`, some name passes `p` exactly when `k` with its last
      text does. */
  lemma AnyTextOneName(row: CsvRow, k: string, t: Option<string>, p: Field -> bool)
    requires forall i :: 0 <= i < |row| ==> row[i].0 == k
    requires LastText(row, k) == Some(t)
    ensures AnyText(row, p) <==> p((k, t))
  {
    if AnyText(row, p) {
      var j :| LastText(row, j).Some? && p((j, LastText(row, j).value));
      assert j == k;
    }
  }

  /** The record of a row that names only the column `k` holds the value of the last
      text alone. */
  lemma OneNameFiltered(row: CsvRow, columns: map<string, ColumnType>, k: string, t: Option<string>, c: Cell)
    requires forall i :: 0 <= i < |row| ==> row[i].0 == k
    requires LastText(row, k) == Some(t)
    requires k in columns && CoerceValueAsWritten(t, columns[k]) == Value(c)
    ensures Filtered(row, columns) == map[k := c]
  {
    CoerceValueAgrees(t, columns[k]);
    var f := Filtered(row, columns);
    forall j
      ensures j in f <==> j == k
      ensures j == k ==> f[j] == c
    {
      FilteredFields(row, columns, j);
    }
  }

  /** The text of an integer a double holds exactly coerces to that integer, as
      written and as intended. */
  lemma IntegerCoerces(n: int)
    requires -(Numbers.MaxExactInt as int) <= n <= Numbers.MaxExactInt
    ensures CoerceValueAsWritten(Some(Strings.IntToString(n)), IntegerColumn) == Value(IntCell(n))
    ensures CoerceValue(Some(Strings.IntToString(n)), IntegerColumn) == IntCell(n)
  {
    Numbers.IntOfFloatOfInt(n);
  }

  /** A row raises as soon as the last text it gives some column raises, whatever its
      other fields hold: the line `inf` under the header `id` of an integer column
      stops the run (`InfiniteIntegerRaises`), and so does the line `1,inf` under the
      header `id,id`. */
  lemma LastTextRaises(row: CsvRow, columns: map<string, ColumnType>, k: string, t: Option<string>)
    requires LastText(row, k) == Some(t)
    requires k in columns && CoerceValueAsWritten(t, columns[k]).Raises?
    ensures RowRaises(row, columns)
  {
    assert RaisesIn(columns)((k, t));
  }

  /** One record per row, in order. */
  function Records(rows: seq<CsvRow>, columns: map<string, ColumnType>): (r: seq<Record>)
    ensures |r| == |rows|
    ensures forall i :: 0 <= i < |rows| ==> r[i] == Filtered(rows[i], columns)
  {
    seq(|rows|, i requires 0 <= i < |rows| => Filtered(rows[i], columns))
  }

  /** Every field of every record is a column of the table. */
  lemma RecordsHaveOnlyColumns(rows: seq<CsvRow>, columns: map<string, ColumnType>)
    ensures forall i, k :: 0 <= i < |rows| && k in Records(rows, columns)[i] ==> k in columns
  {
    forall i, k | 0 <= i < |rows| && k in Records(rows, columns)[i]
      ensures k in columns
    {
      FilteredFields(rows[i], columns, k);
    }
  }

  /** What `_seed_table` did. `Aborted` is an exception from a coercion, which
      `init_db` answers by rolling the session back and re-raising (init_db.py:75-78). */
  datatype SeedOutcome = Skipped | Loaded(count: nat) | Aborted

  /** Whether `_seed_table` leaves the table alone: no CSV file, rows already in the
      table, or a CSV with no rows. */
  predicate SkipsTable(csv: Option<seq<CsvRow>>, existing: seq<Record>) {
    csv.None? || |existing| > 0 || csv.value == []
  }

  /** Whether some row of the CSV makes the written coercion raise. */
  ghost predicate SomeRowRaises(rows: seq<CsvRow>, columns: map<string, ColumnType>) {
    exists i :: 0 <= i < |rows| && RowRaises(rows[i], columns)
  }

  /** The session's view of the reference tables, by table name; a missing name is an
      empty table. */
  class Session {
    var tables: map<string, seq<Record>>

    constructor (tables0: map<string, seq<Record>>)
      ensures tables == tables0
    {
      tables := tables0;
    }

    function Rows(name: string): seq<Record>
      reads this
    {
      if name in tables then tables[name] else []
    }

    /** `_seed_table`: a skipped table is left as it was; a row whose coercion raises
        aborts the run, and the rollback leaves the tables as they were; otherwise every
        CSV row is added as one record, and the count is the number of rows. */
    method SeedTable(csv: Option<seq<CsvRow>>, name: string, columns: map<string, ColumnType>)
      returns (outcome: SeedOutcome)
      modifies this
      ensures SkipsTable(csv, old(Rows(name))) ==> outcome == Skipped && tables == old(tables)
      ensures !SkipsTable(csv, old(Rows(name))) && SomeRowRaises(csv.value, columns) ==>
        outcome == Aborted && tables == old(tables)
      ensures !SkipsTable(csv, old(Rows(name))) && !SomeRowRaises(csv.value, columns) ==>
        outcome == Loaded(|csv.value|) && tables == old(tables)[name := Records(csv.value, columns)]
    {
      if csv.None? {
        return Skipped;
      }
      var existingCount := |Rows(name)|;
      if existingCount > 0 {
        return Skipped;
      }
      var rows := csv.value;
      if rows == [] {
        return Skipped;
      }
      outcome := LoadRows(rows, name, columns);
      RecordsAsWrittenRaises(rows, columns);
    }

    /** The loop over the CSV rows: each row's record is added to the table in turn; a
        coercion that raises aborts, and the rollback restores the tables. */
    method LoadRows(rows: seq<CsvRow>, name: string, columns: map<string, ColumnType>)
      returns (outcome: SeedOutcome)
      modifies this
      ensures RecordsAsWritten(rows, columns).None? ==> outcome == Aborted && tables == old(tables)
      ensures RecordsAsWritten(rows, columns).Some? ==>
        outcome == Loaded(|rows|) && tables == old(tables)[name := RecordsAsWritten(rows, columns).value]
    {
      var before := tables;
      var added: seq<Record> := [];
      tables := before[name := added];
      for i := 0 to |rows|
        invariant |added| == i
        invariant forall j :: 0 <= j < i ==> FilteredAsWritten(rows[j], columns) == Some(added[j])
        invariant tables == before[name := added]
      {
        var filtered := FilterRow(rows[i], columns);
        if filtered.None? {
          assert RowsFiltered(rows, columns)[i].None?;
          tables := before;
          return Aborted;
        }
        added := added + [filtered.value];
        tables := before[name := added];
      }
      var all := RecordsAsWritten(rows, columns);
      assert all.value == added;
      outcome := Loaded(|added|);
    }
  }

  /** The `filtered` dict of each row, as the written coercion builds it. */
  function RowsFiltered(rows: seq<CsvRow>, columns: map<string, ColumnType>): seq<Option<Record>> {
    seq(|rows|, i requires 0 <= i < |rows| => FilteredAsWritten(rows[i], columns))
  }

  /** The records of all rows as the written coercion builds them: `None` as soon as
      one row raises, otherwise the records of `Records` (`RecordsAsWrittenRaises`
      says when it raises). */
  function RecordsAsWritten(rows: seq<CsvRow>, columns: map<string, ColumnType>): (r: Option<seq<Record>>)
    ensures r.Some? ==> r.value == Records(rows, columns)
  {
    AllSome(RowsFiltered(rows, columns))
  }

  /** The written loop raises exactly when some row raises. */
  lemma RecordsAsWrittenRaises(rows: seq<CsvRow>, columns: map<string, ColumnType>)
    ensures RecordsAsWritten(rows, columns).None? <==> SomeRowRaises(rows, columns)
  {
    var fs := RowsFiltered(rows, columns);
    if SomeRowRaises(rows, columns) {
      var i :| 0 <= i < |rows| && RowRaises(rows[i], columns);
      assert fs[i].None?;
    }
    if RecordsAsWritten(rows, columns).None? {
      var i :| 0 <= i < |fs| && fs[i].None?;
      assert RowRaises(rows[i], columns);
    }
  }

  /** Seeding twice loads a table at most once: after a load the table has rows, so
      the second run skips it. */
  lemma SecondSeedSkips(csv: Option<seq<CsvRow>>, existing: seq<Record>, columns: map<string, ColumnType>)
    requires !SkipsTable(csv, existing)
    ensures SkipsTable(csv, Records(csv.value, columns))
  {
  }
}
