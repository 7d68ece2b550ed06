/** Calendar dates as Python's `datetime.date` has them (years 1 to 9999, the
    proleptic Gregorian calendar), `strptime(text, "%Y-%m-%d")`, the zero-padded
    `str(date)` text, ordering, and stepping back by whole days. */
module Dates {
  import opened Wrappers
  import Numbers

  datatype Date = Date(year: int, month: int, day: int)

  predicate IsLeap(y: int) {
    y % 4 == 0 && (y % 100 != 0 || y % 400 == 0)
  }

  function DaysInMonth(y: int, m: int): (n: int)
    requires 1 <= m <= 12
    ensures 28 <= n <= 31
    ensures n == 29 <==> m == 2 && IsLeap(y)
  {
    if m == 2 then (if IsLeap(y) then 29 else 28)
    else if m == 4 || m == 6 || m == 9 || m == 11 then 30
    else 31
  }

  /** What `datetime.date(year, month, day)` accepts without raising `ValueError`. */
  predicate Valid(d: Date) {
    1 <= d.year <= 9999 && 1 <= d.month <= 12 && 1 <= d.day <= DaysInMonth(d.year, d.month)
  }

  const FirstDate := Date(1, 1, 1)

  /** `datetime.date(year, 1, 1)`. */
  function NewYear(year: int): (d: Date)
    requires 1 <= year <= 9999
    ensures Valid(d)
  {
    Date(year, 1, 1)
  }

  /** `a < b` on dates: chronological order. */
  predicate Before(a: Date, b: Date) {
    a.year < b.year || (a.year == b.year && (a.month < b.month || (a.month == b.month && a.day < b.day)))
  }

  predicate NotAfter(a: Date, b: Date) {
    a == b || Before(a, b)
  }

  lemma BeforeTotal(a: Date, b: Date)
    ensures a == b || Before(a, b) || Before(b, a)
    ensures !(Before(a, b) && Before(b, a))
  {
  }

  lemma BeforeTransitive(a: Date, b: Date, c: Date)
    requires Before(a, b) && Before(b, c)
    ensures Before(a, c)
  {
  }

  /** `max(a, b)`. */
  function Max(a: Date, b: Date): (r: Date)
    ensures r == a || r == b
    ensures NotAfter(a, r) && NotAfter(b, r)
  {
    if Before(a, b) then b else a
  }

  /** `min(a, b)`. */
  function Min(a: Date, b: Date): (r: Date)
    ensures r == a || r == b
    ensures NotAfter(r, a) && NotAfter(r, b)
  {
    if Before(b, a) then b else a
  }

  /** The day before `d`. */
  function PrevDay(d: Date): (r: Date)
    requires Valid(d) && d != FirstDate
    ensures Valid(r) && Before(r, d)
  {
    if d.day > 1 then Date(d.year, d.month, d.day - 1)
    else if d.month > 1 then Date(d.year, d.month - 1, DaysInMonth(d.year, d.month - 1))
    else Date(d.year - 1, 12, 31)
  }

  /** No valid date lies strictly between the day before `d` and `d`. */
  lemma PrevDayImmediate(d: Date, e: Date)
    requires Valid(d) && d != FirstDate && Valid(e)
    ensures !(Before(PrevDay(d), e) && Before(e, d))
  {
  }

  /** `d` can be moved back `n` days without leaving the calendar (Python raises
      `OverflowError` below year 1). */
  predicate CanGoBack(d: Date, n: nat)
    decreases n
  {
    Valid(d) && (n == 0 || (d != FirstDate && CanGoBack(PrevDay(d), n - 1)))
  }

  /** `d - timedelta(days=n)`. */
  function DaysBack(d: Date, n: nat): (r: Date)
    requires CanGoBack(d, n)
    ensures Valid(r)
    ensures n > 0 ==> Before(r, d)
    decreases n
  {
    if n == 0 then d
    else DaysBack(PrevDay(d), n - 1)
  }

  // ---- strptime(text, "%Y-%m-%d") ----

  function DigitVal(c: char): int
    requires Numbers.IsDigit(c)
  {
    c as int - '0' as int
  }

  /** A field matched by one alternative of a directive's pattern: its value and width. */
  datatype Piece = Piece(value: int, width: nat)

  /** The alternatives of `%m` (`1[0-2]|0[1-9]|[1-9]`) that match at `i`, in pattern order. */
  function MonthAlternatives(s: string, i: nat): (r: seq<Piece>)
    ensures forall k :: 0 <= k < |r| ==> 1 <= r[k].value <= 12 && 1 <= r[k].width <= 2
  {
    (if i + 1 < |s| && s[i] == '1' && '0' <= s[i + 1] <= '2' then [Piece(10 + DigitVal(s[i + 1]), 2)] else [])
    + (if i + 1 < |s| && s[i] == '0' && '1' <= s[i + 1] <= '9' then [Piece(DigitVal(s[i + 1]), 2)] else [])
    + (if i < |s| && '1' <= s[i] <= '9' then [Piece(DigitVal(s[i]), 1)] else [])
  }

  /** The first alternative of `%d` (`3[01]|[12]\d|0[1-9]|[1-9]| [1-9]`) that matches at
      `i`; nothing follows `%d` in the pattern, so the first match is final. */
  function DayMatch(s: string, i: nat): (r: Option<Piece>)
    ensures r.Some? ==> 1 <= r.value.value <= 31 && 1 <= r.value.width <= 2 && i + r.value.width <= |s|
  {
    if i + 1 < |s| && s[i] == '3' && '0' <= s[i + 1] <= '1' then Some(Piece(30 + DigitVal(s[i + 1]), 2))
    else if i + 1 < |s| && '1' <= s[i] <= '2' && Numbers.IsDigit(s[i + 1]) then Some(Piece(10 * DigitVal(s[i]) + DigitVal(s[i + 1]), 2))
    else if i + 1 < |s| && s[i] == '0' && '1' <= s[i + 1] <= '9' then Some(Piece(DigitVal(s[i + 1]), 2))
    else if i < |s| && '1' <= s[i] <= '9' then Some(Piece(DigitVal(s[i]), 1))
    else if i + 1 < |s| && s[i] == ' ' && '1' <= s[i + 1] <= '9' then Some(Piece(DigitVal(s[i + 1]), 2))
    else None
  }

  /** The month, the day and the end of the match: each month alternative is tried in
      turn and the regular expression backtracks to the next one when "-" and a day do
      not follow. */
  function MatchMonthDay(s: string, ms: seq<Piece>, i: nat): (r: Option<(int, int, nat)>)
    requires forall k :: 0 <= k < |ms| ==> 1 <= ms[k].value <= 12
    ensures r.Some? ==> 1 <= r.value.0 <= 12 && 1 <= r.value.1 <= 31
    decreases |ms|
  {
    if ms == [] then None
    else
      var j := i + ms[0].width;
      if j < |s| && s[j] == '-' && DayMatch(s, j + 1).Some? then
        var day := DayMatch(s, j + 1).value;
        Some((ms[0].value, day.value, j + 1 + day.width))
      else MatchMonthDay(s, ms[1..], i)
  }

  /** The four ASCII digits of `%Y` at the start. */
  predicate YearDigits(s: string) {
    |s| >= 4 && Numbers.IsDigit(s[0]) && Numbers.IsDigit(s[1]) && Numbers.IsDigit(s[2]) && Numbers.IsDigit(s[3])
  }

  function YearValue(s: string): int
    requires YearDigits(s)
  {
    1000 * DigitVal(s[0]) + 100 * DigitVal(s[1]) + 10 * DigitVal(s[2]) + DigitVal(s[3])
  }

  /** `datetime.strptime(s, "%Y-%m-%d").date()`, or `None` where it raises `ValueError`:
      no match, text left over after the day ("unconverted data remains"), or a day
      the month does not have. */
  function ParseDate(s: string): (r: Option<Date>)
    ensures r.Some? ==> Valid(r.value)
  {
    if !YearDigits(s) || |s| < 5 || s[4] != '-' then None
    else
      match MatchMonthDay(s, MonthAlternatives(s, 5), 5)
      case None => None
      case Some((m, d, end)) =>
        var date := Date(YearValue(s), m, d);
        if end == |s| && Valid(date) then Some(date) else None
  }

  // ---- str(date) ----

  function Digit(n: int): (c: char)
    requires 0 <= n < 10
    ensures Numbers.IsDigit(c) && DigitVal(c) == n
  {
    ('0' as int + n) as char
  }

  /** `n` zero-padded to two digits. */
  function Pad2(n: int): (r: string)
    requires 0 <= n < 100
    ensures |r| == 2 && Numbers.IsDigit(r[0]) && Numbers.IsDigit(r[1])
    ensures 10 * DigitVal(r[0]) + DigitVal(r[1]) == n
  {
    [Digit(n / 10), Digit(n % 10)]
  }

  /** `n` zero-padded to four digits. */
  function Pad4(n: int): (r: string)
    requires 0 <= n < 10000
    ensures YearDigits(r) && |r| == 4 && YearValue(r) == n
  {
    var hi, lo := n / 100, n % 100;
    assert n == 100 * hi + lo;
    Pad2(hi) + Pad2(lo)
  }

  /** `str(d)`, i.e. `d.isoformat()`: "YYYY-MM-DD". */
  function FormatDate(d: Date): (r: string)
    requires Valid(d)
    ensures |r| == 10 && r[4] == '-' && r[7] == '-'
  {
    Pad4(d.year) + "-" + Pad2(d.month) + "-" + Pad2(d.day)
  }

  /** Text shaped as the `full-date` of section 5.6 of RFC 3339: four digits, "-", two
      digits, "-", two digits. */
  predicate FullDateShape(s: string) {
    |s| == 10 && YearDigits(s) && s[4] == '-' && s[7] == '-'
    && Numbers.IsDigit(s[5]) && Numbers.IsDigit(s[6]) && Numbers.IsDigit(s[8]) && Numbers.IsDigit(s[9])
  }

  /** The date a `full-date` text names, valid or not. */
  function FullDateFields(s: string): Date
    requires FullDateShape(s)
  {
    Date(YearValue(s), 10 * DigitVal(s[5]) + DigitVal(s[6]), 10 * DigitVal(s[8]) + DigitVal(s[9]))
  }

  /** The two-digit month field of a `full-date` is read whole or the match fails. */
  lemma MonthOfFullDate(s: string)
    requires FullDateShape(s)
    ensures var m := FullDateFields(s).month;
      1 <= m <= 12 ==> MonthAlternatives(s, 5) != [] && MonthAlternatives(s, 5)[0] == Piece(m, 2)
    ensures forall k :: 0 <= k < |MonthAlternatives(s, 5)| && MonthAlternatives(s, 5)[k].width == 1 ==>
      s[6] != '-'
    ensures var m := FullDateFields(s).month;
      !(1 <= m <= 12) ==> forall k :: 0 <= k < |MonthAlternatives(s, 5)| ==> MonthAlternatives(s, 5)[k].width == 1
  {
  }

  /** The two-digit day field of a `full-date` is read whole when it is a day number; any
      other value leaves text over or does not match. */
  lemma DayOfFullDate(s: string)
    requires FullDateShape(s)
    ensures var d := FullDateFields(s).day;
      1 <= d <= 31 ==> DayMatch(s, 8) == Some(Piece(d, 2))
    ensures var d := FullDateFields(s).day;
      !(1 <= d <= 31) ==> DayMatch(s, 8).None? || DayMatch(s, 8).value.width == 1
  {
  }

  /** `strptime` accepts a `full-date` exactly when it names a real date, and then
      returns that date. */
  lemma {:induction false} ParseFullDate(s: string)
    requires FullDateShape(s)
    ensures ParseDate(s) == if Valid(FullDateFields(s)) then Some(FullDateFields(s)) else None
  {
    var f := FullDateFields(s);
    var ms := MonthAlternatives(s, 5);
    MonthOfFullDate(s);
    DayOfFullDate(s);
    if 1 <= f.month <= 12 {
      assert MatchMonthDay(s, ms, 5) == if 1 <= f.day <= 31 then Some((f.month, f.day, 10)) else if DayMatch(s, 8).Some? then Some((f.month, DayMatch(s, 8).value.value, 9)) else MatchMonthDay(s, ms[1..], 5);
      if !(1 <= f.day <= 31) && DayMatch(s, 8).None? {
        NoShortMonth(s, ms[1..]);
      }
    } else {
      NoShortMonth(s, ms);
    }
  }

  /** One-digit month alternatives never match in a `full-date`: a digit, not "-",
      follows them. */
  lemma {:induction false} NoShortMonth(s: string, ms: seq<Piece>)
    requires FullDateShape(s)
    requires forall k :: 0 <= k < |ms| ==> 1 <= ms[k].value <= 12 && ms[k].width == 1
    ensures MatchMonthDay(s, ms, 5).None?
    decreases |ms|
  {
    if ms != [] {
      NoShortMonth(s, ms[1..]);
    }
  }

  /** The written form of a date is a `full-date` naming that same date. */
  lemma FormatFields(d: Date)
    requires Valid(d)
    ensures FullDateShape(FormatDate(d)) && FullDateFields(FormatDate(d)) == d
  {
    var s := FormatDate(d);
    assert s[..4] == Pad4(d.year) && s[5..7] == Pad2(d.month) && s[8..] == Pad2(d.day);
    assert s[0] == Pad4(d.year)[0] && s[1] == Pad4(d.year)[1] && s[2] == Pad4(d.year)[2] && s[3] == Pad4(d.year)[3];
    assert s[5] == Pad2(d.month)[0] && s[6] == Pad2(d.month)[1];
    assert s[8] == Pad2(d.day)[0] && s[9] == Pad2(d.day)[1];
  }

  /** Reading back the written form of a date gives the date. */
  lemma ParseFormat(d: Date)
    requires Valid(d)
    ensures ParseDate(FormatDate(d)) == Some(d)
  {
    FormatFields(d);
    ParseFullDate(FormatDate(d));
  }

  /** A `full-date` that parses is written back unchanged. */
  lemma FormatParse(s: string)
    requires FullDateShape(s) && ParseDate(s).Some?
    ensures FormatDate(ParseDate(s).value) == s
  {
    ParseFullDate(s);
    var d := ParseDate(s).value;
    FormatFields(d);
    var t := FormatDate(d);
    assert FullDateFields(t) == FullDateFields(s);
    assert DigitVal(t[0]) == DigitVal(s[0]) by { YearDigitsAgree(t, s); }
    assert forall i :: 0 <= i < 10 ==> t[i] == s[i] by {
      YearDigitsAgree(t, s);
      TwoDigitsAgree(t[5], t[6], s[5], s[6]);
      TwoDigitsAgree(t[8], t[9], s[8], s[9]);
    }
  }

  lemma TwoDigitsAgree(a: char, b: char, c: char, d: char)
    requires Numbers.IsDigit(a) && Numbers.IsDigit(b) && Numbers.IsDigit(c) && Numbers.IsDigit(d)
    requires 10 * DigitVal(a) + DigitVal(b) == 10 * DigitVal(c) + DigitVal(d)
    ensures a == c && b == d
  {
  }

  lemma YearDigitsAgree(t: string, s: string)
    requires YearDigits(t) && YearDigits(s) && YearValue(t) == YearValue(s)
    ensures t[0] == s[0] && t[1] == s[1] && t[2] == s[2] && t[3] == s[3]
  {
    var th, tl := 10 * DigitVal(t[0]) + DigitVal(t[1]), 10 * DigitVal(t[2]) + DigitVal(t[3]);
    var sh, sl := 10 * DigitVal(s[0]) + DigitVal(s[1]), 10 * DigitVal(s[2]) + DigitVal(s[3]);
    assert 100 * th + tl == 100 * sh + sl;
    assert th == sh && tl == sl;
    TwoDigitsAgree(t[0], t[1], s[0], s[1]);
    TwoDigitsAgree(t[2], t[3], s[2], s[3]);
  }
}
