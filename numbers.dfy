/** Python's text-to-number conversions as the pages use them: `int(text)`,
    `float(text)` and `int(float(text))`, over ASCII digits. A float is kept as the exact
    decimal it spells, except that a decimal too large for a double becomes an infinity,
    as IEEE 754 rounding to nearest makes it; rounding to 53 bits is not modelled. */
module Numbers {
  import opened Wrappers
  import Strings

  predicate IsDigit(c: char) {
    '0' <= c <= '9'
  }

  /** A run of decimal digits in which single underscores may separate digits, the form
      `int()` and `float()` accept for each digit group. */
  predicate Numeral(s: string)
    decreases |s|
  {
    && s != [] && IsDigit(s[0])
    && (|s| == 1 || Numeral(s[1..]) || (|s| >= 3 && s[1] == '_' && Numeral(s[2..])))
  }

  predicate AllDigits(s: string) {
    forall i :: 0 <= i < |s| ==> IsDigit(s[i])
  }

  lemma {:induction false} DigitsAreNumeral(s: string)
    requires s != [] && AllDigits(s)
    ensures Numeral(s)
  {
    if |s| > 1 {
      DigitsAreNumeral(s[1..]);
    }
  }

  lemma {:induction false} NumeralDigitsOnly(s: string)
    requires Numeral(s)
    ensures AllDigits(Strings.RemoveChar(s, '_'))
    decreases |s|
  {
    if |s| > 1 {
      if Numeral(s[1..]) {
        NumeralDigitsOnly(s[1..]);
      } else {
        NumeralDigitsOnly(s[2..]);
        assert Strings.RemoveChar(s[1..], '_') == Strings.RemoveChar(s[2..], '_');
      }
    }
  }

  lemma {:induction false} RemoveCharAbsent(s: string, c: char)
    requires c !in s
    ensures Strings.RemoveChar(s, c) == s
  {
    if s != [] {
      assert c !in s[1..];
      RemoveCharAbsent(s[1..], c);
    }
  }

  /** The digits of a numeral, underscores removed. */
  function NumeralDigits(s: string): (r: string)
    requires Numeral(s)
    ensures forall i :: 0 <= i < |r| ==> IsDigit(r[i])
  {
    NumeralDigitsOnly(s);
    Strings.RemoveChar(s, '_')
  }

  function NumeralValue(s: string): nat
    requires Numeral(s)
  {
    Strings.DigitsValue(NumeralDigits(s))
  }

  /** A leading sign, if any, and what follows it. */
  function SplitSign(t: string): (r: (bool, string))
    ensures t != [] && (t[0] == '+' || t[0] == '-') ==> r == (t[0] == '-', t[1..])
    ensures !(t != [] && (t[0] == '+' || t[0] == '-')) ==> r == (false, t)
  {
    if t != [] && (t[0] == '+' || t[0] == '-') then (t[0] == '-', t[1..]) else (false, t)
  }

  /** `int(text)`: surrounding whitespace, an optional sign, then a numeral; `None` where
      Python raises `ValueError`. */
  function ParseInt(s: string): (r: Option<int>)
    ensures r.Some? ==> Numeral(SplitSign(Strings.Strip(s)).1)
  {
    var (neg, body) := SplitSign(Strings.Strip(s));
    if Numeral(body) then
      var v: int := NumeralValue(body);
      Some(if neg then -v else v)
    else None
  }

  lemma StripUnspaced(s: string)
    requires s != [] && !Strings.IsSpace(s[0]) && !Strings.IsSpace(s[|s| - 1])
    ensures Strings.Strip(s) == s
  {
  }

  lemma NatNumeral(n: nat)
    ensures Numeral(Strings.NatToString(n))
    ensures NumeralValue(Strings.NatToString(n)) == n
  {
    var d := Strings.NatToString(n);
    DigitsAreNumeral(d);
    RemoveCharAbsent(d, '_');
    Strings.DigitsValueOfNatToString(n);
  }

  /** `int(str(n)) == n`. */
  lemma {:induction false} ParseIntOfIntToString(n: int)
    ensures ParseInt(Strings.IntToString(n)) == Some(n)
  {
    var neg := n < 0;
    var m: nat := if neg then -n else n;
    var d := Strings.NatToString(m);
    NatNumeral(m);
    assert IsDigit(d[|d| - 1]);
    assert Strings.IntToString(n) == (if neg then "-" else "") + d;
    ParseSignedNumeral(neg, d);
    assert (if neg then -(m as int) else m as int) == n;
  }

  lemma {:induction false} ParseSignedNumeral(neg: bool, d: string)
    requires Numeral(d) && IsDigit(d[|d| - 1])
    ensures ParseInt((if neg then "-" else "") + d)
      == Some(if neg then -(NumeralValue(d) as int) else NumeralValue(d) as int)
  {
    var t := (if neg then "-" else "") + d;
    assert t[|t| - 1] == d[|d| - 1];
    SignOf(t, neg, d, "");
    assert t + "" == t && d + "" == d;
    ParseIntUnspaced(t, neg, d);
  }

  lemma {:induction false} ParseIntUnspaced(t: string, neg: bool, body: string)
    requires t != [] && !Strings.IsSpace(t[0]) && !Strings.IsSpace(t[|t| - 1])
    requires SplitSign(t) == (neg, body)
    ensures Numeral(body) ==> ParseInt(t) == Some(if neg then -(NumeralValue(body) as int) else NumeralValue(body) as int)
  {
    StripUnspaced(t);
  }

  /** The value of a float: finite, an infinity, or not a number. */
  datatype FloatVal = Finite(r: real) | Infinity(negative: bool) | NaN

  /** 2^53: every integer of at most this size is a double. */
  const MaxExactInt: nat := 9007199254740992

  /** 2^1024 - 2^970, half way between the largest double and 2^1024: a decimal of at
      least this size rounds to an infinity. */
  const DoubleOverflow: real := 179769313486231580793728971405303415079934132710037826936173778980444968292764750946649017977587207096330286416692887910946555547851940402630657488671505820681908902000708383676273854845817711531764475730270069855571366959622842914819860834936475292719074168444365510704342711559699508093042880177904174497792.0

  /** The double a decimal value becomes: an infinity beyond the double range. */
  function ToDouble(r: real): (f: FloatVal)
    ensures f.Finite? <==> -DoubleOverflow < r < DoubleOverflow
    ensures f.Finite? ==> f.r == r
    ensures f.Infinity? ==> f.negative == (r < 0.0)
  {
    if r >= DoubleOverflow then Infinity(false)
    else if r <= -DoubleOverflow then Infinity(true)
    else Finite(r)
  }

  function Pow10(n: nat): (p: real)
    ensures p >= 1.0
  {
    if n == 0 then 1.0 else 10.0 * Pow10(n - 1)
  }

  /** The position of the first character satisfying `p`, or `|s|`. */
  function IndexWhere(s: string, p: char -> bool): (k: nat)
    ensures k <= |s|
    ensures k < |s| ==> p(s[k])
    ensures forall i :: 0 <= i < k ==> !p(s[i])
  {
    if s == [] then 0 else if p(s[0]) then 0 else 1 + IndexWhere(s[1..], p)
  }

  predicate IsPoint(c: char) {
    c == '.'
  }

  predicate IsExponentMarker(c: char) {
    c == 'e' || c == 'E'
  }

  /** A digit group that may be empty. */
  function GroupValue(s: string): Option<nat> {
    if s == [] then Some(0) else if Numeral(s) then Some(NumeralValue(s)) else None
  }

  /** The mantissa: digits with at most one point and at least one digit. */
  function MantissaValue(m: string): Option<real> {
    var k := IndexWhere(m, IsPoint);
    var whole := m[..k];
    var frac := if k < |m| then m[k + 1..] else [];
    if (whole == [] && frac == []) || '.' in frac then None
    else
      match (GroupValue(whole), GroupValue(frac))
      case (Some(w), Some(f)) =>
        var places := if frac == [] then 0 else |NumeralDigits(frac)|;
        Some(w as real + f as real / Pow10(places))
      case _ => None
  }

  /** A decimal literal: a mantissa and an optional signed exponent. */
  function DecimalValue(body: string): Option<real> {
    var k := IndexWhere(body, IsExponentMarker);
    var mant := MantissaValue(body[..k]);
    if mant.None? then None
    else if k == |body| then mant
    else
      var (eneg, edigits) := SplitSign(body[k + 1..]);
      if !Numeral(edigits) then None
      else Some(Scale(mant.value, eneg, NumeralValue(edigits)))
  }

  /** A mantissa times ten to a signed exponent. */
  function Scale(m: real, negative: bool, e: nat): real {
    if negative then m / Pow10(e) else m * Pow10(e)
  }

  /** `float(text)`: whitespace, a sign, then "inf", "infinity" or "nan" in any case, or
      a decimal literal; `None` where Python raises `ValueError`. */
  function ParseFloat(s: string): Option<FloatVal> {
    var signed := SplitSign(Strings.Strip(s));
    FloatOfBody(signed.0, signed.1)
  }

  /** The value of what follows the sign. */
  function FloatOfBody(neg: bool, body: string): Option<FloatVal> {
    var low := Strings.Lower(body);
    if low == "inf" || low == "infinity" then Some(Infinity(neg))
    else if low == "nan" then Some(NaN)
    else
      match DecimalValue(body)
      case Some(r) => Some(ToDouble(if neg then -r else r))
      case None => None
  }

  /** `int(x)` for a float: towards zero. */
  function Trunc(r: real): (n: int)
    ensures r >= 0.0 ==> 0.0 <= n as real <= r < n as real + 1.0
    ensures r < 0.0 ==> n as real - 1.0 < r <= n as real <= 0.0
  {
    if r >= 0.0 then r.Floor else -((-r).Floor)
  }

  /** What `int(float(text))` gives or raises. */
  datatype IntResult = IntValue(value: int) | ValueError | OverflowError

  function IntOfFloatText(s: string): (r: IntResult)
    ensures r.OverflowError? <==> ParseFloat(s).Some? && ParseFloat(s).value.Infinity?
    ensures r.IntValue? <==> ParseFloat(s).Some? && ParseFloat(s).value.Finite?
    ensures r.IntValue? ==> r.value == Trunc(ParseFloat(s).value.r)
  {
    match ParseFloat(s)
    case None => ValueError
    case Some(NaN) => ValueError
    case Some(Infinity(_)) => OverflowError
    case Some(Finite(r)) => IntValue(Trunc(r))
  }

  lemma {:induction false} NumeralChars(d: string)
    requires Numeral(d)
    ensures forall i :: 0 <= i < |d| ==> IsDigit(d[i]) || d[i] == '_'
    decreases |d|
  {
    if |d| > 1 {
      if Numeral(d[1..]) {
        NumeralChars(d[1..]);
        forall i | 1 <= i < |d|
          ensures IsDigit(d[i]) || d[i] == '_'
        {
          assert d[i] == d[1..][i - 1];
        }
      } else {
        NumeralChars(d[2..]);
        forall i | 2 <= i < |d|
          ensures IsDigit(d[i]) || d[i] == '_'
        {
          assert d[i] == d[2..][i - 2];
        }
      }
    }
  }

  /** A numeral has no exponent marker and no point. */
  lemma NumeralHasNoMarkers(d: string)
    requires Numeral(d)
    ensures IndexWhere(d, IsExponentMarker) == |d|
    ensures IndexWhere(d, IsPoint) == |d|
  {
    NumeralChars(d);
  }

  /** A numeral does not spell a special value. */
  lemma NumeralNotSpecial(d: string)
    requires Numeral(d)
    ensures Strings.Lower(d) != "inf" && Strings.Lower(d) != "infinity" && Strings.Lower(d) != "nan"
  {
    var low := Strings.Lower(d);
    assert low[0] == Strings.LowerChar(d[0]);
    assert IsDigit(low[0]);
  }

  /** A plain numeral is a decimal literal with its own value. */
  lemma DecimalOfNumeral(d: string)
    requires Numeral(d)
    ensures DecimalValue(d) == Some(NumeralValue(d) as real)
  {
    NumeralHasNoMarkers(d);
    assert d[..|d|] == d;
    assert MantissaValue(d) == Some(NumeralValue(d) as real + 0 as real / Pow10(0));
  }

  lemma FloatOfDecimalBody(neg: bool, body: string, r: real)
    requires body != [] && IsDigit(body[0])
    requires DecimalValue(body) == Some(r)
    ensures FloatOfBody(neg, body) == Some(ToDouble(if neg then -r else r))
  {
    var low := Strings.Lower(body);
    assert low[0] == Strings.LowerChar(body[0]);
    assert low[0] != 'i' && low[0] != 'n';
    assert low != "inf";
    assert low != "infinity";
    assert low != "nan";
  }

  /** `int(float(str(n))) == n` for every integer a double holds exactly, and an
      `OverflowError` for an integer beyond the double range. */
  lemma {:induction false} IntOfFloatOfInt(n: int)
    ensures -(MaxExactInt as int) <= n <= MaxExactInt ==> IntOfFloatText(Strings.IntToString(n)) == IntValue(n)
    ensures DoubleOverflow <= (if n < 0 then -n else n) as real ==>
      IntOfFloatText(Strings.IntToString(n)) == OverflowError
  {
    var m: nat := if n < 0 then -n else n;
    IntTextFloat(n, m);
    WholeNumberText(Strings.IntToString(n), n, m);
  }

  /** `float(str(n))` is the double of `n`. */
  lemma {:induction false} IntTextFloat(n: int, m: nat)
    requires m == if n < 0 then -n else n
    ensures ParseFloat(Strings.IntToString(n)) == Some(ToDouble(if n < 0 then -(m as real) else m as real))
  {
    var d := Strings.NatToString(m);
    assert d != [] && IsDigit(d[0]) && DecimalValue(d) == Some(m as real) by {
      NatNumeral(m);
      DecimalOfNumeral(d);
    }
    SignedDigitsFloat(Strings.IntToString(n), n < 0, d, m as real);
  }

  lemma SignedDigitsFloat(t: string, neg: bool, d: string, r: real)
    requires t == (if neg then "-" else "") + d
    requires d != [] && IsDigit(d[0]) && IsDigit(d[|d| - 1]) && DecimalValue(d) == Some(r)
    ensures ParseFloat(t) == Some(ToDouble(if neg then -r else r))
  {
    SignedDigitsText(t, neg, d);
    FloatOfDecimalBody(neg, d, r);
  }

  lemma SignedDigitsText(t: string, neg: bool, d: string)
    requires t == (if neg then "-" else "") + d
    requires d != [] && IsDigit(d[0]) && IsDigit(d[|d| - 1])
    ensures ParseFloat(t) == FloatOfBody(neg, d)
  {
    assert t[|t| - 1] == d[|d| - 1];
    SignOf(t, neg, d, "");
    assert t + "" == t && d + "" == d;
    SignedParse(t, neg, d);
  }

  /** The whole-number floats a CSV carries: `int(float(str(n) + ".0")) == n`, so "80.0"
      becomes 80, up to 2^53; beyond the double range it is an `OverflowError`. */
  lemma {:induction false} IntOfFloatPointZero(n: int)
    ensures -(MaxExactInt as int) <= n <= MaxExactInt ==>
      IntOfFloatText(Strings.IntToString(n) + ".0") == IntValue(n)
    ensures DoubleOverflow <= (if n < 0 then -n else n) as real ==>
      IntOfFloatText(Strings.IntToString(n) + ".0") == OverflowError
  {
    var m: nat := if n < 0 then -n else n;
    var i := Strings.IntToString(n);
    assert i == (if n < 0 then "-" else "") + Strings.NatToString(m);
    PointZeroFloat(i, n < 0, m);
    WholeNumberText(i + ".0", n, m);
  }

  /** A text whose float is the integer `n` converts back to `n` while a double holds
      it exactly, and overflows beyond the double range. */
  lemma {:induction false} WholeNumberText(t: string, n: int, m: nat)
    requires m == if n < 0 then -n else n
    requires ParseFloat(t) == Some(ToDouble(if n < 0 then -(m as real) else m as real))
    ensures -(MaxExactInt as int) <= n <= MaxExactInt ==> IntOfFloatText(t) == IntValue(n)
    ensures DoubleOverflow <= m as real ==> IntOfFloatText(t) == OverflowError
  {
    assert (if n < 0 then -(m as real) else m as real) == n as real;
  }

  /** "1e309" is a finite-looking text beyond the double range: `float()` gives an
      infinity, so `int()` of it overflows. */
  lemma ExponentOverflows()
    ensures IntOfFloatText("1e309") == OverflowError
  {
    SignedParse("1e309", false, "1e309");
    ExponentValue();
    Pow10Overflows();
    FloatOfDecimalBody(false, "1e309", Pow10(309));
  }

  lemma ExponentValue()
    ensures DecimalValue("1e309") == Some(Pow10(309))
  {
    NumeralChars309();
    assert "1e309" == "1e" + "309";
    OneExponent("309");
  }

  /** "1e" followed by a numeral is the power of ten it names. */
  lemma OneExponent(d: string)
    requires Numeral(d) && d[0] != '+' && d[0] != '-'
    ensures DecimalValue("1e" + d) == Some(Pow10(NumeralValue(d)))
  {
    var body := "1e" + d;
    OneBeforeMarker(body);
    MantissaOne();
    assert body[..1] == "1" && body[2..] == d;
    assert SplitSign(d) == (false, d);
    PositiveExponent(body, 1, 1.0, d, NumeralValue(d));
    assert Scale(1.0, false, NumeralValue(d)) == Pow10(NumeralValue(d));
  }

  /** A mantissa, a marker and an unsigned exponent. */
  lemma PositiveExponent(body: string, k: nat, m: real, e: string, v: nat)
    requires k < |body| && IndexWhere(body, IsExponentMarker) == k
    requires MantissaValue(body[..k]) == Some(m)
    requires Numeral(e) && SplitSign(body[k + 1..]) == (false, e) && NumeralValue(e) == v
    ensures DecimalValue(body) == Some(Scale(m, false, v))
  {
  }

  lemma OneBeforeMarker(body: string)
    requires |body| >= 2 && body[0] == '1' && body[1] == 'e'
    ensures IndexWhere(body, IsExponentMarker) == 1
  {
    assert body[1..][0] == 'e';
  }

  lemma MantissaOne()
    ensures MantissaValue("1") == Some(1.0)
  {
    assert IndexWhere("1", IsPoint) == 1 by {
      assert "1"[1..] == [];
    }
    assert "1"[..1] == "1";
    assert Numeral("1") && NumeralDigits("1") == "1";
    assert Strings.DigitsValue("1") == 1 by {
      assert "1"[..0] == [];
    }
  }

  lemma NumeralChars309()
    ensures Numeral("309") && NumeralValue("309") == 309
  {
    assert "309"[1..] == "09" && "09"[1..] == "9";
    assert Numeral("9") && Numeral("09") && Numeral("309");
    assert NumeralDigits("309") == "309" by {
      RemoveCharAbsent("309", '_');
    }
    assert "309"[..2] == "30" && "30"[..1] == "3" && "3"[..0] == "";
    assert Strings.DigitsValue("3") == 3;
    assert Strings.DigitsValue("30") == 30;
  }

  lemma {:induction false} Pow10Add(a: nat, b: nat)
    ensures Pow10(a + b) == Pow10(a) * Pow10(b)
  {
    if a > 0 {
      Pow10Add(a - 1, b);
    }
  }

  /** 10^309 is beyond the double range, by squaring up from 10^1. */
  lemma Pow10Overflows()
    ensures Pow10(309) >= DoubleOverflow
  {
    Pow10Squares();
    Pow10Step(256, 32, 10000000000000000000000000000000000000000000000000000000000000000000000000000000000000000000000000000000000000000000000000000000000000000000000000000000000000000000000000000000000000000000000000000000000000000000000000000000000000000000000000000000000000000.0, 100000000000000000000000000000000.0);
    Pow10Step(288, 16, 1000000000000000000000000000000000000000000000000000000000000000000000000000000000000000000000000000000000000000000000000000000000000000000000000000000000000000000000000000000000000000000000000000000000000000000000000000000000000000000000000000000000000000000000000000000000000000000000000.0, 10000000000000000.0);
    Pow10Step(304, 4, 10000000000000000000000000000000000000000000000000000000000000000000000000000000000000000000000000000000000000000000000000000000000000000000000000000000000000000000000000000000000000000000000000000000000000000000000000000000000000000000000000000000000000000000000000000000000000000000000000000000000000000.0, 10000.0);
    Pow10Step(308, 1, 100000000000000000000000000000000000000000000000000000000000000000000000000000000000000000000000000000000000000000000000000000000000000000000000000000000000000000000000000000000000000000000000000000000000000000000000000000000000000000000000000000000000000000000000000000000000000000000000000000000000000000000.0, 10.0);
  }

  lemma Pow10Squares()
    ensures Pow10(1) == 10.0
    ensures Pow10(4) == 10000.0
    ensures Pow10(16) == 10000000000000000.0
    ensures Pow10(32) == 100000000000000000000000000000000.0
    ensures Pow10(256) == 10000000000000000000000000000000000000000000000000000000000000000000000000000000000000000000000000000000000000000000000000000000000000000000000000000000000000000000000000000000000000000000000000000000000000000000000000000000000000000000000000000000000000000.0
  {
    assert Pow10(1) == 10.0;
    Pow10Step(1, 1, 10.0, 10.0);
    Pow10Step(2, 2, 100.0, 100.0);
    Pow10Step(4, 4, 10000.0, 10000.0);
    Pow10Step(8, 8, 100000000.0, 100000000.0);
    Pow10Step(16, 16, 10000000000000000.0, 10000000000000000.0);
    Pow10Step(32, 32, 100000000000000000000000000000000.0, 100000000000000000000000000000000.0);
    Pow10Step(64, 64, 10000000000000000000000000000000000000000000000000000000000000000.0, 10000000000000000000000000000000000000000000000000000000000000000.0);
    Pow10Step(128, 128, 100000000000000000000000000000000000000000000000000000000000000000000000000000000000000000000000000000000000000000000000000000000.0, 100000000000000000000000000000000000000000000000000000000000000000000000000000000000000000000000000000000000000000000000000000000.0);
  }

  lemma Pow10Step(a: nat, b: nat, x: real, y: real)
    requires Pow10(a) == x && Pow10(b) == y
    ensures Pow10(a + b) == x * y
  {
    Pow10Add(a, b);
  }


  /** `float("-"? + digits of m + ".0")` is plus or minus `m`. */
  lemma PointZeroFloat(i: string, neg: bool, m: nat)
    requires i == (if neg then "-" else "") + Strings.NatToString(m)
    ensures ParseFloat(i + ".0") == Some(ToDouble(if neg then -(m as real) else m as real))
  {
    var d := Strings.NatToString(m);
    assert DecimalValue(d + ".0") == Some(m as real) by {
      NatNumeral(m);
      PointZeroValue(d);
    }
    assert ParseFloat(i + ".0") == FloatOfBody(neg, d + ".0") by {
      SignedText(i, neg, d, ".0");
    }
    PointZeroFinish(i, neg, m, d);
  }

  lemma PointZeroFinish(i: string, neg: bool, m: nat, d: string)
    requires d == Strings.NatToString(m)
    requires DecimalValue(d + ".0") == Some(m as real)
    requires ParseFloat(i + ".0") == FloatOfBody(neg, d + ".0")
    ensures ParseFloat(i + ".0") == Some(ToDouble(if neg then -(m as real) else m as real))
  {
    PointZeroDecimal(i, neg, d, m as real);
  }

  lemma PointZeroDecimal(i: string, neg: bool, d: string, r: real)
    requires ParseFloat(i + ".0") == FloatOfBody(neg, d + ".0")
    requires d != [] && IsDigit(d[0])
    requires DecimalValue(d + ".0") == Some(r)
    ensures ParseFloat(i + ".0") == Some(ToDouble(if neg then -r else r))
  {
    assert (d + ".0")[0] == d[0];
    DecimalText(i + ".0", neg, d + ".0", r);
  }

  /** Once the sign is read, a decimal literal that is not a special word has its value. */
  lemma DecimalText(t: string, neg: bool, body: string, r: real)
    requires ParseFloat(t) == FloatOfBody(neg, body)
    requires body != [] && IsDigit(body[0])
    requires DecimalValue(body) == Some(r)
    ensures ParseFloat(t) == Some(ToDouble(if neg then -r else r))
  {
    FloatOfDecimalBody(neg, body, r);
  }

  /** `float()` of text with no surrounding whitespace reads the sign, then the rest. */
  lemma ParseUnspaced(t: string)
    requires t != [] && !Strings.IsSpace(t[0]) && !Strings.IsSpace(t[|t| - 1])
    ensures ParseFloat(t) == FloatOfBody(SplitSign(t).0, SplitSign(t).1)
  {
    StripUnspaced(t);
  }

  lemma SignedParse(t: string, neg: bool, body: string)
    requires t != [] && !Strings.IsSpace(t[0]) && !Strings.IsSpace(t[|t| - 1])
    requires SplitSign(t) == (neg, body)
    ensures ParseFloat(t) == FloatOfBody(neg, body)
  {
    ParseUnspaced(t);
  }

  /** A minus sign (or none) in front of digits, then any suffix `z`. */
  lemma SignOf(i: string, neg: bool, d: string, z: string)
    requires d != [] && IsDigit(d[0])
    requires i == (if neg then "-" else "") + d
    ensures SplitSign(i + z) == (neg, d + z)
  {
    var t := i + z;
    if neg {
      assert t[1..] == d + z;
    } else {
      assert t == d + z;
    }
  }

  /** `float(str(n) + z)` reads the sign of `n`, then the digits of `|n|` followed by `z`. */
  lemma SignedText(i: string, neg: bool, d: string, z: string)
    requires d != [] && IsDigit(d[0]) && z != [] && IsDigit(z[|z| - 1])
    requires i == (if neg then "-" else "") + d
    ensures ParseFloat(i + z) == FloatOfBody(neg, d + z)
  {
    var t := i + z;
    assert t[0] == '-' || IsDigit(t[0]);
    assert t[|t| - 1] == z[|z| - 1];
    SignOf(i, neg, d, z);
    SignedParse(t, neg, d + z);
  }

  lemma PointZeroValue(d: string)
    requires Numeral(d)
    ensures DecimalValue(d + ".0") == Some(NumeralValue(d) as real)
  {
    var body := d + ".0";
    NumeralHasNoMarkers(d);
    IndexWhereAppend(d, ".0", IsExponentMarker);
    assert IndexWhere(".0", IsExponentMarker) == 2 by {
      assert ".0"[1..] == "0" && "0"[1..] == "";
    }
    assert body[..|body|] == body;
    PointZeroMantissa(d);
  }

  lemma PointZeroMantissa(d: string)
    requires Numeral(d)
    ensures MantissaValue(d + ".0") == Some(NumeralValue(d) as real)
  {
    NumeralHasNoMarkers(d);
    IndexWhereAppend(d, ".0", IsPoint);
    assert GroupValue(d) == Some(NumeralValue(d));
    MantissaPointZero(d + ".0", d, NumeralValue(d));
  }

  lemma MantissaPointZero(m: string, d: string, v: nat)
    requires m == d + ".0" && d != []
    requires IndexWhere(m, IsPoint) == |d|
    requires GroupValue(d) == Some(v)
    ensures MantissaValue(m) == Some(v as real)
  {
    assert m[..|d|] == d;
    assert m[|d| + 1..] == "0";
    ZeroGroup();
  }

  lemma ZeroGroup()
    ensures '.' !in "0"
    ensures GroupValue("0") == Some(0) && |NumeralDigits("0")| == 1
  {
    assert Numeral("0");
    assert NumeralDigits("0") == "0";
    assert Strings.DigitsValue("0") == 0;
  }

  lemma {:induction false} IndexWhereAppend(a: string, b: string, p: char -> bool)
    requires IndexWhere(a, p) == |a|
    ensures IndexWhere(a + b, p) == |a| + IndexWhere(b, p)
  {
    if a != [] {
      assert (a + b)[1..] == a[1..] + b;
      IndexWhereAppend(a[1..], b, p);
    } else {
      assert a + b == b;
    }
  }

  lemma SpecialText(w: string)
    requires w == "inf" || w == "nan"
    ensures ParseFloat(w) == Some(if w == "inf" then Infinity(false) else NaN)
  {
    StripUnspaced(w);
    assert SplitSign(w) == (false, w);
    assert Strings.Lower(w) == w;
  }

  /** Infinity overflows the integer conversion, and "nan" or junk is a value error. */
  lemma SpecialTexts()
    ensures IntOfFloatText("inf") == OverflowError
    ensures IntOfFloatText("nan") == ValueError
  {
    SpecialText("inf");
    SpecialText("nan");
  }
}
