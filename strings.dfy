/** The parts of Python's `str` behaviour the model relies on: strip, split, join,
    replace, case mapping (ASCII letters only), substring tests and `str(int)`. */
module Strings {

  /** Python's `str.isspace()`: the characters `str.strip()` removes by default. */
  predicate IsSpace(c: char) {
    c == ' ' || c == '\t' || c == '\n' || c == '\r' || c == '\U{B}' || c == '\U{C}'
    || ('\U{1C}' <= c <= '\U{1F}') || c == '\U{85}' || c == '\U{A0}' || c == '\U{1680}'
    || ('\U{2000}' <= c <= '\U{200A}') || c == '\U{2028}' || c == '\U{2029}' || c == '\U{202F}'
    || c == '\U{205F}' || c == '\U{3000}'
  }

  /** Drops the longest prefix whose characters satisfy `p`. */
  function StripLeftWhere(s: string, p: char -> bool): (r: string)
    ensures |r| <= |s| && r == s[|s| - |r|..]
    ensures r != [] ==> !p(r[0])
    ensures forall i :: 0 <= i < |s| - |r| ==> p(s[i])
    ensures forall c :: c in r ==> c in s
  {
    if s != [] && p(s[0]) then StripLeftWhere(s[1..], p) else s
  }

  /** Drops the longest suffix whose characters satisfy `p`. */
  function StripRightWhere(s: string, p: char -> bool): (r: string)
    ensures |r| <= |s| && r == s[..|r|]
    ensures r != [] ==> !p(r[|r| - 1])
    ensures forall i :: |r| <= i < |s| ==> p(s[i])
    ensures forall c :: c in r ==> c in s
  {
    if s != [] && p(s[|s| - 1]) then StripRightWhere(s[..|s| - 1], p) else s
  }

  /** `s.strip(chars)` for a predicate on characters. */
  function StripWhere(s: string, p: char -> bool): (r: string)
    ensures forall c :: c in r ==> c in s
  {
    StripRightWhere(StripLeftWhere(s, p), p)
  }

  /** Stripping keeps every character that is not stripped. */
  lemma StripWhereKeeps(s: string, p: char -> bool)
    ensures forall c :: c in s && !p(c) ==> c in StripWhere(s, p)
  {
    var l := StripLeftWhere(s, p);
    forall c | c in s && !p(c)
      ensures c in StripWhere(s, p)
    {
      var i :| 0 <= i < |s| && s[i] == c;
      assert l[i - (|s| - |l|)] == c;
    }
  }

  /** Python's `s.strip()`. */
  function Strip(s: string): (r: string)
    ensures r != [] ==> !IsSpace(r[0]) && !IsSpace(r[|r| - 1])
    ensures forall c :: c in r ==> c in s
  {
    StripWhere(s, IsSpace)
  }

  /** Python's `s.strip(chars)` with an explicit character set. */
  function StripChars(s: string, chars: set<char>): (r: string)
    ensures r != [] ==> r[0] !in chars && r[|r| - 1] !in chars
    ensures forall c :: c in r ==> c in s
  {
    StripWhere(s, InSet(chars))
  }

  /** Membership in `chars`, as a predicate. */
  function InSet(chars: set<char>): char -> bool {
    c => c in chars
  }

  /** `s.strip()` keeps every character that is not whitespace. */
  lemma StripKeeps(s: string)
    ensures forall c :: c in s && !IsSpace(c) ==> c in Strip(s)
  {
    StripWhereKeeps(s, IsSpace);
  }

  /** `s.strip(chars)` keeps every character outside `chars`. */
  lemma StripCharsKeeps(s: string, chars: set<char>)
    ensures forall c :: c in s && c !in chars ==> c in StripChars(s, chars)
  {
    StripWhereKeeps(s, InSet(chars));
  }

  /** Stripping twice is stripping once. */
  lemma StripIdempotent(s: string)
    ensures Strip(Strip(s)) == Strip(s)
  {
    var r := Strip(s);
    if r != [] {
      assert StripLeftWhere(r, IsSpace) == r;
      assert StripRightWhere(r, IsSpace) == r;
    }
  }

  /** True when `s` is empty or whitespace only, i.e. `s.strip() == ""`. */
  predicate IsBlank(s: string) {
    forall i :: 0 <= i < |s| ==> IsSpace(s[i])
  }

  lemma {:induction false} StripEmptyIffBlank(s: string)
    ensures Strip(s) == [] <==> IsBlank(s)
  {
    var l := StripLeftWhere(s, IsSpace);
    if l == [] {
      assert forall i :: 0 <= i < |s| ==> IsSpace(s[i]);
    } else {
      assert !IsSpace(l[0]);
      assert StripRightWhere(l, IsSpace) != [];
      assert s[|s| - |l|] == l[0];
    }
  }

  /** `s.startswith(prefix)`. */
  predicate StartsWith(s: string, prefix: string) {
    prefix <= s
  }

  /** `sub in s` for strings. */
  predicate Contains(s: string, sub: string)
    decreases |s|
  {
    sub <= s || (s != [] && Contains(s[1..], sub))
  }

  /** `sub` occurs in `s` starting at index `i`. */
  predicate OccursAt(s: string, sub: string, i: int) {
    0 <= i <= |s| - |sub| && s[i..i + |sub|] == sub
  }

  lemma {:induction false} ContainsAt(s: string, sub: string)
    ensures Contains(s, sub) <==> exists i :: OccursAt(s, sub, i)
    decreases |s|
  {
    if sub <= s {
      assert OccursAt(s, sub, 0);
    } else if s == [] {
    } else {
      ContainsAt(s[1..], sub);
      if exists i :: OccursAt(s, sub, i) {
        var i :| OccursAt(s, sub, i);
        assert i != 0;
        assert OccursAt(s[1..], sub, i - 1);
      }
      if Contains(s[1..], sub) {
        var j :| OccursAt(s[1..], sub, j);
        assert OccursAt(s, sub, j + 1);
      }
    }
  }

  function LowerChar(c: char): char {
    if 'A' <= c <= 'Z' then (c as int + 32) as char else c
  }

  function UpperChar(c: char): char {
    if 'a' <= c <= 'z' then (c as int - 32) as char else c
  }

  /** `s.lower()`, for ASCII letters. */
  function Lower(s: string): (r: string)
    ensures |r| == |s|
    ensures forall i :: 0 <= i < |s| ==> r[i] == LowerChar(s[i])
  {
    seq(|s|, i requires 0 <= i < |s| => LowerChar(s[i]))
  }

  /** `s.upper()`, for ASCII letters. */
  function Upper(s: string): (r: string)
    ensures |r| == |s|
    ensures forall i :: 0 <= i < |s| ==> r[i] == UpperChar(s[i])
  {
    seq(|s|, i requires 0 <= i < |s| => UpperChar(s[i]))
  }

  /** `s.replace(c, "")`. */
  function RemoveChar(s: string, c: char): (r: string)
    ensures c !in r
    ensures |r| <= |s|
  {
    if s == [] then [] else (if s[0] == c then [] else [s[0]]) + RemoveChar(s[1..], c)
  }

  /** Removing a character adds none and keeps every other. */
  lemma {:induction false} RemoveCharKeeps(s: string, c: char)
    ensures forall x :: x in RemoveChar(s, c) ==> x in s
    ensures forall x :: x in s && x != c ==> x in RemoveChar(s, c)
  {
    if s != [] {
      RemoveCharKeeps(s[1..], c);
      assert s == [s[0]] + s[1..];
      forall x | x in s && x != c
        ensures x in RemoveChar(s, c)
      {
        if x != s[0] {
          assert x in s[1..];
        }
      }
    }
  }

  /** `s.replace(a, b)` for single characters. */
  function ReplaceChar(s: string, a: char, b: char): (r: string)
    ensures |r| == |s|
    ensures forall i :: 0 <= i < |s| ==> r[i] == if s[i] == a then b else s[i]
  {
    seq(|s|, i requires 0 <= i < |s| => if s[i] == a then b else s[i])
  }

  /** `s * n`: empty when `n <= 0`. */
  function Repeat(s: string, n: int): (r: string)
    ensures n <= 0 ==> r == []
    ensures n > 0 ==> |r| == |s| * n
    decreases n
  {
    if n <= 0 then [] else s + Repeat(s, n - 1)
  }

  /** `c * n` holds `c` and nothing else. */
  lemma {:induction false} RepeatChar(c: char, n: int)
    ensures forall i :: 0 <= i < |Repeat([c], n)| ==> Repeat([c], n)[i] == c
    decreases n
  {
    if n > 0 {
      RepeatChar(c, n - 1);
    }
  }

  /** `sep.join(parts)`. */
  function Join(parts: seq<string>, sep: string): string {
    if parts == [] then []
    else if |parts| == 1 then parts[0]
    else parts[0] + sep + Join(parts[1..], sep)
  }

  /** Joining a head and at most two optional parts. */
  lemma {:induction false} JoinOptional(head: string, a: seq<string>, b: seq<string>, sep: string)
    requires |a| <= 1 && |b| <= 1
    ensures Join([head] + a + b, sep)
      == head + (if a != [] then sep + a[0] else "") + (if b != [] then sep + b[0] else "")
  {
    if a == [] && b == [] {
      assert [head] + a + b == [head];
    } else if a == [] {
      assert [head] + a + b == [head, b[0]];
      JoinTwo(head, b[0], sep);
    } else if b == [] {
      assert [head] + a + b == [head, a[0]];
      JoinTwo(head, a[0], sep);
    } else {
      assert [head] + a + b == [head, a[0], b[0]];
      JoinThree(head, a[0], b[0], sep);
    }
  }

  lemma JoinTwo(x: string, y: string, sep: string)
    ensures Join([x, y], sep) == x + sep + y
  {
    assert [x, y][1..] == [y];
  }

  lemma JoinThree(x: string, y: string, z: string, sep: string)
    ensures Join([x, y, z], sep) == x + sep + y + sep + z
  {
    assert [x, y, z][1..] == [y, z];
    JoinTwo(y, z, sep);
  }

  /** Joining the present ones of three optional parts. */
  lemma JoinUpToThree(a: seq<string>, b: seq<string>, c: seq<string>, sep: string)
    requires |a| <= 1 && |b| <= 1 && |c| <= 1
    ensures a != [] ==>
      Join(a + b + c, sep) == a[0] + (if b != [] then sep + b[0] else "") + (if c != [] then sep + c[0] else "")
    ensures a == [] && b != [] ==> Join(a + b + c, sep) == b[0] + (if c != [] then sep + c[0] else "")
    ensures a == [] && b == [] && c != [] ==> Join(a + b + c, sep) == c[0]
  {
    if a != [] {
      assert a + b + c == [a[0]] + b + c;
      JoinOptional(a[0], b, c, sep);
    } else if b != [] {
      assert a + b + c == [b[0]] + c + [];
      JoinOptional(b[0], c, [], sep);
    } else if c != [] {
      assert a + b + c == [c[0]];
    }
  }

  /** `s.split(sep)` for a one-character separator: never empty; "" splits to [""]. */
  function Split(s: string, sep: char): (r: seq<string>)
    ensures |r| >= 1
    ensures forall i :: 0 <= i < |r| ==> sep !in r[i]
    decreases |s|
  {
    if s == [] then [""]
    else
      var rest := Split(s[1..], sep);
      if s[0] == sep then [""] + rest else [[s[0]] + rest[0]] + rest[1..]
  }

  lemma {:induction false} JoinSplit(s: string, sep: char)
    ensures Join(Split(s, sep), [sep]) == s
    decreases |s|
  {
    if s != [] {
      JoinSplit(s[1..], sep);
      var rest := Split(s[1..], sep);
      if s[0] != sep {
        if |rest| > 1 {
          assert Join(rest, [sep]) == rest[0] + [sep] + Join(rest[1..], [sep]);
          assert ([[s[0]] + rest[0]] + rest[1..])[1..] == rest[1..];
        }
      }
    }
  }

  /** Splitting text that starts with a separator-free part `a` yields `a` first, then
      the split of what follows the next separator. */
  lemma {:induction false} SplitPrefix(a: string, t: string, sep: char)
    requires sep !in a
    requires t == [] || t[0] == sep
    ensures t == [] ==> Split(a + t, sep) == [a]
    ensures t != [] ==> Split(a + t, sep) == [a] + Split(t[1..], sep)
    decreases |a|
  {
    if a == [] {
      assert a + t == t;
    } else {
      assert (a + t)[1..] == a[1..] + t;
      SplitPrefix(a[1..], t, sep);
      assert [a[0]] + a[1..] == a;
    }
  }

  /** Python's `str(n)` for an integer. */
  function IntToString(n: int): (r: string)
    ensures r != []
    ensures n >= 0 ==> forall i :: 0 <= i < |r| ==> '0' <= r[i] <= '9'
    ensures n < 0 ==> r[0] == '-'
  {
    if n < 0 then "-" + NatToString(-n) else NatToString(n)
  }

  function NatToString(n: nat): (r: string)
    ensures r != []
    ensures forall i :: 0 <= i < |r| ==> '0' <= r[i] <= '9'
    ensures |r| > 1 ==> r[0] != '0'
  {
    if n < 10 then [DigitChar(n)] else NatToString(n / 10) + [DigitChar(n % 10)]
  }

  function DigitChar(d: nat): (c: char)
    requires d < 10
    ensures '0' <= c <= '9'
  {
    ('0' as int + d) as char
  }

  /** The value of a string of ASCII digits, most significant first. */
  function DigitsValue(s: string): nat
    requires forall i :: 0 <= i < |s| ==> '0' <= s[i] <= '9'
  {
    if s == [] then 0 else DigitsValue(s[..|s| - 1]) * 10 + (s[|s| - 1] as int - '0' as int)
  }

  lemma {:induction false} DigitsValueOfNatToString(n: nat)
    ensures DigitsValue(NatToString(n)) == n
  {
    if n >= 10 {
      DigitsValueOfNatToString(n / 10);
      var s := NatToString(n);
      assert s[..|s| - 1] == NatToString(n / 10);
    }
  }

  /** Strict lexicographic order on code points, the order Python's `sorted` uses. */
  predicate Less(a: string, b: string) {
    if a == [] then b != []
    else if b == [] then false
    else a[0] < b[0] || (a[0] == b[0] && Less(a[1..], b[1..]))
  }

  lemma {:induction false} LessIrreflexive(a: string)
    ensures !Less(a, a)
  {
    if a != [] { LessIrreflexive(a[1..]); }
  }

  lemma {:induction false} LessTransitive(a: string, b: string, c: string)
    requires Less(a, b) && Less(b, c)
    ensures Less(a, c)
  {
    if a != [] && b != [] && c != [] && a[0] == b[0] == c[0] {
      LessTransitive(a[1..], b[1..], c[1..]);
    }
  }

  lemma {:induction false} LessTotal(a: string, b: string)
    ensures a == b || Less(a, b) || Less(b, a)
  {
    if a != [] && b != [] && a[0] == b[0] {
      LessTotal(a[1..], b[1..]);
      if a[1..] == b[1..] {
        assert a == [a[0]] + a[1..] && b == [b[0]] + b[1..];
      }
    }
  }
}
