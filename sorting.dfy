/** `sorted(xs, key=...)` and `list.sort`: a stable insertion sort under an ordering
    relation `le` ("may come before"), proved to return a sorted permutation. */
module Sorting {
  import Strings
  import Lists

  /** `le` is total and transitive, as any key order is. */
  ghost predicate TotalPreorder<T(!new)>(le: (T, T) -> bool) {
    (forall a, b :: le(a, b) || le(b, a))
    && (forall a, b, c :: le(a, b) && le(b, c) ==> le(a, c))
  }

  predicate Sorted<T>(s: seq<T>, le: (T, T) -> bool) {
    forall i, j :: 0 <= i < j < |s| ==> le(s[i], s[j])
  }

  /** Puts `x` in front of the first element it may precede, so that it stays ahead of
      the equal elements that followed it. */
  function Insert<T>(x: T, s: seq<T>, le: (T, T) -> bool): (r: seq<T>)
    ensures multiset(r) == multiset(s) + multiset{x}
    ensures |r| == |s| + 1
  {
    if s == [] then [x]
    else if le(x, s[0]) then [x] + s
    else
      assert s == [s[0]] + s[1..];
      [s[0]] + Insert(x, s[1..], le)
  }

  /** The sort: each element, from the last one back, inserted into the sorted rest. */
  function SortBy<T>(xs: seq<T>, le: (T, T) -> bool): (r: seq<T>)
    ensures |r| == |xs|
  {
    if xs == [] then [] else Insert(xs[0], SortBy(xs[1..], le), le)
  }

  /** Sorting only reorders. */
  lemma {:induction false} SortByPermutation<T>(xs: seq<T>, le: (T, T) -> bool)
    ensures multiset(SortBy(xs, le)) == multiset(xs)
  {
    if xs != [] {
      SortByPermutation(xs[1..], le);
      assert xs == [xs[0]] + xs[1..];
    }
  }

  lemma {:induction false} InsertSorted<T(!new)>(x: T, s: seq<T>, le: (T, T) -> bool)
    requires TotalPreorder(le) && Sorted(s, le)
    ensures Sorted(Insert(x, s, le), le)
  {
    if s != [] && !le(x, s[0]) {
      InsertSorted(x, s[1..], le);
      var rest := Insert(x, s[1..], le);
      forall k | 0 <= k < |rest|
        ensures le(s[0], rest[k])
      {
        assert rest[k] in multiset(rest);
        assert rest[k] in multiset(s[1..]) || rest[k] == x;
        if rest[k] != x {
          var j :| 0 <= j < |s[1..]| && s[1..][j] == rest[k];
          assert s[j + 1] == rest[k];
        }
      }
    } else if s != [] {
      forall j | 0 <= j < |s|
        ensures le(x, s[j])
      {
        if j > 0 { assert le(s[0], s[j]); }
      }
    }
  }

  /** Sorting under a total preorder gives a sorted sequence. */
  lemma {:induction false} SortBySorted<T(!new)>(xs: seq<T>, le: (T, T) -> bool)
    requires TotalPreorder(le)
    ensures Sorted(SortBy(xs, le), le)
  {
    if xs != [] {
      SortBySorted(xs[1..], le);
      InsertSorted(xs[0], SortBy(xs[1..], le), le);
    }
  }

  /** The sort is stable: the elements of one class of equal keys keep their relative
      order. `q` picks out that class. */
  lemma {:induction false} SortByStable<T(!new)>(xs: seq<T>, le: (T, T) -> bool, q: T -> bool)
    requires TotalPreorder(le)
    requires forall a, b :: q(a) && q(b) ==> le(a, b)
    ensures Lists.Filter(SortBy(xs, le), q) == Lists.Filter(xs, q)
  {
    if xs != [] {
      SortByStable(xs[1..], le, q);
      InsertStable(xs[0], SortBy(xs[1..], le), le, q);
    }
  }

  lemma {:induction false} InsertStable<T(!new)>(x: T, s: seq<T>, le: (T, T) -> bool, q: T -> bool)
    requires forall a, b :: q(a) && q(b) ==> le(a, b)
    ensures Lists.Filter(Insert(x, s, le), q) == (if q(x) then [x] else []) + Lists.Filter(s, q)
  {
    if s == [] {
      Lists.FilterCons(x, [], q);
      assert [x] + [] == [x];
    } else if le(x, s[0]) {
      Lists.FilterCons(x, s, q);
    } else {
      var rest := Insert(x, s[1..], le);
      InsertStable(x, s[1..], le, q);
      Lists.FilterCons(s[0], rest, q);
      Lists.FilterCons(s[0], s[1..], q);
      assert s == [s[0]] + s[1..];
      assert q(x) ==> !q(s[0]);
    }
  }

  /** The order of an integer sort key: `sorted(xs, key=key)`. */
  function ByKey<T>(key: T -> int): (le: (T, T) -> bool)
  {
    (a: T, b: T) => key(a) <= key(b)
  }

  lemma ByKeyTotal<T(!new)>(key: T -> int)
    ensures TotalPreorder(ByKey(key))
  {
  }

  /** Sorting by an integer key orders the keys. */
  lemma SortByKey<T(!new)>(xs: seq<T>, key: T -> int)
    ensures multiset(SortBy(xs, ByKey(key))) == multiset(xs)
    ensures forall i, j :: 0 <= i < j < |xs| ==> key(SortBy(xs, ByKey(key))[i]) <= key(SortBy(xs, ByKey(key))[j])
  {
    SortByPermutation(xs, ByKey(key));
    ByKeyTotal(key);
    SortBySorted(xs, ByKey(key));
  }

  /** The order `sorted` gives strings: code-point lexicographic. */
  function StringOrder(): (le: (string, string) -> bool)
  {
    (a: string, b: string) => !Strings.Less(b, a)
  }

  lemma StringOrderTotal()
    ensures TotalPreorder(StringOrder())
  {
    forall a: string, b: string
      ensures StringOrder()(a, b) || StringOrder()(b, a)
    {
      Strings.LessTotal(a, b);
      if Strings.Less(a, b) && Strings.Less(b, a) {
        Strings.LessTransitive(a, b, a);
        Strings.LessIrreflexive(a);
      }
    }
    forall a: string, b: string, c: string | StringOrder()(a, b) && StringOrder()(b, c)
      ensures StringOrder()(a, c)
    {
      if Strings.Less(c, a) {
        Strings.LessTotal(a, b);
        if Strings.Less(a, b) {
          Strings.LessTransitive(c, a, b);
        }
      }
    }
  }

  /** `sorted(strings)`: strings in ascending order, nothing added or lost. */
  function SortStrings(xs: seq<string>): (r: seq<string>)
    ensures multiset(r) == multiset(xs)
    ensures forall i, j :: 0 <= i < j < |r| ==> !Strings.Less(r[j], r[i])
  {
    SortByPermutation(xs, StringOrder());
    StringOrderTotal();
    SortBySorted(xs, StringOrder());
    SortBy(xs, StringOrder())
  }

  /** `sorted(strings, reverse=True)`. */
  function SortStringsDescending(xs: seq<string>): (r: seq<string>)
    ensures multiset(r) == multiset(xs)
    ensures forall i, j :: 0 <= i < j < |r| ==> !Strings.Less(r[i], r[j])
  {
    var le := (a: string, b: string) => !Strings.Less(a, b);
    SortByPermutation(xs, le);
    ReverseStringOrderTotal(le);
    SortBySorted(xs, le);
    SortBy(xs, le)
  }

  lemma ReverseStringOrderTotal(le: (string, string) -> bool)
    requires forall a, b :: le(a, b) == !Strings.Less(a, b)
    ensures TotalPreorder(le)
  {
    StringOrderTotal();
    assert forall a, b :: le(a, b) == StringOrder()(b, a);
  }

  /** `sorted(set(xs))`: the distinct strings of `xs` in ascending order. */
  function SortedSet(xs: seq<string>): (r: seq<string>)
    ensures forall x :: x in r <==> x in xs
    ensures forall i, j :: 0 <= i < j < |r| ==> Strings.Less(r[i], r[j])
  {
    var d := Distinct(xs);
    var r := SortStrings(d);
    assert forall x :: x in r <==> x in multiset(r);
    forall i, j | 0 <= i < j < |r|
      ensures Strings.Less(r[i], r[j])
    {
      DistinctAfterPermutation(d, r, i, j);
      Strings.LessTotal(r[i], r[j]);
    }
    r
  }

  /** `sorted(set(xs), reverse=True)`: the distinct strings of `xs`, largest first. */
  function SortedSetDescending(xs: seq<string>): (r: seq<string>)
    ensures forall x :: x in r <==> x in xs
    ensures forall i, j :: 0 <= i < j < |r| ==> Strings.Less(r[j], r[i])
  {
    var d := Distinct(xs);
    var r := SortStringsDescending(d);
    assert forall x :: x in r <==> x in multiset(r);
    forall i, j | 0 <= i < j < |r|
      ensures Strings.Less(r[j], r[i])
    {
      DistinctAfterPermutation(d, r, i, j);
      Strings.LessTotal(r[i], r[j]);
    }
    r
  }

  /** The elements of `xs`, each once, in order of first occurrence. */
  function Distinct<T(==,!new)>(xs: seq<T>): (r: seq<T>)
    ensures forall x :: x in r <==> x in xs
    ensures forall i, j :: 0 <= i < j < |r| ==> r[i] != r[j]
    decreases |xs|
  {
    if xs == [] then []
    else
      var init := Distinct(xs[..|xs| - 1]);
      var last := xs[|xs| - 1];
      assert xs == xs[..|xs| - 1] + [last];
      if last in init then init else init + [last]
  }

  /** Dropping the elements that fail a condition commutes with keeping first
      occurrences. */
  lemma {:induction false} DistinctFilter<T(!new)>(xs: seq<T>, p: T -> bool)
    ensures Distinct(Lists.Filter(xs, p)) == Lists.Filter(Distinct(xs), p)
    decreases |xs|
  {
    if xs != [] {
      var init := xs[..|xs| - 1];
      var last := xs[|xs| - 1];
      assert xs == init + [last];
      DistinctFilter(init, p);
      Lists.FilterAppend(init, [last], p);
      Lists.FilterCons(last, [], p);
      assert [last] + [] == [last];
      var d := Distinct(init);
      Lists.FilterAppend(d, [last], p);
      var fi := Lists.Filter(init, p);
      var dx := if last in d then d else d + [last];
      assert Distinct(xs) == dx;
      if p(last) {
        assert Lists.Filter(xs, p) == fi + [last];
        assert (fi + [last])[..|fi + [last]| - 1] == fi;
        assert last in Distinct(fi) <==> last in d;
        assert Distinct(fi + [last]) == if last in Distinct(fi) then Distinct(fi) else Distinct(fi) + [last];
      } else {
        assert Lists.Filter(xs, p) == fi;
        assert Lists.Filter(dx, p) == Lists.Filter(d, p);
      }
    }
  }

  lemma DistinctAfterPermutation<T>(xs: seq<T>, r: seq<T>, i: int, j: int)
    requires forall a, b :: 0 <= a < b < |xs| ==> xs[a] != xs[b]
    requires multiset(r) == multiset(xs)
    requires 0 <= i < j < |r|
    ensures r[i] != r[j]
  {
    if r[i] == r[j] {
      assert multiset(r)[r[i]] >= 2 by {
        assert r == r[..i] + [r[i]] + r[i + 1..j] + [r[j]] + r[j + 1..];
      }
      MultiplicityOne(xs, r[i]);
    }
  }

  lemma {:induction false} MultiplicityOne<T>(xs: seq<T>, x: T)
    requires forall a, b :: 0 <= a < b < |xs| ==> xs[a] != xs[b]
    ensures multiset(xs)[x] <= 1
  {
    if xs != [] {
      MultiplicityOne(xs[1..], x);
      assert xs == [xs[0]] + xs[1..];
      if xs[0] == x {
        assert x !in xs[1..];
      }
    }
  }

  /** `xs[:n]`. */
  function Take<T>(xs: seq<T>, n: nat): (r: seq<T>)
    ensures |r| <= n && r <= xs
    ensures |xs| >= n ==> |r| == n
  {
    if |xs| <= n then xs else xs[..n]
  }

  /** The first `n` of a sort by key: as many as there are, up to `n`, taken from the
      input, in key order, and no element left out has a smaller key than one kept. */
  lemma TakeSortedByKey<T(!new)>(xs: seq<T>, key: T -> int, n: nat)
    ensures var r := Take(SortBy(xs, ByKey(key)), n);
      |r| == (if |xs| < n then |xs| else n)
      && multiset(r) <= multiset(xs)
      && (forall i, j :: 0 <= i < j < |r| ==> key(r[i]) <= key(r[j]))
      && (forall x, k :: x in multiset(xs) - multiset(r) && 0 <= k < |r| ==> key(r[k]) <= key(x))
  {
    var s := SortBy(xs, ByKey(key));
    SortByKey(xs, key);
    var r := Take(s, n);
    assert r == s[..|r|];
    assert s == r + s[|r|..];
    assert multiset(s) == multiset(r) + multiset(s[|r|..]);
    forall x, k | x in multiset(xs) - multiset(r) && 0 <= k < |r|
      ensures key(r[k]) <= key(x)
    {
      assert x in multiset(s[|r|..]);
      var j :| 0 <= j < |s[|r|..]| && s[|r|..][j] == x;
      assert s[|r| + j] == x;
    }
  }
}
