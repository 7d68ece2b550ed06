/** List comprehensions, `[f(x) for x in xs]` and `[x for x in xs if p(x)]`, and counting. */
module Lists {
  /** `[x for x in xs if p(x)]`. */
  function Filter<T(!new)>(xs: seq<T>, p: T -> bool): (r: seq<T>)
    ensures |r| <= |xs|
    ensures forall x :: x in r <==> x in xs && p(x)
  {
    if xs == [] then []
    else
      assert xs == [xs[0]] + xs[1..];
      (if p(xs[0]) then [xs[0]] else []) + Filter(xs[1..], p)
  }

  /** `[f(x) for x in xs]`. */
  function Map<A, B>(xs: seq<A>, f: A -> B): (r: seq<B>)
    ensures |r| == |xs| && forall i :: 0 <= i < |xs| ==> r[i] == f(xs[i])
    ensures forall x :: x in xs ==> f(x) in r
    ensures forall y :: y in r ==> exists x :: x in xs && f(x) == y
  {
    var r := seq(|xs|, i requires 0 <= i < |xs| => f(xs[i]));
    assert forall x :: x in xs ==> f(x) in r by {
      forall x | x in xs
        ensures f(x) in r
      {
        var i :| 0 <= i < |xs| && xs[i] == x;
        assert r[i] == f(x);
      }
    }
    r
  }

  /** Filtering a concatenation filters each part. */
  lemma {:induction false} FilterAppend<T(!new)>(xs: seq<T>, ys: seq<T>, p: T -> bool)
    ensures Filter(xs + ys, p) == Filter(xs, p) + Filter(ys, p)
  {
    if xs == [] {
      assert xs + ys == ys;
    } else {
      var t := xs[1..];
      var c := if p(xs[0]) then [xs[0]] else [];
      ConsSplit(xs, ys);
      FilterAppend(t, ys, p);
      FilterCons(xs[0], t + ys, p);
      FilterCons(xs[0], t, p);
      AppendAssoc(c, Filter(t, p), Filter(ys, p));
    }
  }

  /** `any(p(x) for x in xs)`. */
  predicate Any<T>(xs: seq<T>, p: T -> bool) {
    exists i :: 0 <= i < |xs| && p(xs[i])
  }

  /** Some element passes when one before the last passes or the last one does. */
  lemma AnySnoc<T>(xs: seq<T>, p: T -> bool)
    requires xs != []
    ensures Any(xs, p) <==> (Any(xs[..|xs| - 1], p) || p(xs[|xs| - 1]))
  {
    var init := xs[..|xs| - 1];
    assert forall i :: 0 <= i < |init| ==> init[i] == xs[i];
  }

  /** An element of a prefix that passes is an element of the whole that passes. */
  lemma AnyPrefix<T>(xs: seq<T>, n: nat, p: T -> bool)
    requires n <= |xs| && Any(xs[..n], p)
    ensures Any(xs, p)
  {
    var i :| 0 <= i < n && p(xs[..n][i]);
    assert xs[..n][i] == xs[i];
  }

  /** Filtering mapped elements filters the elements by the composed condition. */
  lemma {:induction false} FilterMap<A(!new), B(!new)>(xs: seq<A>, f: A -> B, q: B -> bool, pf: A -> bool)
    requires forall x :: pf(x) == q(f(x))
    ensures Filter(Map(xs, f), q) == Map(Filter(xs, pf), f)
  {
    if xs != [] {
      var t := xs[1..];
      FilterMap(t, f, q, pf);
      assert xs == [xs[0]] + t;
      MapAppend([xs[0]], t, f);
      FilterCons(f(xs[0]), Map(t, f), q);
      FilterCons(xs[0], t, pf);
      var c := if pf(xs[0]) then [xs[0]] else [];
      MapAppend(c, Filter(t, pf), f);
      assert Map(c, f) == if q(f(xs[0])) then [f(xs[0])] else [];
    }
  }

  /** Mapping a concatenation maps each part. */
  lemma MapAppend<A, B>(xs: seq<A>, ys: seq<A>, f: A -> B)
    ensures Map(xs + ys, f) == Map(xs, f) + Map(ys, f)
  {
    assert forall i :: 0 <= i < |xs + ys| ==> Map(xs + ys, f)[i] == (Map(xs, f) + Map(ys, f))[i];
  }

  lemma ConsSplit<T>(xs: seq<T>, ys: seq<T>)
    requires xs != []
    ensures xs + ys == [xs[0]] + (xs[1..] + ys) && xs == [xs[0]] + xs[1..]
  {
  }

  lemma AppendAssoc<T>(a: seq<T>, b: seq<T>, c: seq<T>)
    ensures a + (b + c) == (a + b) + c
  {
  }

  /** Filtering `[a] + t`: `a` is kept exactly when it passes. */
  lemma FilterCons<T(!new)>(a: T, t: seq<T>, p: T -> bool)
    ensures Filter([a] + t, p) == (if p(a) then [a] else []) + Filter(t, p)
  {
    assert ([a] + t)[1..] == t;
  }

  /** A condition every element passes keeps the whole list. */
  lemma {:induction false} FilterAll<T(!new)>(xs: seq<T>, p: T -> bool)
    requires forall x :: x in xs ==> p(x)
    ensures Filter(xs, p) == xs
  {
    if xs != [] {
      FilterAll(xs[1..], p);
      assert xs == [xs[0]] + xs[1..];
    }
  }

  /** Two conditions that agree on the elements give the same list. */
  lemma {:induction false} FilterSame<T(!new)>(xs: seq<T>, p: T -> bool, q: T -> bool)
    requires forall x :: x in xs ==> p(x) == q(x)
    ensures Filter(xs, p) == Filter(xs, q)
  {
    if xs != [] {
      FilterSame(xs[1..], p, q);
      assert xs == [xs[0]] + xs[1..];
    }
  }

  /** Filtering twice keeps what passes both conditions, in the same order. */
  lemma {:induction false} FilterFilter<T(!new)>(xs: seq<T>, p: T -> bool, q: T -> bool, pq: T -> bool)
    requires forall x :: pq(x) == (p(x) && q(x))
    ensures Filter(Filter(xs, p), q) == Filter(xs, pq)
  {
    if xs != [] {
      FilterFilter(xs[1..], p, q, pq);
      assert xs == [xs[0]] + xs[1..];
      FilterCons(xs[0], xs[1..], p);
      FilterCons(xs[0], xs[1..], pq);
      if p(xs[0]) {
        assert Filter(xs, p) == [xs[0]] + Filter(xs[1..], p);
        FilterCons(xs[0], Filter(xs[1..], p), q);
      } else {
        assert Filter(xs, p) == Filter(xs[1..], p);
      }
    }
  }

  /** `xs.index(x)`: the first position of `x`. */
  function IndexOf<T(==)>(xs: seq<T>, x: T): (i: nat)
    requires x in xs
    ensures i < |xs| && xs[i] == x
    ensures forall j :: 0 <= j < i ==> xs[j] != x
  {
    if xs[0] == x then 0 else 1 + IndexOf(xs[1..], x)
  }

  /** `sum(1 for x in xs if p(x))`. */
  function Count<T(!new)>(xs: seq<T>, p: T -> bool): (n: nat)
    ensures n == |Filter(xs, p)|
  {
    if xs == [] then 0 else (if p(xs[0]) then 1 else 0) + Count(xs[1..], p)
  }
}
