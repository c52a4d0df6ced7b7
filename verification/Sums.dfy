/** Sums and maps over sequences. */
module Sums {
  import opened Sorting

  function SumOf<T>(xs: seq<T>, f: T -> int): int {
    if xs == [] then 0 else f(xs[0]) + SumOf(xs[1..], f)
  }

  function Map<S, T>(xs: seq<S>, f: S -> T): (ys: seq<T>)
    ensures |ys| == |xs| && forall i :: 0 <= i < |xs| ==> ys[i] == f(xs[i])
  {
    if xs == [] then [] else [f(xs[0])] + Map(xs[1..], f)
  }

  function Filter<T>(xs: seq<T>, keep: T -> bool): (ys: seq<T>)
    ensures forall i :: 0 <= i < |ys| ==> ys[i] in xs && keep(ys[i])
    ensures forall i :: 0 <= i < |xs| && keep(xs[i]) ==> xs[i] in ys
  {
    if xs == [] then []
    else
      assert forall i :: 1 <= i < |xs| ==> xs[i] == xs[1..][i - 1];
      if keep(xs[0]) then [xs[0]] + Filter(xs[1..], keep) else Filter(xs[1..], keep)
  }

  lemma {:induction false} SumAppend<T>(xs: seq<T>, ys: seq<T>, f: T -> int)
    ensures SumOf(xs + ys, f) == SumOf(xs, f) + SumOf(ys, f)
  {
    if xs == [] {
      assert xs + ys == ys;
    } else {
      SumAppend(xs[1..], ys, f);
      assert (xs + ys)[1..] == xs[1..] + ys;
    }
  }

  lemma PickedOut<T>(ys: seq<T>, i: nat)
    requires i < |ys|
    ensures multiset(ys) == multiset(ys[..i] + ys[i + 1..]) + multiset{ys[i]}
  {
    assert ys == ys[..i] + [ys[i]] + ys[i + 1..];
  }

  lemma Cancel<T>(a: multiset<T>, b: multiset<T>, x: T)
    requires a + multiset{x} == b + multiset{x}
    ensures a == b
  {
    assert a == (a + multiset{x}) - multiset{x};
    assert b == (b + multiset{x}) - multiset{x};
  }

  /** Where the first of one sequence stands in a permutation of it, and what is left around it. */
  lemma WithoutFirst<T>(xs: seq<T>, ys: seq<T>) returns (i: nat, rest: seq<T>)
    requires multiset(xs) == multiset(ys) && xs != []
    ensures i < |ys| && ys[i] == xs[0] && rest == ys[..i] + ys[i + 1..] && multiset(xs[1..]) == multiset(rest)
  {
    SameElements(xs, ys);
    i :| 0 <= i < |ys| && ys[i] == xs[0];
    rest := ys[..i] + ys[i + 1..];
    PickedOut(ys, i);
    PickedOut(xs, 0);
    assert xs[..0] + xs[1..] == xs[1..];
    Cancel(multiset(rest), multiset(xs[1..]), xs[0]);
  }

  lemma MapAround<S, T>(ys: seq<S>, i: nat, m: S -> T)
    requires i < |ys|
    ensures Map(ys[..i] + ys[i + 1..], m) == Map(ys, m)[..i] + Map(ys, m)[i + 1..]
  {
    hide Map;
    var rest := ys[..i] + ys[i + 1..];
    var l, r := Map(rest, m), Map(ys, m)[..i] + Map(ys, m)[i + 1..];
    assert |l| == |r|;
    forall k | 0 <= k < |l| ensures l[k] == r[k] {
      if k < i {
        assert rest[k] == ys[k];
      } else {
        assert rest[k] == ys[k + 1] && r[k] == Map(ys, m)[k + 1];
      }
    }
  }

  lemma MapWithout<S, T>(ys: seq<S>, i: nat, m: S -> T)
    requires i < |ys|
    ensures multiset(Map(ys, m)) == multiset(Map(ys[..i] + ys[i + 1..], m)) + multiset{m(ys[i])}
  {
    PickedOut(Map(ys, m), i);
    MapAround(ys, i, m);
  }

  /** A sum does not depend on the order of its terms. */
  lemma {:induction false} SumPermutes<T>(xs: seq<T>, ys: seq<T>, f: T -> int)
    requires multiset(xs) == multiset(ys)
    ensures SumOf(xs, f) == SumOf(ys, f)
  {
    if xs == [] {
      assert |multiset(ys)| == 0;
    } else {
      var i, rest := WithoutFirst(xs, ys);
      SumPermutes(xs[1..], rest, f);
      SumAppend(ys[..i], ys[i + 1..], f);
      assert ys == ys[..i] + ys[i..];
      SumAppend(ys[..i], ys[i..], f);
    }
  }

  /** Terms compare, so sums compare. */
  lemma {:induction false} SumBelow<T>(xs: seq<T>, f: T -> int, g: T -> int)
    requires forall x :: x in xs ==> f(x) <= g(x)
    ensures SumOf(xs, f) <= SumOf(xs, g)
  {
    if xs != [] { SumBelow(xs[1..], f, g); }
  }

  lemma {:induction false} SumPlus<T>(xs: seq<T>, f: T -> int, g: T -> int, h: T -> int)
    requires forall x :: x in xs ==> h(x) == f(x) + g(x)
    ensures SumOf(xs, h) == SumOf(xs, f) + SumOf(xs, g)
  {
    if xs != [] { SumPlus(xs[1..], f, g, h); }
  }

  lemma {:induction false} SumScale<T>(xs: seq<T>, f: T -> int, c: int, h: T -> int)
    requires forall x :: x in xs ==> h(x) == c * f(x)
    ensures SumOf(xs, h) == c * SumOf(xs, f)
  {
    if xs != [] { SumScale(xs[1..], f, c, h); }
  }

  /** What is filtered out at value 0 does not change the sum. */
  lemma {:induction false} SumFilter<T>(xs: seq<T>, keep: T -> bool, f: T -> int)
    requires forall x :: x in xs && !keep(x) ==> f(x) == 0
    ensures SumOf(Filter(xs, keep), f) == SumOf(xs, f)
  {
    if xs != [] {
      SumFilter(xs[1..], keep, f);
      if keep(xs[0]) { assert Filter(xs, keep)[1..] == Filter(xs[1..], keep); }
    }
  }

  lemma {:induction false} SumMap<S, T>(xs: seq<S>, m: S -> T, f: T -> int, g: S -> int)
    requires forall x :: x in xs ==> f(m(x)) == g(x)
    ensures SumOf(Map(xs, m), f) == SumOf(xs, g)
  {
    if xs != [] { SumMap(xs[1..], m, f, g); }
  }

  lemma {:induction false} InsertMap<S, T, K>(x: S, xs: seq<S>, m: S -> T, ks: S -> K, kt: T -> K, lt: (K, K) -> bool)
    requires kt(m(x)) == ks(x) && forall y :: y in xs ==> kt(m(y)) == ks(y)
    ensures Map(Insert(x, xs, ks, lt), m) == Insert(m(x), Map(xs, m), kt, lt)
  {
    if xs != [] {
      if lt(ks(x), ks(xs[0])) {
        assert ([x] + xs)[1..] == xs;
      } else {
        InsertMap(x, xs[1..], m, ks, kt, lt);
        assert Map(xs, m)[1..] == Map(xs[1..], m);
      }
    }
  }

  /** Mapping and sorting commute when the map keeps the sort keys. */
  lemma {:induction false} SortMap<S, T, K>(xs: seq<S>, m: S -> T, ks: S -> K, kt: T -> K, lt: (K, K) -> bool)
    requires forall x :: x in xs ==> kt(m(x)) == ks(x)
    ensures Map(Sort(xs, ks, lt), m) == Sort(Map(xs, m), kt, lt)
  {
    if xs != [] {
      SortMap(xs[1..], m, ks, kt, lt);
      SortPermutes(xs[1..], ks, lt);
      var r := Sort(xs[1..], ks, lt);
      forall y | y in r ensures kt(m(y)) == ks(y) { assert y in multiset(r); assert y in xs[1..]; }
      InsertMap(xs[0], r, m, ks, kt, lt);
      assert Map(xs, m)[1..] == Map(xs[1..], m);
    }
  }

  lemma {:induction false} FilterMap<S, T>(xs: seq<S>, m: S -> T, ps: S -> bool, pt: T -> bool)
    requires forall x :: x in xs ==> pt(m(x)) == ps(x)
    ensures Map(Filter(xs, ps), m) == Filter(Map(xs, m), pt)
  {
    if xs != [] {
      FilterMap(xs[1..], m, ps, pt);
      assert Map(xs, m)[1..] == Map(xs[1..], m);
    }
  }

  /** Filtering keeps distinct keys distinct. */
  lemma {:induction false} FilterDistinct<T, K>(xs: seq<T>, keep: T -> bool, key: T -> K)
    requires DistinctKeys(xs, key)
    ensures DistinctKeys(Filter(xs, keep), key)
  {
    if xs != [] {
      var rest := Filter(xs[1..], keep);
      assert DistinctKeys(xs[1..], key);
      FilterDistinct(xs[1..], keep, key);
      forall i | 0 <= i < |rest| ensures key(rest[i]) != key(xs[0]) {
        var k :| 0 <= k < |xs[1..]| && xs[1..][k] == rest[i];
        assert key(xs[0]) != key(xs[k + 1]);
      }
    }
  }

  /** The first n, or all if there are fewer. */
  function Take<T>(xs: seq<T>, n: int): seq<T> {
    if n <= 0 then [] else if n >= |xs| then xs else xs[..n]
  }

  lemma {:induction false} FilterPermutes<T>(xs: seq<T>, ys: seq<T>, keep: T -> bool)
    requires multiset(xs) == multiset(ys)
    ensures multiset(Filter(xs, keep)) == multiset(Filter(ys, keep))
  {
    FilterCounts(xs, keep);
    FilterCounts(ys, keep);
    forall t ensures multiset(Filter(xs, keep))[t] == multiset(Filter(ys, keep))[t] {}
  }

  lemma {:induction false} FilterCounts<T>(xs: seq<T>, keep: T -> bool)
    ensures forall t :: multiset(Filter(xs, keep))[t] == if keep(t) then multiset(xs)[t] else 0
  {
    if xs != [] {
      FilterCounts(xs[1..], keep);
      assert xs == [xs[0]] + xs[1..];
    }
  }

  lemma {:induction false} MapPermutes<S, T>(xs: seq<S>, ys: seq<S>, m: S -> T)
    requires multiset(xs) == multiset(ys)
    ensures multiset(Map(xs, m)) == multiset(Map(ys, m))
  {
    if xs == [] {
      assert |multiset(ys)| == 0;
    } else {
      var i, rest := WithoutFirst(xs, ys);
      MapPermutes(xs[1..], rest, m);
      MapWithout(ys, i, m);
    }
  }
}
