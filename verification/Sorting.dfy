/** Sorting by a key under a strict total order, shared by the modules that sort. */
module Sorting {

  /** `lt` orders the keys strictly and totally. */
  ghost predicate StrictTotal<K(!new)>(lt: (K, K) -> bool) {
    && (forall a :: !lt(a, a))
    && (forall a, b, c :: lt(a, b) && lt(b, c) ==> lt(a, c))
    && (forall a, b :: a != b ==> lt(a, b) || lt(b, a))
  }

  /** Keys strictly ascend along the sequence. */
  ghost predicate Ascending<T, K>(xs: seq<T>, key: T -> K, lt: (K, K) -> bool) {
    forall i, j :: 0 <= i < j < |xs| ==> lt(key(xs[i]), key(xs[j]))
  }

  /** No two positions share a key. */
  ghost predicate DistinctKeys<T, K>(xs: seq<T>, key: T -> K) {
    forall i, j :: 0 <= i < j < |xs| ==> key(xs[i]) != key(xs[j])
  }

  function Insert<T, K>(x: T, xs: seq<T>, key: T -> K, lt: (K, K) -> bool): (r: seq<T>)
    ensures |r| == |xs| + 1
  {
    if xs == [] then [x]
    else if lt(key(x), key(xs[0])) then [x] + xs
    else [xs[0]] + Insert(x, xs[1..], key, lt)
  }

  function Sort<T, K>(xs: seq<T>, key: T -> K, lt: (K, K) -> bool): (r: seq<T>)
    ensures |r| == |xs|
  {
    if xs == [] then [] else Insert(xs[0], Sort(xs[1..], key, lt), key, lt)
  }

  lemma {:induction false} InsertPermutes<T, K>(x: T, xs: seq<T>, key: T -> K, lt: (K, K) -> bool)
    ensures multiset(Insert(x, xs, key, lt)) == multiset{x} + multiset(xs)
  {
    if xs != [] && !lt(key(x), key(xs[0])) {
      InsertPermutes(x, xs[1..], key, lt);
      assert xs == [xs[0]] + xs[1..];
    }
  }

  /** Sorting loses and invents nothing. */
  lemma {:induction false} SortPermutes<T, K>(xs: seq<T>, key: T -> K, lt: (K, K) -> bool)
    ensures multiset(Sort(xs, key, lt)) == multiset(xs)
  {
    if xs != [] {
      SortPermutes(xs[1..], key, lt);
      InsertPermutes(xs[0], Sort(xs[1..], key, lt), key, lt);
      assert xs == [xs[0]] + xs[1..];
    }
  }

  lemma SameElements<T>(xs: seq<T>, ys: seq<T>)
    requires multiset(xs) == multiset(ys)
    ensures forall i :: 0 <= i < |xs| ==> xs[i] in ys
  {
    forall i | 0 <= i < |xs| ensures xs[i] in ys {
      assert xs[i] in multiset(xs);
    }
  }

  lemma {:induction false} InsertAscends<T, K(!new)>(x: T, xs: seq<T>, key: T -> K, lt: (K, K) -> bool)
    requires StrictTotal(lt) && Ascending(xs, key, lt)
    requires forall i :: 0 <= i < |xs| ==> key(xs[i]) != key(x)
    ensures Ascending(Insert(x, xs, key, lt), key, lt)
  {
    if xs != [] && !lt(key(x), key(xs[0])) {
      var r := Insert(x, xs[1..], key, lt);
      InsertAscends(x, xs[1..], key, lt);
      InsertPermutes(x, xs[1..], key, lt);
      forall j | 0 <= j < |r| ensures lt(key(xs[0]), key(r[j])) {
        assert r[j] in multiset(r);
        if r[j] != x {
          assert r[j] in xs[1..];
        }
      }
    }
  }

  /** With distinct keys the result ascends strictly. */
  lemma {:induction false} SortAscends<T, K(!new)>(xs: seq<T>, key: T -> K, lt: (K, K) -> bool)
    requires StrictTotal(lt) && DistinctKeys(xs, key)
    ensures Ascending(Sort(xs, key, lt), key, lt)
  {
    if xs != [] {
      var r := Sort(xs[1..], key, lt);
      assert DistinctKeys(xs[1..], key);
      SortAscends(xs[1..], key, lt);
      SortPermutes(xs[1..], key, lt);
      forall i | 0 <= i < |r| ensures key(r[i]) != key(xs[0]) {
        assert r[i] in multiset(r);
        assert r[i] in xs[1..];
      }
      InsertAscends(xs[0], r, key, lt);
    }
  }

  /** In an ascending sequence the smaller key stands first. */
  lemma SmallerFirst<T, K(!new)>(xs: seq<T>, key: T -> K, lt: (K, K) -> bool, i: nat, j: nat)
    requires StrictTotal(lt) && Ascending(xs, key, lt) && i < |xs| && j < |xs| && lt(key(xs[j]), key(xs[i]))
    ensures j < i
  {
  }

  lemma NotEmpty<T>(xs: seq<T>, ys: seq<T>)
    requires |xs| > 0 && forall i :: 0 <= i < |xs| ==> xs[i] in ys
    ensures |ys| > 0
  {
    assert xs[0] in ys;
  }

  lemma SameFirst<T, K(!new)>(xs: seq<T>, ys: seq<T>, key: T -> K, lt: (K, K) -> bool)
    requires StrictTotal(lt) && Ascending(xs, key, lt) && Ascending(ys, key, lt)
    requires |xs| > 0 && |ys| > 0 && xs[0] in ys && ys[0] in xs
    ensures xs[0] == ys[0]
  {
    var i :| 0 <= i < |ys| && ys[i] == xs[0];
    var j :| 0 <= j < |xs| && xs[j] == ys[0];
    assert i == 0 || j == 0;
  }

  lemma TailWithin<T, K(!new)>(xs: seq<T>, ys: seq<T>, key: T -> K, lt: (K, K) -> bool)
    requires StrictTotal(lt) && Ascending(xs, key, lt)
    requires |xs| > 0 && |ys| > 0 && xs[0] == ys[0] && forall i :: 0 <= i < |xs| ==> xs[i] in ys
    ensures forall i :: 0 <= i < |xs[1..]| ==> xs[1..][i] in ys[1..]
  {
    forall k | 0 <= k < |xs[1..]| ensures xs[1..][k] in ys[1..] {
      var l :| 0 <= l < |ys| && ys[l] == xs[k + 1];
      assert lt(key(xs[0]), key(xs[k + 1]));
      assert ys[1..][l - 1] == xs[k + 1];
    }
  }

  lemma TailAscends<T, K(!new)>(xs: seq<T>, key: T -> K, lt: (K, K) -> bool)
    requires |xs| > 0 && Ascending(xs, key, lt)
    ensures Ascending(xs[1..], key, lt)
  {
  }

  /** A strictly ascending sequence is determined by its set of elements. */
  lemma {:induction false} AscendingUnique<T, K(!new)>(xs: seq<T>, ys: seq<T>, key: T -> K, lt: (K, K) -> bool)
    requires StrictTotal(lt) && Ascending(xs, key, lt) && Ascending(ys, key, lt)
    requires forall i :: 0 <= i < |xs| ==> xs[i] in ys
    requires forall i :: 0 <= i < |ys| ==> ys[i] in xs
    ensures xs == ys
  {
    hide StrictTotal, Ascending;
    if |ys| > 0 { NotEmpty(ys, xs); }
    if xs != [] {
      NotEmpty(xs, ys);
      SameFirst(xs, ys, key, lt);
      TailWithin(xs, ys, key, lt);
      TailWithin(ys, xs, key, lt);
      TailAscends(xs, key, lt);
      TailAscends(ys, key, lt);
      AscendingUnique(xs[1..], ys[1..], key, lt);
      assert xs == [xs[0]] + xs[1..] && ys == [ys[0]] + ys[1..];
    }
  }

  /** The result does not depend on the order of the input. */
  lemma SortIgnoresOrder<T, K(!new)>(xs: seq<T>, ys: seq<T>, key: T -> K, lt: (K, K) -> bool)
    requires StrictTotal(lt) && DistinctKeys(xs, key) && DistinctKeys(ys, key)
    requires multiset(xs) == multiset(ys)
    ensures Sort(xs, key, lt) == Sort(ys, key, lt)
  {
    var a, b := Sort(xs, key, lt), Sort(ys, key, lt);
    assert multiset(a) == multiset(b) by {
      SortPermutes(xs, key, lt);
      SortPermutes(ys, key, lt);
    }
    SameElements(a, b);
    SameElements(b, a);
    SortAscends(xs, key, lt);
    SortAscends(ys, key, lt);
    AscendingUnique(a, b, key, lt);
  }
}
