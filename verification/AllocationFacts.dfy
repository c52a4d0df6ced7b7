/** What the weighted allocation guarantees: exact, order-free, fair and optimal. */
module AllocationFacts {
  import opened Basics
  import opened Sorting
  import opened Sums
  import opened Allocation

  // ----- the result --------------------------------------------------------------------------

  /** It succeeds exactly on a pool that can be divided. */
  lemma SucceedsExactlyWhen(pool: int, items: seq<Weighted>)
    ensures ByWeight(pool, items).Ok? <==>
              && pool >= 0 && DistinctKeys(items, ItemId()) && (forall w :: w in items ==> w.weight >= 0)
              && (pool == 0 || exists w :: w in items && w.weight > 0)
    ensures ByWeight(pool, items) == Err(NoWeight) <==>
              && pool > 0 && DistinctKeys(items, ItemId()) && (forall w :: w in items ==> w.weight == 0)
  {
    DistinctIds(items);
    assert AnyNegative(items) <==> exists w :: w in items && w.weight < 0;
    if !AnyNegative(items) { TotalIsPositive(items); }
  }

  lemma ShareKeepsIds(pool: int, items: seq<Weighted>, m: Weighted -> Share)
    requires DistinctKeys(items, ItemId()) && forall w :: m(w).id == w.id
    ensures DistinctKeys(Map(items, m), ShareId())
    ensures Ascending(Sort(Map(items, m), ShareId(), IdLess), ShareId(), IdLess)
  {
    var shares := Map(items, m);
    forall i, j | 0 <= i < j < |shares| ensures ShareId()(shares[i]) != ShareId()(shares[j]) {
      assert ItemId()(items[i]) != ItemId()(items[j]);
    }
    AheadIsTotal();
    SortAscends(shares, ShareId(), IdLess);
  }

  /** One share per item, in ascending id order. */
  lemma ResultShares(pool: int, items: seq<Weighted>) returns (r: seq<Share>)
    requires Shareable(pool, items)
    ensures ByWeight(pool, items) == Ok(r) && |r| == |items| && Ascending(r, ShareId(), IdLess)
    ensures multiset(r) == multiset(Map(items, ShareOf(pool, items)))
  {
    DistinctIds(items);
    var shares := Map(items, ShareOf(pool, items));
    r := Sort(shares, ShareId(), IdLess);
    SortPermutes(shares, ShareId(), IdLess);
    ShareKeepsIds(pool, items, ShareOf(pool, items));
  }

  /** The shares add up to the pool: the method's final check can never fail. */
  lemma ResultAddsUp(pool: int, items: seq<Weighted>)
    requires ByWeight(pool, items).Ok?
    ensures SumOf(ByWeight(pool, items).value, AmountIn()) == pool
  {
    hide Sort, Lucky, Ranking, Leftover;
    SucceedsExactlyWhen(pool, items);
    TotalIsPositive(items);
    var amount := (w: Weighted) => if Total(items) > 0 then Amount(pool, items)(w) else 0;
    var m := if Total(items) > 0 then ShareOf(pool, items) else Nothing();
    SortPermutes(Map(items, m), ShareId(), IdLess);
    SumPermutes(ByWeight(pool, items).value, Map(items, m), AmountIn());
    SumMap(items, m, AmountIn(), amount);
    if Total(items) > 0 {
      AmountsAddUp(pool, items);
      SumBelow(items, amount, Amount(pool, items));
      SumBelow(items, Amount(pool, items), amount);
    } else {
      SumConstant(items, amount, 0);
    }
  }

  lemma RoundedUp(x: int, total: int)
    requires total > 0 && x >= 0
    ensures var q := x / total;
            && q * total <= x <= q * total + (total - 1)
            && (x % total > 0 ==> (q + 1) * total <= x + (total - 1) && x <= (q + 1) * total)
            && (x % total == 0 ==> q * total == x)
  {
    assert x == total * (x / total) + x % total;
    assert (x / total + 1) * total == total * (x / total) + total;
  }

  /** Each share is the floor of the exact one, or its ceiling when the exact one is not whole. */
  lemma ShareIsFloorOrCeiling(pool: int, items: seq<Weighted>, w: Weighted)
    requires Shareable(pool, items) && w in items
    ensures var total, amount := Total(items), Amount(pool, items)(w);
            && amount * total <= pool * w.weight + (total - 1) && pool * w.weight <= amount * total + (total - 1)
            && (pool * w.weight % total == 0 ==> amount * total == pool * w.weight)
            && amount >= 0 && (w.weight == 0 ==> amount == 0)
  {
    var total := Total(items);
    Division(pool, w.weight, total);
    assert w.weight >= 0 && pool >= 0;
    if w in Lucky(pool, items) { LuckyIsUneven(pool, items, w); }
    hide Total, Lucky, Shareable;
    Product(pool, w.weight);
    RoundedUp(pool * w.weight, total);
    var q := pool * w.weight / total;
    assert Amount(pool, items)(w) == q || Amount(pool, items)(w) == q + 1;
  }

  // ----- order -------------------------------------------------------------------------------

  lemma RankingIgnoresOrder(pool: int, items: seq<Weighted>, other: seq<Weighted>)
    requires Shareable(pool, items) && Shareable(pool, other) && multiset(items) == multiset(other) && Total(items) == Total(other)
    ensures Ranking(pool, items) == Ranking(pool, other)
  {
    var a, b := Ranking(pool, items), Ranking(pool, other);
    FilterPermutes(items, other, HasWeight());
    RankingPermutes(pool, items);
    RankingPermutes(pool, other);
    RankingAscends(pool, items);
    RankingAscends(pool, other);
    SameElements(a, b);
    SameElements(b, a);
    AheadIsTotal();
    AscendingUnique(a, b, PlaceOf(pool, Total(items)), Ahead);
  }

  lemma SetIgnoresOrder(ids: seq<Id>, other: seq<Id>)
    requires multiset(ids) == multiset(other)
    ensures Unique(ids) == Unique(other)
  {
    assert |ids| == |multiset(ids)| == |other|;
    SameElements(ids, other);
    SameElements(other, ids);
    forall id ensures id in SetOf(ids) <==> id in SetOf(other) {
      assert id in SetOf(ids) <==> id in ids;
      assert id in SetOf(other) <==> id in other;
    }
    assert SetOf(ids) == SetOf(other);
  }

  lemma SameAmounts(pool: int, items: seq<Weighted>, other: seq<Weighted>)
    requires Total(items) > 0 && Total(items) == Total(other) && Lucky(pool, items) == Lucky(pool, other)
    ensures Map(other, ShareOf(pool, other)) == Map(other, ShareOf(pool, items))
  {
    hide Total, Lucky;
    var a, b := Map(other, ShareOf(pool, other)), Map(other, ShareOf(pool, items));
    forall i | 0 <= i < |other| ensures a[i] == b[i] {
      assert Amount(pool, other)(other[i]) == Amount(pool, items)(other[i]);
    }
  }

  lemma SortedAlike(items: seq<Weighted>, other: seq<Weighted>, m: Weighted -> Share)
    requires multiset(items) == multiset(other) && DistinctKeys(items, ItemId()) && DistinctKeys(other, ItemId())
    requires forall w :: m(w).id == w.id
    ensures Sort(Map(items, m), ShareId(), IdLess) == Sort(Map(other, m), ShareId(), IdLess)
  {
    MapPermutes(items, other, m);
    ShareKeepsIds(0, items, m);
    ShareKeepsIds(0, other, m);
    AheadIsTotal();
    SortIgnoresOrder(Map(items, m), Map(other, m), ShareId(), IdLess);
  }

  lemma SameLucky(pool: int, items: seq<Weighted>, other: seq<Weighted>)
    requires Shareable(pool, items) && Shareable(pool, other) && multiset(items) == multiset(other) && Total(items) == Total(other)
    ensures Lucky(pool, items) == Lucky(pool, other)
  {
    RankingIgnoresOrder(pool, items, other);
    SumPermutes(items, other, Floor(pool, Total(items)));
  }

  /** The result, refusals included, does not depend on the order of the input. */
  lemma OrderIsIrrelevant(pool: int, items: seq<Weighted>, other: seq<Weighted>)
    requires multiset(items) == multiset(other)
    ensures ByWeight(pool, items) == ByWeight(pool, other)
  {
    hide Sort, Lucky, Ranking, Leftover;
    MapPermutes(items, other, ItemId());
    SetIgnoresOrder(Map(items, ItemId()), Map(other, ItemId()));
    DistinctIds(items);
    DistinctIds(other);
    SameElements(items, other);
    SameElements(other, items);
    SumPermutes(items, other, WeightOf());
    if pool >= 0 && Unique(Map(items, ItemId())) && !AnyNegative(items) {
      if Total(items) > 0 {
        SameLucky(pool, items, other);
        SameAmounts(pool, items, other);
        SortedAlike(items, other, ShareOf(pool, items));
      } else {
        SortedAlike(items, other, Nothing());
      }
    }
  }

  // ----- fairness ----------------------------------------------------------------------------

  /** Units go down the ranking without gaps. */
  lemma LuckyUpwards(pool: int, items: seq<Weighted>, w: Weighted, v: Weighted)
    requires Shareable(pool, items) && w in Lucky(pool, items) && v in items && v.weight > 0
    requires Ahead(PlaceOf(pool, Total(items))(v), PlaceOf(pool, Total(items))(w))
    ensures v in Lucky(pool, items)
  {
    var ranking, n, place := Ranking(pool, items), Leftover(pool, items), PlaceOf(pool, Total(items));
    LeftoverIsPlaced(pool, items);
    RankingPermutes(pool, items);
    RankingAscends(pool, items);
    var i :| 0 <= i < n && ranking[i] == w;
    var j :| 0 <= j < |ranking| && ranking[j] == v;
    AheadIsTotal();
    SmallerFirst(ranking, place, Ahead, i, j);
    assert Lucky(pool, items)[j] == v;
  }

  lemma LargerShare(pool: int, total: int, a: int, b: int)
    requires pool >= 0 && 0 <= a < b && total > 0
    ensures pool * a / total <= pool * b / total
    ensures pool > 0 && pool * a / total == pool * b / total ==> pool * a % total < pool * b % total
  {
    Division(pool, a, total);
    Division(pool, b, total);
    Scale(a + 1, b, pool);
    Scale(pool * b / total + 1, pool * a / total, total);
    assert pool * a == a * pool && pool * b == b * pool && (a + 1) * pool == a * pool + pool;
  }

  /** A strictly larger weight never receives less; equal weights differ by at most one unit, in favour of the smaller id. */
  lemma LargerWeightNeverLess(pool: int, items: seq<Weighted>, w: Weighted, v: Weighted)
    requires Shareable(pool, items) && w in items && v in items
    ensures w.weight < v.weight ==> Amount(pool, items)(w) <= Amount(pool, items)(v)
    ensures w.weight == v.weight && w.id < v.id ==> 0 <= Amount(pool, items)(w) - Amount(pool, items)(v) <= 1
  {
    hide Lucky, Total, Ranking, Leftover;
    var total := Total(items);
    assert total > 0 && pool >= 0 && w.weight >= 0;
    if w.weight < v.weight { LargerShare(pool, total, w.weight, v.weight); }
    if w in Lucky(pool, items) && w.weight < v.weight && pool * w.weight / total == pool * v.weight / total {
      LuckyIsUneven(pool, items, w);
      LuckyUpwards(pool, items, w, v);
    }
    if v in Lucky(pool, items) && w.weight == v.weight && w.id < v.id {
      LuckyIsUneven(pool, items, v);
      LuckyUpwards(pool, items, v, w);
    }
  }

  /** A row's share over its floor. */
  function Extra(pool: int, items: seq<Weighted>, w: Weighted): int
    requires Total(items) > 0
  {
    Amount(pool, items)(w) - pool * w.weight / Total(items)
  }

  /** Leftover units go to the larger remainders first, and among equal remainders to the smaller ids, whatever the weights. */
  lemma LeftoverByRemainderThenId(pool: int, items: seq<Weighted>, w: Weighted, v: Weighted)
    requires Shareable(pool, items) && w in items && v in items
    requires pool * w.weight % Total(items) > pool * v.weight % Total(items)
          || (pool * w.weight % Total(items) == pool * v.weight % Total(items) && w.id < v.id)
    ensures 0 <= Extra(pool, items, v) <= Extra(pool, items, w) <= 1
  {
    hide Lucky, Total, Ranking, Leftover;
    assert w.weight >= 0;
    if v in Lucky(pool, items) {
      LuckyIsUneven(pool, items, v);
      NoWeightNoRemainder(pool, w.weight, Total(items));
      LuckyUpwards(pool, items, v, w);
    }
  }

  lemma NoWeightNoRemainder(pool: int, weight: int, total: int)
    requires total > 0
    ensures weight == 0 ==> pool * weight % total == 0
  {
  }

  // ----- optimality --------------------------------------------------------------------------

  /** How far an allocation stays from the exact shares, scaled by the total weight. */
  function Deviation(pool: int, items: seq<Weighted>, b: Weighted -> int): int {
    SumOf(items, Off(pool, Total(items), b))
  }

  function Off(pool: int, total: int, b: Weighted -> int): Weighted -> int {
    (w: Weighted) => Abs(b(w) * total - pool * w.weight)
  }

  /** The remainder separates the rows with a leftover unit from those without. */
  ghost predicate Separates(theta: int, pool: int, items: seq<Weighted>, w: Weighted)
    requires Total(items) > 0
  {
    if w in Lucky(pool, items) then pool * w.weight % Total(items) >= theta else pool * w.weight % Total(items) <= theta
  }

  lemma NothingLeft(pool: int, items: seq<Weighted>, w: Weighted)
    requires Shareable(pool, items) && w in items && Leftover(pool, items) == 0
    ensures Separates(Total(items), pool, items, w)
  {
    assert Lucky(pool, items) == [];
    Division(pool, w.weight, Total(items));
  }

  /** The remainder of the last row that gets a leftover unit. */
  ghost function LastTheta(pool: int, items: seq<Weighted>): int
    requires Total(items) > 0 && 0 < Leftover(pool, items) <= |Ranking(pool, items)|
  {
    pool * Ranking(pool, items)[Leftover(pool, items) - 1].weight % Total(items)
  }

  lemma LastRemainder(pool: int, items: seq<Weighted>)
    requires Shareable(pool, items) && 0 < Leftover(pool, items) <= |Ranking(pool, items)|
    ensures 0 <= LastTheta(pool, items) <= Total(items)
  {
    RankingPermutes(pool, items);
    var last := Ranking(pool, items)[Leftover(pool, items) - 1];
    assert last in Ranking(pool, items);
    Division(pool, last.weight, Total(items));
  }

  lemma Threshold(pool: int, items: seq<Weighted>) returns (theta: int)
    requires Shareable(pool, items)
    ensures 0 <= theta <= Total(items)
    ensures forall w :: w in items ==> Separates(theta, pool, items, w)
  {
    LeftoverIsPlaced(pool, items);
    assert Total(items) > 0;
    hide *;
    if Leftover(pool, items) == 0 {
      theta := Total(items);
      forall w | w in items ensures Separates(theta, pool, items, w) { NothingLeft(pool, items, w); }
    } else {
      theta := LastTheta(pool, items);
      LastRemainder(pool, items);
      forall w | w in items ensures Separates(theta, pool, items, w) { Separated(pool, items, w); }
    }
  }

  lemma Separated(pool: int, items: seq<Weighted>, w: Weighted)
    requires Shareable(pool, items) && w in items && 0 < Leftover(pool, items) <= |Ranking(pool, items)|
    ensures Separates(LastTheta(pool, items), pool, items, w)
  {
    var ranking, n, place := Ranking(pool, items), Leftover(pool, items), PlaceOf(pool, Total(items));
    Division(pool, w.weight, Total(items));
    RankingPermutes(pool, items);
    RankingAscends(pool, items);
    Division(pool, ranking[n - 1].weight, Total(items));
    if w in Lucky(pool, items) {
      var i :| 0 <= i < n && ranking[i] == w;
      if i < n - 1 { assert Ahead(place(ranking[i]), place(ranking[n - 1])); }
    } else if w.weight > 0 {
      var j :| 0 <= j < |ranking| && ranking[j] == w;
      assert Lucky(pool, items) == ranking[..n];
      assert j >= n;
      assert Ahead(place(ranking[n - 1]), place(ranking[j]));
    }
  }

  // The same with the products k * u and k * theta given as m and n.
  lemma RowPriceLinear(u: int, r: int, theta: int, chosen: bool, k: int, m: int, n: int)
    requires 0 <= r <= u && 0 <= theta <= u && if chosen then r >= theta else r <= theta
    requires k >= 1 ==> m >= u && n >= theta
    requires k <= -1 ==> m <= -u && m - n <= theta - u
    requires k == 0 ==> m == n == 0
    ensures var start := if chosen then u - r else -r;
            Abs(start + m) >= Abs(start) + m - 2 * n
  {
  }

  lemma PriceOf(u: int, theta: int, k: int)
    ensures (u - 2 * theta) * k == k * u - 2 * (k * theta)
  {
    assert (u - 2 * theta) * k == u * k - (2 * theta) * k;
    assert (2 * theta) * k == 2 * (k * theta);
  }

  lemma Multiples(u: int, theta: int, k: int)
    requires 0 <= theta <= u
    ensures k >= 1 ==> k * u >= u && k * theta >= theta
    ensures k <= -1 ==> k * u <= -u && k * u - k * theta <= theta - u
  {
    if k >= 1 {
      Scale(1, k, theta);
      Scale(1, k, u);
    } else if k <= -1 {
      Scale(k, -1, u);
      Scale(k, -1, u - theta);
      assert k * (u - theta) == k * u - k * theta;
    }
  }

  /** On one row: moving k units away from the chosen amount costs at least their price. */
  lemma RowPrice(u: int, r: int, theta: int, chosen: bool, k: int)
    requires 0 <= r <= u && 0 <= theta <= u && if chosen then r >= theta else r <= theta
    ensures var start := if chosen then u - r else -r;
            Abs(start + k * u) >= Abs(start) + (u - 2 * theta) * k
  {
    Multiples(u, theta, k);
    PriceOf(u, theta, k);
    RowPriceLinear(u, r, theta, chosen, k, k * u, k * theta);
  }

  lemma RowDeviates(pool: int, items: seq<Weighted>, theta: int, w: Weighted, b: int)
    requires Shareable(pool, items) && w in items && 0 <= theta <= Total(items) && Separates(theta, pool, items, w)
    ensures var total, a := Total(items), Amount(pool, items)(w);
            Abs(b * total - pool * w.weight) >= Abs(a * total - pool * w.weight) + (total - 2 * theta) * (b - a)
  {
    var total, chosen := Total(items), w in Lucky(pool, items);
    assert Amount(pool, items)(w) == pool * w.weight / total + if chosen then 1 else 0;
    assert if chosen then pool * w.weight % total >= theta else pool * w.weight % total <= theta;
    assert total > 0 && pool >= 0 && w.weight >= 0;
    hide *;
    RowDeviatesBy(pool, w.weight, total, theta, chosen, b);
  }

  lemma RowDeviatesBy(pool: int, weight: int, total: int, theta: int, chosen: bool, b: int)
    requires total > 0 && pool >= 0 && weight >= 0 && 0 <= theta <= total
    requires if chosen then pool * weight % total >= theta else pool * weight % total <= theta
    ensures var a := pool * weight / total + if chosen then 1 else 0;
            Abs(b * total - pool * weight) >= Abs(a * total - pool * weight) + (total - 2 * theta) * (b - a)
  {
    Division(pool, weight, total);
    var x := pool * weight;
    var q, r := x / total, x % total;
    hide *;
    RowDeviatesFrom(total, x, q, r, theta, chosen, b);
  }

  lemma RowDeviatesFrom(total: int, x: int, q: int, r: int, theta: int, chosen: bool, b: int)
    requires r == x - total * q && 0 <= r <= total && 0 <= theta <= total && if chosen then r >= theta else r <= theta
    ensures var a := q + if chosen then 1 else 0;
            Abs(b * total - x) >= Abs(a * total - x) + (total - 2 * theta) * (b - a)
  {
    var a := q + if chosen then 1 else 0;
    RowPrice(total, r, theta, chosen, b - a);
    Offsets(total, x, q, chosen, b);
  }

  lemma Offsets(total: int, x: int, q: int, chosen: bool, b: int)
    ensures var r := x - total * q;
            var a := q + if chosen then 1 else 0;
            var start := if chosen then total - r else -r;
            a * total - x == start && b * total - x == start + (b - a) * total
  {
    var a := q + if chosen then 1 else 0;
    assert (b - a) * total == b * total - a * total;
    assert a * total == total * q + if chosen then total else 0;
  }

  /** If each row costs at least a common price per unit moved, and nothing is moved in all, the sum does not fall. */
  lemma MovesDoNotPay<T>(items: seq<T>, a: T -> int, b: T -> int, offA: T -> int, offB: T -> int, price: int)
    requires forall w :: w in items ==> offB(w) >= offA(w) + price * (b(w) - a(w))
    requires SumOf(items, a) == SumOf(items, b)
    ensures SumOf(items, offA) <= SumOf(items, offB)
  {
    var paid := (w: T) => price * (b(w) - a(w));
    var moved := (w: T) => b(w) - a(w);
    var best := (w: T) => offA(w) + paid(w);
    SumBelow(items, best, offB);
    SumPlus(items, offA, paid, best);
    SumScale(items, moved, price, paid);
    SumPlus(items, a, moved, b);
  }

  /** No integer allocation of the same pool is closer to the exact shares. */
  lemma NothingIsCloser(pool: int, items: seq<Weighted>, b: Weighted -> int)
    requires Shareable(pool, items) && SumOf(items, b) == pool
    ensures Deviation(pool, items, Amount(pool, items)) <= Deviation(pool, items, b)
  {
    hide Separates, Lucky, Leftover, Ranking, Amount, Total, SumOf;
    var total, a := Total(items), Amount(pool, items);
    var theta := Threshold(pool, items);
    AmountsAddUp(pool, items);
    forall w | w in items ensures Off(pool, total, b)(w) >= Off(pool, total, a)(w) + (total - 2 * theta) * (b(w) - a(w)) {
      RowDeviates(pool, items, theta, w, b(w));
    }
    MovesDoNotPay(items, a, b, Off(pool, total, a), Off(pool, total, b), total - 2 * theta);
  }
}
