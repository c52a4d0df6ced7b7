/** Dividing by equal weights is dividing equally. */
module AllocationEqual {
  import opened Basics
  import opened Sorting
  import opened Sums
  import opened Allocation
  import opened AllocationFacts

  function WithWeight(weight: int): Id -> Weighted { (id: Id) => Weighted(id, weight) }

  function Items(ids: seq<Id>, weight: int): (items: seq<Weighted>)
    ensures |items| == |ids| && forall i :: 0 <= i < |ids| ==> items[i] == Weighted(ids[i], weight)
  {
    Map(ids, WithWeight(weight))
  }

  lemma ItemsKeepIds(ids: seq<Id>, weight: int)
    ensures Map(Items(ids, weight), ItemId()) == ids
    ensures Total(Items(ids, weight)) == weight * |ids|
  {
    var items := Items(ids, weight);
    assert forall i :: 0 <= i < |ids| ==> Map(items, ItemId())[i] == ids[i];
    assert Map(items, ItemId()) == ids;
    SumConstant(items, WeightOf(), weight);
  }

  lemma EqualDivision(pool: int, weight: int, n: int)
    requires pool >= 0 && weight > 0 && n > 0
    ensures weight * n > 0
    ensures pool * weight / (weight * n) == pool / n && pool * weight % (weight * n) == pool % n * weight
  {
    var q, r := pool / n, pool % n;
    var x, y := pool * weight, weight * n;
    assert pool == n * q + r;
    assert x == (n * q + r) * weight == (n * q) * weight + r * weight;
    assert (n * q) * weight == q * y;
    Scale(r + 1, n, weight);
    assert (r + 1) * weight == r * weight + weight && n * weight == y;
    Scale(0, r, weight);
    Quotient(x, y, q, r * weight);
  }

  lemma Quotient(x: int, y: int, q: int, r: int)
    requires y > 0 && x == q * y + r && 0 <= r < y
    ensures x / y == q && x % y == r
  {
    assert x == y * (x / y) + x % y;
    var d := x / y - q;
    assert d * y == y * (x / y) - q * y == r - x % y;
    Scale(1, d, y);
    Scale(d, -1, y);
  }

  /** What both divide: a pool, distinct ids and one positive weight. */
  ghost predicate EquallyShareable(pool: int, ids: seq<Id>, weight: int) {
    pool >= 0 && weight > 0 && ids != [] && Unique(ids)
  }

  lemma IsShareable(pool: int, ids: seq<Id>, weight: int)
    requires EquallyShareable(pool, ids, weight)
    ensures Shareable(pool, Items(ids, weight))
  {
    ItemsKeepIds(ids, weight);
    Product(weight - 1, |ids| - 1);
    assert weight * |ids| > 0;
    DistinctIds(Items(ids, weight));
  }

  lemma EverybodyHasWeight(ids: seq<Id>, weight: int)
    requires weight > 0
    ensures Filter(Items(ids, weight), HasWeight()) == Items(ids, weight)
  {
    KeepsAll(Items(ids, weight), HasWeight());
  }

  lemma EqualFloors(pool: int, ids: seq<Id>, weight: int)
    requires EquallyShareable(pool, ids, weight)
    ensures Total(Items(ids, weight)) > 0
    ensures forall w :: w in Items(ids, weight) ==> Floor(pool, Total(Items(ids, weight)))(w) == pool / |ids|
  {
    ItemsKeepIds(ids, weight);
    EqualDivision(pool, weight, |ids|);
  }

  lemma EqualLeftover(pool: int, ids: seq<Id>, weight: int)
    requires EquallyShareable(pool, ids, weight)
    ensures Total(Items(ids, weight)) > 0 && Leftover(pool, Items(ids, weight)) == pool % |ids|
  {
    EqualFloors(pool, ids, weight);
    var items := Items(ids, weight);
    var floor, base := Floor(pool, Total(items)), pool / |ids|;
    SumConstant(items, floor, base);
    assert SumOf(items, floor) == base * |ids|;
    hide SumOf, Items, Floor;
    assert pool == base * |ids| + pool % |ids|;
  }

  lemma {:induction false} KeepsAll<T>(xs: seq<T>, keep: T -> bool)
    requires forall x :: x in xs ==> keep(x)
    ensures Filter(xs, keep) == xs
  {
    if xs != [] { KeepsAll(xs[1..], keep); }
  }

  lemma RankingPermutesItems(pool: int, ids: seq<Id>, weight: int)
    requires EquallyShareable(pool, ids, weight) && Shareable(pool, Items(ids, weight))
    ensures multiset(Ranking(pool, Items(ids, weight))) == multiset(Items(ids, weight))
    ensures |Ranking(pool, Items(ids, weight))| == |ids|
    ensures forall w :: w in Ranking(pool, Items(ids, weight)) ==> w in Items(ids, weight) && w.weight == weight
  {
    EverybodyHasWeight(ids, weight);
    RankingPermutes(pool, Items(ids, weight));
    SameElements(Ranking(pool, Items(ids, weight)), Items(ids, weight));
  }

  lemma RankedAscends(pool: int, ids: seq<Id>, weight: int)
    requires EquallyShareable(pool, ids, weight) && Shareable(pool, Items(ids, weight))
    ensures Ascending(Map(Ranking(pool, Items(ids, weight)), ItemId()), IdOf(), IdLess)
  {
    var items := Items(ids, weight);
    var ranking, place := Ranking(pool, items), PlaceOf(pool, Total(items));
    RankingPermutesItems(pool, ids, weight);
    RankingAscends(pool, items);
    hide Ranking, Shareable, Total, Items;
    forall i, j | 0 <= i < j < |ranking| ensures ranking[i].id < ranking[j].id {
      assert ranking[i] in ranking && ranking[j] in ranking;
      assert Ahead(place(ranking[i]), place(ranking[j]));
    }
  }

  /** All remainders are equal, so the ranking is the order of the ids. */
  lemma RankedById(pool: int, ids: seq<Id>, weight: int)
    requires EquallyShareable(pool, ids, weight) && Shareable(pool, Items(ids, weight))
    ensures Map(Ranking(pool, Items(ids, weight)), ItemId()) == Sort(ids, IdOf(), IdLess)
  {
    var items := Items(ids, weight);
    var ranked, sorted := Map(Ranking(pool, items), ItemId()), Sort(ids, IdOf(), IdLess);
    RankedAscends(pool, ids, weight);
    RankingPermutesItems(pool, ids, weight);
    MapPermutes(Ranking(pool, items), items, ItemId());
    ItemsKeepIds(ids, weight);
    hide Ranking, Shareable, Total, Items;
    UniqueMeansDistinct(ids);
    SortPermutes(ids, IdOf(), IdLess);
    AheadIsTotal();
    SortAscends(ids, IdOf(), IdLess);
    SameElements(ranked, sorted);
    SameElements(sorted, ranked);
    AscendingUnique(ranked, sorted, IdOf(), IdLess);
  }

  lemma LuckyExactlyFirst(pool: int, ids: seq<Id>, weight: int, k: nat)
    requires EquallyShareable(pool, ids, weight) && Shareable(pool, Items(ids, weight))
    requires k < |Ranking(pool, Items(ids, weight))|
    ensures Ranking(pool, Items(ids, weight))[k] in Lucky(pool, Items(ids, weight)) <==> k < pool % |ids|
  {
    var items, n := Items(ids, weight), pool % |ids|;
    var ranking := Ranking(pool, items);
    EqualLeftover(pool, ids, weight);
    LeftoverIsPlaced(pool, items);
    RankingAscends(pool, items);
    AheadIsTotal();
    assert Lucky(pool, items) == ranking[..n];
    hide Ranking, Shareable, Total, Items, Leftover, Lucky;
    NotTwice(ranking, n, ranking[k], PlaceOf(pool, Total(items)), Ahead);
    if k < n { assert ranking[..n][k] == ranking[k]; } else { assert ranking[n..][k - n] == ranking[k]; }
  }

  lemma SharesInOrder(pool: int, ids: seq<Id>, weight: int)
    requires EquallyShareable(pool, ids, weight) && Shareable(pool, Items(ids, weight))
    ensures var items := Items(ids, weight);
            Map(Ranking(pool, items), ShareOf(pool, items)) == EqualShares(Sort(ids, IdOf(), IdLess), pool / |ids|, pool % |ids|)
  {
    var items, n := Items(ids, weight), pool % |ids|;
    var ranking, sorted := Ranking(pool, items), Sort(ids, IdOf(), IdLess);
    RankedById(pool, ids, weight);
    RankingPermutesItems(pool, ids, weight);
    ItemsKeepIds(ids, weight);
    EqualDivision(pool, weight, |ids|);
    var l, r := Map(ranking, ShareOf(pool, items)), EqualShares(sorted, pool / |ids|, n);
    assert forall k :: 0 <= k < |ids| ==> Map(ranking, ItemId())[k] == sorted[k];
    forall k | 0 <= k < |ranking| ensures ranking[k] in Lucky(pool, items) <==> k < n { LuckyExactlyFirst(pool, ids, weight, k); }
    hide Ranking, Shareable, Items, Lucky;
    forall k | 0 <= k < |ranking| ensures l[k] == r[k] {
      assert ranking[k].weight == weight && ranking[k].id == sorted[k];
      assert Amount(pool, items)(ranking[k]) == pool / |ids| + if k < n then 1 else 0;
    }
  }

  /** With one positive weight for all, both methods give the same shares. */
  lemma EqualWeightsShareEqually(pool: int, ids: seq<Id>, weight: int)
    requires EquallyShareable(pool, ids, weight)
    ensures ByWeight(pool, Items(ids, weight)) == AllocateEqual(pool, ids)
  {
    var items := Items(ids, weight);
    IsShareable(pool, ids, weight);
    SharesInOrder(pool, ids, weight);
    RankingPermutesItems(pool, ids, weight);
    var r := ResultShares(pool, items);
    var m := ShareOf(pool, items);
    var e := Map(Ranking(pool, items), m);
    MapPermutes(Ranking(pool, items), items, m);
    SameElements(r, e);
    SameElements(e, r);
    UniqueMeansDistinct(ids);
    AheadIsTotal();
    SortAscends(ids, IdOf(), IdLess);
    assert Ascending(e, ShareId(), IdLess) by {
      var sorted := Sort(ids, IdOf(), IdLess);
      forall i, j | 0 <= i < j < |e| ensures IdLess(ShareId()(e[i]), ShareId()(e[j])) {
        assert IdLess(IdOf()(sorted[i]), IdOf()(sorted[j]));
      }
    }
    AscendingUnique(r, e, ShareId(), IdLess);
  }

  /** Exactly when the two methods agree on one common weight. */
  lemma AgreesExactlyWhen(pool: int, ids: seq<Id>, weight: int)
    ensures ByWeight(pool, Items(ids, weight)) == AllocateEqual(pool, ids) <==>
              || pool < 0 || !Unique(ids)
              || (ids != [] && weight > 0)
              || (pool == 0 && (ids == [] || weight == 0))
  {
    var items := Items(ids, weight);
    ItemsKeepIds(ids, weight);
    if EquallyShareable(pool, ids, weight) {
      EqualWeightsShareEqually(pool, ids, weight);
    } else if pool == 0 && Unique(ids) && ids != [] && weight == 0 {
      ZeroPool(ids);
    } else if pool >= 0 && Unique(ids) && ids != [] && weight < 0 {
      assert items[0].weight < 0;
    }
  }

  lemma ZeroPool(ids: seq<Id>)
    requires Unique(ids) && ids != []
    ensures ByWeight(0, Items(ids, 0)) == AllocateEqual(0, ids)
  {
    var items := Items(ids, 0);
    ItemsKeepIds(ids, 0);
    var zeros := (id: Id) => Share(id, 0);
    assert Map(items, Nothing()) == Map(ids, zeros) by {
      assert forall i :: 0 <= i < |ids| ==> Map(items, Nothing())[i] == Map(ids, zeros)[i];
    }
    SortMap(ids, zeros, IdOf(), ShareId(), IdLess);
    var sorted := Sort(ids, IdOf(), IdLess);
    assert EqualShares(sorted, 0, 0) == Map(sorted, zeros);
  }
}
