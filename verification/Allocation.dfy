/**
 * Exact integer division of a pool: equally, or by weight with the largest-remainder
 * (Hamilton) method. Amounts are whole minor units of unbounded size.
 */
module Allocation {
  import opened Basics
  import opened Sorting
  import opened Sums

  datatype Weighted = Weighted(id: Id, weight: int)

  datatype Share = Share(id: Id, amount: int)

  datatype Problem =
    | NegativeRequest
    | ShareOutOfRange
    | NegativePool
    | DuplicateIds
    | NegativeWeight
    | Nobody
    | NoWeight

  datatype Pools = Pools(partner: int, work: int)

  const BPS_TOTAL := 10000

  /** Divides a request: the floor for the partners, what is left for the work. */
  function SplitPools(requested: int, partnerShareBps: int): Result<Pools, Problem> {
    if requested < 0 then Err(NegativeRequest)
    else if partnerShareBps < 0 || partnerShareBps > BPS_TOTAL then Err(ShareOutOfRange)
    else
      var partner := requested * partnerShareBps / BPS_TOTAL;
      Ok(Pools(partner, requested - partner))
  }

  /** The pools lose nothing, and any odd minor unit falls to the work pool. */
  lemma PoolsAreExact(requested: int, bps: int)
    ensures SplitPools(requested, bps).Ok? <==> requested >= 0 && 0 <= bps <= BPS_TOTAL
    ensures SplitPools(requested, bps).Ok? ==>
              var p := SplitPools(requested, bps).value;
              && 0 <= p.partner && 0 <= p.work && p.partner + p.work == requested
              && p.partner * BPS_TOTAL <= requested * bps < (p.partner + 1) * BPS_TOTAL
              && (p.work - 1) * BPS_TOTAL < requested * (BPS_TOTAL - bps) <= p.work * BPS_TOTAL
  {
    if requested >= 0 && 0 <= bps <= BPS_TOTAL {
      Product(requested, bps);
      Product(requested, BPS_TOTAL - bps);
      var x, q := requested * bps, requested * bps / BPS_TOTAL;
      assert requested * (BPS_TOTAL - bps) == requested * BPS_TOTAL - x;
      assert q * BPS_TOTAL <= x < q * BPS_TOTAL + BPS_TOTAL;
    }
  }

  lemma Product(a: int, b: int)
    requires a >= 0 && b >= 0
    ensures a * b >= 0
  {
  }

  // ----- identities -------------------------------------------------------------------------

  predicate IdLess(a: Id, b: Id) { a < b }

  function SetOf(ids: seq<Id>): set<Id> { set i | 0 <= i < |ids| :: ids[i] }

  predicate Unique(ids: seq<Id>) { |SetOf(ids)| == |ids| }

  lemma HeadAdds(ids: seq<Id>)
    requires ids != []
    ensures |SetOf(ids)| == |SetOf(ids[1..])| + if ids[0] in ids[1..] then 0 else 1
  {
    var rest := ids[1..];
    assert ids == [ids[0]] + rest;
    assert SetOf(ids) == {ids[0]} + SetOf(rest);
    assert ids[0] in SetOf(rest) <==> ids[0] in rest;
    if ids[0] in rest { assert SetOf(ids) == SetOf(rest); }
  }

  /** Counting the distinct ones is how duplicates are found. */
  lemma {:induction false} UniqueMeansDistinct(ids: seq<Id>)
    ensures |SetOf(ids)| <= |ids|
    ensures Unique(ids) <==> forall i, j :: 0 <= i < j < |ids| ==> ids[i] != ids[j]
  {
    if ids != [] {
      var rest := ids[1..];
      UniqueMeansDistinct(rest);
      HeadAdds(ids);
      assert forall i :: 1 <= i < |ids| ==> ids[i] == rest[i - 1];
      assert forall i :: 0 <= i < |rest| ==> rest[i] == ids[i + 1];
      hide SetOf;
      if ids[0] in rest {
        var k :| 0 <= k < |rest| && rest[k] == ids[0];
        assert ids[0] == ids[k + 1];
      }
    }
  }

  function IdOf(): Id -> Id { (id: Id) => id }
  function ItemId(): Weighted -> Id { (w: Weighted) => w.id }
  function ShareId(): Share -> Id { (s: Share) => s.id }
  function AmountIn(): Share -> int { (s: Share) => s.amount }

  // ----- equal parts ------------------------------------------------------------------------

  /** The first `extra` of the sorted ids get one unit more than the base. */
  function EqualShares(ids: seq<Id>, base: int, extra: int): (shares: seq<Share>)
    ensures |shares| == |ids|
    ensures forall i :: 0 <= i < |ids| ==> shares[i] == Share(ids[i], base + if i < extra then 1 else 0)
  {
    seq(|ids|, i requires 0 <= i < |ids| => Share(ids[i], base + if i < extra then 1 else 0))
  }

  function AllocateEqual(pool: int, ids: seq<Id>): Result<seq<Share>, Problem> {
    if pool < 0 then Err(NegativePool)
    else if !Unique(ids) then Err(DuplicateIds)
    else if |ids| == 0 then if pool == 0 then Ok([]) else Err(Nobody)
    else Ok(EqualShares(Sort(ids, IdOf(), IdLess), pool / |ids|, pool % |ids|))
  }

  // ----- by weight --------------------------------------------------------------------------

  /** The place of a row in the ranking for leftover units: larger remainder first, then smaller id. */
  datatype Place = Place(remainder: int, id: Id)

  predicate Ahead(a: Place, b: Place) {
    a.remainder > b.remainder || (a.remainder == b.remainder && a.id < b.id)
  }

  function WeightOf(): Weighted -> int { (w: Weighted) => w.weight }

  function Total(items: seq<Weighted>): int { SumOf(items, WeightOf()) }

  function Floor(pool: int, total: int): Weighted -> int
    requires total > 0
  {
    (w: Weighted) => pool * w.weight / total
  }

  function Remainder(pool: int, total: int): Weighted -> int
    requires total > 0
  {
    (w: Weighted) => pool * w.weight % total
  }

  function PlaceOf(pool: int, total: int): Weighted -> Place
    requires total > 0
  {
    (w: Weighted) => Place(pool * w.weight % total, w.id)
  }

  function HasWeight(): Weighted -> bool { (w: Weighted) => w.weight > 0 }

  function Leftover(pool: int, items: seq<Weighted>): int
    requires Total(items) > 0
  {
    pool - SumOf(items, Floor(pool, Total(items)))
  }

  function Ranking(pool: int, items: seq<Weighted>): seq<Weighted>
    requires Total(items) > 0
  {
    Sort(Filter(items, HasWeight()), PlaceOf(pool, Total(items)), Ahead)
  }

  /** The rows that get a leftover unit. */
  function Lucky(pool: int, items: seq<Weighted>): seq<Weighted>
    requires Total(items) > 0
  {
    Take(Ranking(pool, items), Leftover(pool, items))
  }

  function Amount(pool: int, items: seq<Weighted>): Weighted -> int
    requires Total(items) > 0
  {
    (w: Weighted) => pool * w.weight / Total(items) + if w in Lucky(pool, items) then 1 else 0
  }

  function ShareOf(pool: int, items: seq<Weighted>): Weighted -> Share
    requires Total(items) > 0
  {
    (w: Weighted) => Share(w.id, Amount(pool, items)(w))
  }

  function Nothing(): Weighted -> Share { (w: Weighted) => Share(w.id, 0) }

  predicate AnyNegative(items: seq<Weighted>) { exists i :: 0 <= i < |items| && items[i].weight < 0 }

  function ByWeight(pool: int, items: seq<Weighted>): Result<seq<Share>, Problem> {
    if pool < 0 then Err(NegativePool)
    else if !Unique(Map(items, ItemId())) then Err(DuplicateIds)
    else if AnyNegative(items) then Err(NegativeWeight)
    else if Total(items) <= 0 then if pool == 0 then Ok(Sort(Map(items, Nothing()), ShareId(), IdLess)) else Err(NoWeight)
    else Ok(Sort(Map(items, ShareOf(pool, items)), ShareId(), IdLess))
  }

  /** What the method divides: a pool, distinct ids, weights that are not negative and not all zero. */
  ghost predicate Shareable(pool: int, items: seq<Weighted>) {
    && pool >= 0 && Total(items) > 0
    && DistinctKeys(items, ItemId())
    && forall w :: w in items ==> w.weight >= 0
  }

  lemma {:induction false} TotalIsPositive(items: seq<Weighted>)
    requires forall w :: w in items ==> w.weight >= 0
    ensures Total(items) >= 0
    ensures Total(items) == 0 <==> forall w :: w in items ==> w.weight == 0
  {
    if items != [] {
      TotalIsPositive(items[1..]);
      assert items == [items[0]] + items[1..];
    }
  }

  lemma DistinctIds(items: seq<Weighted>)
    ensures Unique(Map(items, ItemId())) <==> DistinctKeys(items, ItemId())
  {
    UniqueMeansDistinct(Map(items, ItemId()));
    var ids := Map(items, ItemId());
    if Unique(ids) {
      forall i, j | 0 <= i < j < |items| ensures ItemId()(items[i]) != ItemId()(items[j]) { assert ids[i] != ids[j]; }
    }
  }

  // ----- the leftover -----------------------------------------------------------------------

  lemma Division(pool: int, weight: int, total: int)
    requires pool >= 0 && weight >= 0 && total > 0
    ensures pool * weight == total * (pool * weight / total) + pool * weight % total
    ensures 0 <= pool * weight % total < total && 0 <= pool * weight / total
    ensures weight == 0 ==> pool * weight % total == 0 && pool * weight / total == 0
  {
    Product(pool, weight);
    var x := pool * weight;
    assert x == total * (x / total) + x % total;
  }

  /** The remainders add up to a whole number of totals: the leftover units. */
  lemma RemaindersAddUp(pool: int, items: seq<Weighted>)
    requires Shareable(pool, items)
    ensures SumOf(items, Remainder(pool, Total(items))) == Leftover(pool, items) * Total(items)
  {
    var total := Total(items);
    var scaled, whole := (w: Weighted) => pool * w.weight, (w: Weighted) => total * (pool * w.weight / total);
    forall w | w in items ensures scaled(w) == whole(w) + Remainder(pool, total)(w) { Division(pool, w.weight, total); }
    SumPlus(items, whole, Remainder(pool, total), scaled);
    SumScale(items, WeightOf(), pool, scaled);
    SumScale(items, Floor(pool, total), total, whole);
    var floors := SumOf(items, Floor(pool, total));
    assert (pool - floors) * total == pool * total - total * floors;
  }

  lemma RankingPermutes(pool: int, items: seq<Weighted>)
    requires Total(items) > 0
    ensures multiset(Ranking(pool, items)) == multiset(Filter(items, HasWeight()))
    ensures forall w :: w in Ranking(pool, items) <==> w in items && w.weight > 0
  {
    var kept := Filter(items, HasWeight());
    SortPermutes(kept, PlaceOf(pool, Total(items)), Ahead);
    forall w ensures w in Ranking(pool, items) <==> w in items && w.weight > 0 {
      assert w in Ranking(pool, items) <==> w in multiset(kept);
    }
  }

  lemma AheadIsTotal()
    ensures StrictTotal(Ahead) && StrictTotal(IdLess)
  {
    forall a: Place, b: Place | a != b ensures Ahead(a, b) || Ahead(b, a) {}
  }

  lemma RankingAscends(pool: int, items: seq<Weighted>)
    requires Shareable(pool, items)
    ensures Ascending(Ranking(pool, items), PlaceOf(pool, Total(items)), Ahead)
  {
    var kept, place := Filter(items, HasWeight()), PlaceOf(pool, Total(items));
    FilterDistinct(items, HasWeight(), ItemId());
    forall i, j | 0 <= i < j < |kept| ensures place(kept[i]) != place(kept[j]) {
      assert ItemId()(kept[i]) != ItemId()(kept[j]);
    }
    AheadIsTotal();
    SortAscends(kept, place, Ahead);
  }

  lemma RankedRemainders(pool: int, items: seq<Weighted>)
    requires Shareable(pool, items)
    ensures SumOf(Ranking(pool, items), Remainder(pool, Total(items))) == Leftover(pool, items) * Total(items)
  {
    var total := Total(items);
    RemaindersAddUp(pool, items);
    forall w | w in items && !HasWeight()(w) ensures Remainder(pool, total)(w) == 0 { Division(pool, w.weight, total); }
    SumFilter(items, HasWeight(), Remainder(pool, total));
    RankingPermutes(pool, items);
    SumPermutes(Ranking(pool, items), Filter(items, HasWeight()), Remainder(pool, total));
  }

  lemma {:induction false} SumAtMost<T>(xs: seq<T>, f: T -> int, most: int)
    requires forall x :: x in xs ==> 0 <= f(x) <= most
    ensures 0 <= SumOf(xs, f) <= |xs| * most
  {
    if xs != [] {
      SumAtMost(xs[1..], f, most);
      assert |xs| * most == |xs[1..]| * most + most;
    }
  }

  lemma BehindZeroIsZero(pool: int, items: seq<Weighted>, k: nat, w: Weighted)
    requires Shareable(pool, items) && k < |Ranking(pool, items)| && w in Ranking(pool, items)[k..]
    requires Remainder(pool, Total(items))(Ranking(pool, items)[k]) == 0
    ensures Remainder(pool, Total(items))(w) == 0
  {
    var total, ranking := Total(items), Ranking(pool, items);
    RankingAscends(pool, items);
    RankingPermutes(pool, items);
    assert w in ranking;
    Division(pool, w.weight, total);
    var j :| 0 <= j < |ranking[k..]| && ranking[k..][j] == w;
    hide Ranking, Shareable, Total;
    if j > 0 { assert Ahead(PlaceOf(pool, total)(ranking[k]), PlaceOf(pool, total)(ranking[k + j])); }
  }

  /** Once the ranking reaches remainder 0 every leftover unit has been placed. */
  lemma LuckyHaveRemainders(pool: int, items: seq<Weighted>, k: nat)
    requires Shareable(pool, items) && k < |Ranking(pool, items)|
    requires Remainder(pool, Total(items))(Ranking(pool, items)[k]) == 0
    ensures Leftover(pool, items) <= k
  {
    var total, ranking, rem := Total(items), Ranking(pool, items), Remainder(pool, Total(items));
    forall w | w in ranking[k..] ensures rem(w) == 0 { BehindZeroIsZero(pool, items, k, w); }
    forall w | w in ranking ensures 0 <= rem(w) <= total - 1 { RankingPermutes(pool, items); Division(pool, w.weight, total); }
    RankedRemainders(pool, items);
    hide Ranking, Shareable, Leftover, Total;
    assert ranking == ranking[..k] + ranking[k..];
    SumAppend(ranking[..k], ranking[k..], rem);
    SumAtMost(ranking[..k], rem, total - 1);
    SumAtMost(ranking[k..], rem, 0);
    Fits(Leftover(pool, items), total, k);
  }

  lemma Scale(a: int, b: int, c: int)
    requires c >= 0
    ensures a <= b ==> a * c <= b * c
  {
  }

  lemma Fits(n: int, total: int, k: int)
    requires total > 0 && k >= 0 && 0 <= n * total <= k * (total - 1)
    ensures 0 <= n <= k && (k > 0 ==> n < k)
  {
    Scale(k, n, total);
    Scale(n, -1, total);
    assert k * (total - 1) == k * total - k;
  }

  function Uneven(pool: int, total: int): Weighted -> bool
    requires total > 0
  {
    (w: Weighted) => pool * w.weight % total != 0
  }

  lemma LeftoverFitsRanking(pool: int, items: seq<Weighted>)
    requires Shareable(pool, items)
    ensures 0 <= Leftover(pool, items) <= |Ranking(pool, items)|
  {
    var total, ranking, rem := Total(items), Ranking(pool, items), Remainder(pool, Total(items));
    RankedRemainders(pool, items);
    forall w | w in ranking ensures 0 <= rem(w) <= total - 1 { RankingPermutes(pool, items); Division(pool, w.weight, total); }
    hide Ranking, Shareable, Leftover, Total;
    SumAtMost(ranking, rem, total - 1);
    Fits(Leftover(pool, items), total, |ranking|);
  }

  lemma LeftoverBelowUneven(pool: int, items: seq<Weighted>)
    requires Shareable(pool, items)
    ensures var uneven := |Filter(items, Uneven(pool, Total(items)))|;
            Leftover(pool, items) == 0 || Leftover(pool, items) < uneven
  {
    var total, rem := Total(items), Remainder(pool, Total(items));
    var uneven := Filter(items, Uneven(pool, total));
    RemaindersAddUp(pool, items);
    SumFilter(items, Uneven(pool, total), rem);
    forall w | w in uneven ensures 0 <= rem(w) <= total - 1 { Division(pool, w.weight, total); }
    hide Ranking, Shareable, Leftover, Total;
    SumAtMost(uneven, rem, total - 1);
    Fits(Leftover(pool, items), total, |uneven|);
  }

  /**
   * The leftover is never negative, and is strictly below the number of rows with a
   * non-zero remainder, or zero: the loop over the ranking always exhausts it.
   */
  lemma LeftoverIsPlaced(pool: int, items: seq<Weighted>)
    requires Shareable(pool, items)
    ensures 0 <= Leftover(pool, items) <= |Ranking(pool, items)|
    ensures Leftover(pool, items) == 0 || Leftover(pool, items) < |Filter(items, Uneven(pool, Total(items)))|
  {
    LeftoverFitsRanking(pool, items);
    LeftoverBelowUneven(pool, items);
  }

  // ----- the total --------------------------------------------------------------------------

  lemma {:induction false} SumConstant<T>(xs: seq<T>, f: T -> int, c: int)
    requires forall x :: x in xs ==> f(x) == c
    ensures SumOf(xs, f) == c * |xs|
  {
    if xs != [] { SumConstant(xs[1..], f, c); }
  }

  /** In a strictly ascending sequence, what follows position n does not stand before it. */
  lemma NotTwice<T, K(!new)>(xs: seq<T>, n: nat, w: T, key: T -> K, lt: (K, K) -> bool)
    requires n <= |xs| && Ascending(xs, key, lt) && StrictTotal(lt)
    ensures w in xs[n..] ==> w !in xs[..n]
  {
  }

  lemma CountsFirst<T, K(!new)>(xs: seq<T>, n: nat, unit: T -> int, key: T -> K, lt: (K, K) -> bool)
    requires n <= |xs| && Ascending(xs, key, lt) && StrictTotal(lt)
    requires forall x :: x in xs ==> unit(x) == if x in xs[..n] then 1 else 0
    ensures SumOf(xs, unit) == n
  {
    var first, last := xs[..n], xs[n..];
    assert xs == first + last;
    forall x | x in first ensures unit(x) == 1 { assert x in xs; }
    forall x | x in last ensures unit(x) == 0 {
      assert x in xs;
      NotTwice(xs, n, x, key, lt);
    }
    SumConstant(first, unit, 1);
    SumConstant(last, unit, 0);
    SumAppend(first, last, unit);
  }

  lemma LuckyCount(pool: int, items: seq<Weighted>, unit: Weighted -> int)
    requires Shareable(pool, items)
    requires forall w :: unit(w) == if w in Lucky(pool, items) then 1 else 0
    ensures SumOf(items, unit) == Leftover(pool, items)
  {
    var ranking, n := Ranking(pool, items), Leftover(pool, items);
    LeftoverIsPlaced(pool, items);
    assert Lucky(pool, items) == ranking[..n];
    RankingPermutes(pool, items);
    RankingAscends(pool, items);
    hide Ranking, Shareable, Leftover, Total, Lucky;
    SumPermutes(ranking, Filter(items, HasWeight()), unit);
    assert forall w :: w in ranking[..n] ==> w in ranking;
    SumFilter(items, HasWeight(), unit);
    AheadIsTotal();
    CountsFirst(ranking, n, unit, PlaceOf(pool, Total(items)), Ahead);
  }

  lemma AmountsAddUp(pool: int, items: seq<Weighted>)
    requires Shareable(pool, items)
    ensures SumOf(items, Amount(pool, items)) == pool
  {
    var unit := (w: Weighted) => if w in Lucky(pool, items) then 1 else 0;
    LuckyCount(pool, items, unit);
    SumPlus(items, Floor(pool, Total(items)), unit, Amount(pool, items));
  }

  /** A row that gets a leftover unit has weight and a non-zero remainder. */
  lemma LuckyIsUneven(pool: int, items: seq<Weighted>, w: Weighted)
    requires Shareable(pool, items) && w in Lucky(pool, items)
    ensures w in items && w.weight > 0 && pool * w.weight % Total(items) > 0
  {
    var ranking := Ranking(pool, items);
    LeftoverIsPlaced(pool, items);
    RankingPermutes(pool, items);
    var k :| 0 <= k < |ranking| && k < Leftover(pool, items) && ranking[k] == w;
    Division(pool, w.weight, Total(items));
    if pool * w.weight % Total(items) == 0 { LuckyHaveRemainders(pool, items, k); }
  }
}
