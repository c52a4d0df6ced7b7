/**
 * The weighted allocation as it runs: one mutable row per item, shared between the list
 * of rows and the ranking, and a loop that hands out the leftover units.
 */
module AllocationRows {
  import opened Basics
  import opened Sorting
  import opened Sums
  import opened Allocation
  import opened AllocationFacts

  class Row {
    const id: Id
    const remainder: int
    const weight: int
    var amount: int

    constructor (id: Id, amount: int, remainder: int, weight: int)
      ensures this.id == id && this.amount == amount && this.remainder == remainder && this.weight == weight
    {
      this.id := id;
      this.amount := amount;
      this.remainder := remainder;
      this.weight := weight;
    }
  }

  function ItemOf(): Row -> Weighted { (r: Row) => Weighted(r.id, r.weight) }
  function RowPlace(): Row -> Place { (r: Row) => Place(r.remainder, r.id) }
  function Worked(): Row -> bool { (r: Row) => r.weight > 0 }

  function Allocated(rows: seq<Row>): int
    reads rows
  {
    if rows == [] then 0 else rows[0].amount + Allocated(rows[1..])
  }

  function Shares(rows: seq<Row>): (shares: seq<Share>)
    reads rows
    ensures |shares| == |rows| && forall k :: 0 <= k < |rows| ==> shares[k] == Share(rows[k].id, rows[k].amount)
  {
    if rows == [] then [] else [Share(rows[0].id, rows[0].amount)] + Shares(rows[1..])
  }

  /** The fixed fields of the rows are those of the items. */
  ghost predicate RowsOf(rows: seq<Row>, pool: int, total: int, items: seq<Weighted>)
    requires total > 0
  {
    && |rows| == |items|
    && (forall k :: 0 <= k < |rows| ==>
          rows[k].id == items[k].id && rows[k].weight == items[k].weight && rows[k].remainder == pool * items[k].weight % total)
    && (forall k, l :: 0 <= k < l < |rows| ==> rows[k] != rows[l])
  }

  method MakeRows(pool: int, total: int, items: seq<Weighted>) returns (rows: seq<Row>)
    requires total > 0
    ensures RowsOf(rows, pool, total, items)
    ensures forall k :: 0 <= k < |rows| ==> fresh(rows[k]) && rows[k].amount == pool * items[k].weight / total
  {
    rows := [];
    var i := 0;
    while i < |items|
      invariant 0 <= i <= |items| && |rows| == i
      invariant RowsOf(rows, pool, total, items[..i])
      invariant forall k :: 0 <= k < |rows| ==> fresh(rows[k]) && rows[k].amount == pool * items[k].weight / total
    {
      var scaled := pool * items[i].weight;
      var row := new Row(items[i].id, scaled / total, scaled % total, items[i].weight);
      assert items[..i + 1][..i] == items[..i];
      rows := rows + [row];
      i := i + 1;
    }
    assert items[..i] == items;
  }

  lemma {:induction false} AllocatedIsSum(rows: seq<Row>, items: seq<Weighted>, f: Weighted -> int)
    requires |rows| == |items| && forall k :: 0 <= k < |rows| ==> rows[k].amount == f(items[k])
    ensures Allocated(rows) == SumOf(items, f)
  {
    if rows != [] { AllocatedIsSum(rows[1..], items[1..], f); }
  }

  /** The ranking of the rows is the ranking of the items they stand for. */
  lemma RankingOfRows(rows: seq<Row>, pool: int, items: seq<Weighted>)
    requires Total(items) > 0 && RowsOf(rows, pool, Total(items), items)
    ensures Map(Sort(Filter(rows, Worked()), RowPlace(), Ahead), ItemOf()) == Ranking(pool, items)
    ensures forall r :: r in Sort(Filter(rows, Worked()), RowPlace(), Ahead) ==> r in rows
  {
    var kept, place := Filter(rows, Worked()), PlaceOf(pool, Total(items));
    assert Map(rows, ItemOf()) == items;
    FilterMap(rows, ItemOf(), Worked(), HasWeight());
    forall r | r in kept ensures place(ItemOf()(r)) == RowPlace()(r) {
      assert r in rows;
    }
    SortMap(kept, ItemOf(), RowPlace(), place, Ahead);
    SortPermutes(kept, RowPlace(), Ahead);
    SameElements(Sort(kept, RowPlace(), Ahead), kept);
  }

  /** What the rows hold once the first n of the ranking got their unit. */
  ghost predicate Handed(rows: seq<Row>, pool: int, items: seq<Weighted>, n: nat)
    requires Total(items) > 0 && |rows| == |items| && n <= |Ranking(pool, items)|
    reads rows
  {
    forall k :: 0 <= k < |rows| ==>
      rows[k].amount == pool * items[k].weight / Total(items) + if items[k] in Ranking(pool, items)[..n] then 1 else 0
  }

  lemma NextInRanking(pool: int, items: seq<Weighted>, n: nat, w: Weighted)
    requires Shareable(pool, items) && n < |Ranking(pool, items)|
    ensures var ranking := Ranking(pool, items);
            && (w in ranking[..n + 1] <==> w in ranking[..n] || w == ranking[n])
            && ranking[n] !in ranking[..n]
  {
    var ranking := Ranking(pool, items);
    RankingAscends(pool, items);
    AheadIsTotal();
    hide Ranking, Shareable;
    assert ranking[..n + 1] == ranking[..n] + [ranking[n]];
    assert ranking[n..][0] == ranking[n];
    NotTwice(ranking, n, ranking[n], PlaceOf(pool, Total(items)), Ahead);
  }

  method GiveUnit(row: Row, ghost rows: seq<Row>, ghost pool: int, ghost items: seq<Weighted>, ghost n: nat)
    requires Shareable(pool, items) && RowsOf(rows, pool, Total(items), items) && row in rows
    requires n < |Ranking(pool, items)| && Ranking(pool, items)[n] == Weighted(row.id, row.weight)
    requires Handed(rows, pool, items, n)
    modifies row`amount
    ensures row.amount == old(row.amount) + 1
    ensures Handed(rows, pool, items, n + 1)
  {
    row.amount := row.amount + 1;
    forall k | 0 <= k < |rows|
      ensures rows[k].amount == pool * items[k].weight / Total(items) + if items[k] in Ranking(pool, items)[..n + 1] then 1 else 0
    {
      NextInRanking(pool, items, n, items[k]);
      var j :| 0 <= j < |rows| && rows[j] == row;
      if k != j { assert ItemId()(items[if k < j then k else j]) != ItemId()(items[if k < j then j else k]); }
    }
  }

  /** One unit to each row of the ranking, from the first, until the leftover is spent. */
  method HandOut(rows: seq<Row>, ranking: seq<Row>, leftover: int, ghost pool: int, ghost items: seq<Weighted>) returns (left: int)
    requires Shareable(pool, items) && RowsOf(rows, pool, Total(items), items) && Handed(rows, pool, items, 0)
    requires Map(ranking, ItemOf()) == Ranking(pool, items) && forall r :: r in ranking ==> r in rows
    requires 0 <= leftover <= |ranking|
    modifies rows
    ensures left == 0 && Handed(rows, pool, items, leftover)
  {
    left := leftover;
    var i := 0;
    while i < |ranking|
      invariant 0 <= i <= |ranking| && left == leftover - i && left >= 0
      invariant Handed(rows, pool, items, i)
    {
      if left == 0 { break; }
      assert ranking[i] in rows && Map(ranking, ItemOf())[i] == ItemOf()(ranking[i]);
      GiveUnit(ranking[i], rows, pool, items, i);
      left := left - 1;
      i := i + 1;
    }
  }

  lemma HandedShares(rows: seq<Row>, pool: int, items: seq<Weighted>)
    requires Shareable(pool, items) && RowsOf(rows, pool, Total(items), items) && 0 <= Leftover(pool, items) <= |Ranking(pool, items)|
    requires Handed(rows, pool, items, Leftover(pool, items))
    ensures Shares(rows) == Map(items, ShareOf(pool, items))
  {
    assert Lucky(pool, items) == Ranking(pool, items)[..Leftover(pool, items)];
    hide Ranking, Shareable, Total, Leftover, Lucky;
    var l, r := Shares(rows), Map(items, ShareOf(pool, items));
    forall k | 0 <= k < |rows| ensures l[k] == r[k] {
      assert rows[k].amount == Amount(pool, items)(items[k]);
    }
  }

  /** Largest remainder, step by step; the final check that the amounts add up never fails. */
  method AllocateByWeight(pool: int, items: seq<Weighted>) returns (r: Result<seq<Share>, Problem>)
    ensures r == ByWeight(pool, items)
  {
    if pool < 0 { return Err(NegativePool); }
    if !Unique(Map(items, ItemId())) { return Err(DuplicateIds); }
    if AnyNegative(items) { return Err(NegativeWeight); }
    var total := Total(items);
    TotalIsPositive(items);
    if total == 0 {
      if pool == 0 { return Ok(Sort(Map(items, Nothing()), ShareId(), IdLess)); }
      return Err(NoWeight);
    }
    DistinctIds(items);
    var result := Distribute(pool, items, total);
    return Ok(result);
  }

  method Distribute(pool: int, items: seq<Weighted>, total: int) returns (result: seq<Share>)
    requires Shareable(pool, items) && total == Total(items)
    ensures Ok(result) == ByWeight(pool, items)
  {
    hide SumOf, Lucky, Sort, Amount, Filter;
    var rows := MakeRows(pool, total, items);
    AllocatedIsSum(rows, items, Floor(pool, total));
    var leftover := pool - Allocated(rows);
    var ranking := Sort(Filter(rows, Worked()), RowPlace(), Ahead);
    RankingOfRows(rows, pool, items);
    LeftoverIsPlaced(pool, items);
    leftover := HandOut(rows, ranking, leftover, pool, items);
    HandedShares(rows, pool, items);
    result := Sort(Shares(rows), ShareId(), IdLess);
    var expected := ResultShares(pool, items);
    ResultAddsUp(pool, items);
    var sum := SumOf(result, AmountIn());
    if leftover != 0 || sum != pool { assert false; }
  }
}
