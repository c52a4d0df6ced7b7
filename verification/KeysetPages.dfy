/** Keyset pagination by (time, id) descending: following the cursor lists everything once. */
module KeysetPages {
  import opened Basics
  import opened Sorting
  import opened Sums

  /** A listed row: its sort key and the rest of it. Agreements sort by receipt time, shifts by work date. */
  datatype Key = Key(time: int, id: Id)

  datatype Row = Row(key: Key, content: string)

  predicate Later(a: Key, b: Key) { a.time > b.time || (a.time == b.time && a.id > b.id) }

  function KeyOf(): Row -> Key { (r: Row) => r.key }

  /** The filter of a page: the query's own, and everything strictly behind the cursor. */
  function Wanted(keep: Row -> bool, cursor: Option<Key>): Row -> bool {
    (r: Row) => keep(r) && (cursor.None? || r.key.time < cursor.value.time || (r.key.time == cursor.value.time && r.key.id < cursor.value.id))
  }

  datatype Page = Page(items: seq<Row>, next: Option<Key>)

  /** One row more than the limit is read, only to know whether another page follows. */
  function List(table: seq<Row>, keep: Row -> bool, cursor: Option<Key>, limit: nat): Page
    requires limit >= 1
  {
    var rows := Take(Sort(Filter(table, Wanted(keep, cursor)), KeyOf(), Later), limit + 1);
    var items := Take(rows, limit);
    Page(items, if |rows| > limit then Some(items[|items| - 1].key) else None)
  }

  /** Everything the filter selects, newest first. */
  function Everything(table: seq<Row>, keep: Row -> bool): seq<Row> {
    Sort(Filter(table, keep), KeyOf(), Later)
  }

  lemma LaterIsTotal()
    ensures StrictTotal(Later)
  {
    forall a: Key, b: Key | a != b ensures Later(a, b) || Later(b, a) {}
  }

  /** The sorted selection: strictly descending keys, exactly the selected rows. */
  lemma Selection(table: seq<Row>, keep: Row -> bool)
    requires DistinctKeys(table, KeyOf())
    ensures Ascending(Everything(table, keep), KeyOf(), Later)
    ensures multiset(Everything(table, keep)) == multiset(Filter(table, keep))
    ensures forall r :: r in Everything(table, keep) <==> r in table && keep(r)
  {
    var kept := Filter(table, keep);
    FilterDistinct(table, keep, KeyOf());
    LaterIsTotal();
    SortAscends(kept, KeyOf(), Later);
    SortPermutes(kept, KeyOf(), Later);
    forall r ensures r in Everything(table, keep) <==> r in table && keep(r) {
      assert r in Everything(table, keep) <==> r in multiset(kept);
    }
  }

  lemma InTail(all: seq<Row>, k: nat, j: nat)
    requires Ascending(all, KeyOf(), Later) && 1 <= k <= |all| && j < |all| && Later(all[k - 1].key, all[j].key)
    ensures all[j] in all[k..]
  {
    LaterIsTotal();
    SmallerFirst(all, KeyOf(), Later, j, k - 1);
    assert all[k..][j - k] == all[j];
  }

  lemma TailIsBehind(all: seq<Row>, k: nat, i: nat)
    requires Ascending(all, KeyOf(), Later) && 1 <= k <= |all| && i < |all| - k
    ensures all[k..][i] == all[k + i] && all[k + i] in all && Later(all[k - 1].key, all[k + i].key)
  {
    assert Later(KeyOf()(all[k - 1]), KeyOf()(all[k + i]));
  }

  lemma TailAscends(all: seq<Row>, k: nat)
    requires Ascending(all, KeyOf(), Later) && k <= |all|
    ensures Ascending(all[k..], KeyOf(), Later)
  {
  }

  /** Behind the cursor of a row lies exactly what follows that row. */
  lemma BehindCursor(table: seq<Row>, keep: Row -> bool, k: nat)
    requires DistinctKeys(table, KeyOf()) && 1 <= k <= |Everything(table, keep)|
    ensures Everything(table, Wanted(keep, Some(Everything(table, keep)[k - 1].key))) == Everything(table, keep)[k..]
  {
    var all := Everything(table, keep);
    var wanted := Wanted(keep, Some(all[k - 1].key));
    var rest := Everything(table, wanted);
    Selection(table, keep);
    Selection(table, wanted);
    hide Everything, DistinctKeys;
    LaterIsTotal();
    forall i | 0 <= i < |rest| ensures rest[i] in all[k..] {
      assert rest[i] in rest;
      var j :| 0 <= j < |all| && all[j] == rest[i];
      assert wanted(all[j]);
      InTail(all, k, j);
    }
    forall i | 0 <= i < |all[k..]| ensures all[k..][i] in rest {
      TailIsBehind(all, k, i);
      assert wanted(all[k + i]);
    }
    TailAscends(all, k);
    hide Ascending, StrictTotal, Wanted;
    AscendingUnique(rest, all[k..], KeyOf(), Later);
  }

  /** The cursor that leads to position k: the key of the row before it. */
  ghost function CursorTo(all: seq<Row>, k: nat): Option<Key>
    requires k <= |all|
  {
    if k == 0 then None else Some(all[k - 1].key)
  }

  lemma SelectionBehind(table: seq<Row>, keep: Row -> bool, k: nat)
    requires DistinctKeys(table, KeyOf()) && k <= |Everything(table, keep)|
    ensures Everything(table, Wanted(keep, CursorTo(Everything(table, keep), k))) == Everything(table, keep)[k..]
  {
    if k == 0 { SameFilter(table, keep); } else { BehindCursor(table, keep, k); }
  }

  /** The first rows of what is left, and one more to see whether anything follows. */
  lemma TakenFrom(all: seq<Row>, k: nat, limit: nat)
    requires k <= |all| && limit >= 1
    ensures var rows := Take(all[k..], limit + 1);
            && (|rows| > limit <==> k + limit < |all|)
            && Take(rows, limit) == (if k + limit < |all| then all[k..k + limit] else all[k..])
  {
    var rows := Take(all[k..], limit + 1);
    if k + limit < |all| {
      assert rows == all[k..k + limit + 1];
      assert rows[..limit] == all[k..k + limit];
    } else {
      assert rows == all[k..];
    }
  }

  /** The page that starts at position k, and the cursor it hands on. */
  lemma PageAt(table: seq<Row>, keep: Row -> bool, limit: nat, k: nat)
    requires DistinctKeys(table, KeyOf()) && limit >= 1 && k <= |Everything(table, keep)|
    ensures var all := Everything(table, keep);
            var page := List(table, keep, CursorTo(all, k), limit);
            if k + limit < |all| then page == Page(all[k..k + limit], CursorTo(all, k + limit)) else page == Page(all[k..], None)
  {
    var all := Everything(table, keep);
    SelectionBehind(table, keep, k);
    TakenFrom(all, k, limit);
    hide Wanted, Filter, Sort, Take, DistinctKeys;
    if k + limit < |all| { assert all[k..k + limit][limit - 1] == all[k + limit - 1]; }
  }

  lemma {:induction false} SameFilter(table: seq<Row>, keep: Row -> bool)
    ensures Filter(table, Wanted(keep, None)) == Filter(table, keep)
  {
    if table != [] { SameFilter(table[1..], keep); }
  }

  lemma {:induction false} FilterShrinks(table: seq<Row>, wide: Row -> bool, narrow: Row -> bool)
    requires forall r :: r in table && narrow(r) ==> wide(r)
    ensures |Filter(table, narrow)| <= |Filter(table, wide)|
    ensures (exists r :: r in table && wide(r) && !narrow(r)) ==> |Filter(table, narrow)| < |Filter(table, wide)|
  {
    if table != [] {
      assert table == [table[0]] + table[1..];
      FilterShrinks(table[1..], wide, narrow);
    }
  }

  lemma InMultiset(rows: seq<Row>, row: Row)
    requires row in multiset(rows)
    ensures row in rows
  {
  }

  lemma OnPage(table: seq<Row>, keep: Row -> bool, cursor: Option<Key>, limit: nat) returns (last: Row)
    requires limit >= 1 && List(table, keep, cursor, limit).next.Some?
    ensures last in table && Wanted(keep, cursor)(last) && List(table, keep, cursor, limit).next == Some(last.key)
  {
    var kept := Filter(table, Wanted(keep, cursor));
    var sorted := Sort(kept, KeyOf(), Later);
    SortPermutes(kept, KeyOf(), Later);
    hide Filter, Sort;
    last := sorted[limit - 1];
    assert Take(Take(sorted, limit + 1), limit)[limit - 1] == last;
    assert last in multiset(sorted);
    InMultiset(kept, last);
  }

  /** A page that hands on a cursor leaves fewer rows behind it. */
  lemma CursorAdvances(table: seq<Row>, keep: Row -> bool, cursor: Option<Key>, limit: nat)
    requires limit >= 1 && List(table, keep, cursor, limit).next.Some?
    ensures |Filter(table, Wanted(keep, List(table, keep, cursor, limit).next))| < |Filter(table, Wanted(keep, cursor))|
  {
    var last := OnPage(table, keep, cursor, limit);
    hide List, Filter;
    FilterShrinks(table, Wanted(keep, cursor), Wanted(keep, Some(last.key)));
    assert Wanted(keep, cursor)(last) && !Wanted(keep, Some(last.key))(last);
  }

  /** What a client sees that asks each next page with the cursor the last page gave it. */
  ghost function Follow(table: seq<Row>, keep: Row -> bool, limit: nat, cursor: Option<Key>): seq<seq<Row>>
    requires limit >= 1
    decreases |Filter(table, Wanted(keep, cursor))|
  {
    var page := List(table, keep, cursor, limit);
    if page.next.None? then [page.items] else
      CursorAdvances(table, keep, cursor, limit);
      [page.items] + Follow(table, keep, limit, page.next)
  }

  function Concat(pages: seq<seq<Row>>): seq<Row> {
    if pages == [] then [] else pages[0] + Concat(pages[1..])
  }

  /** The list cut into pages of the limit, from position k. */
  function Slices(all: seq<Row>, limit: nat, k: nat): seq<seq<Row>>
    requires limit >= 1 && k <= |all|
    decreases |all| - k
  {
    if k + limit < |all| then [all[k..k + limit]] + Slices(all, limit, k + limit) else [all[k..]]
  }

  lemma {:induction false} FollowIsSlices(table: seq<Row>, keep: Row -> bool, limit: nat, k: nat)
    requires DistinctKeys(table, KeyOf()) && limit >= 1 && k <= |Everything(table, keep)|
    ensures Follow(table, keep, limit, CursorTo(Everything(table, keep), k)) == Slices(Everything(table, keep), limit, k)
    decreases |Everything(table, keep)| - k
  {
    hide *;
    PageAt(table, keep, limit, k);
    OnePage(table, keep, limit, CursorTo(Everything(table, keep), k));
    OneSlice(Everything(table, keep), limit, k);
    if k + limit < |Everything(table, keep)| {
      HasNext(Everything(table, keep), k + limit);
      FollowIsSlices(table, keep, limit, k + limit);
    }
  }

  lemma OnePage(table: seq<Row>, keep: Row -> bool, limit: nat, cursor: Option<Key>)
    requires limit >= 1
    ensures var page := List(table, keep, cursor, limit);
            Follow(table, keep, limit, cursor) == if page.next.None? then [page.items] else [page.items] + Follow(table, keep, limit, page.next)
  {
    hide List, Wanted, Filter;
  }

  lemma OneSlice(all: seq<Row>, limit: nat, k: nat)
    requires limit >= 1 && k <= |all|
    ensures Slices(all, limit, k) == if k + limit < |all| then [all[k..k + limit]] + Slices(all, limit, k + limit) else [all[k..]]
  {
  }

  lemma HasNext(all: seq<Row>, k: nat)
    requires 1 <= k <= |all|
    ensures CursorTo(all, k).Some?
  {
  }

  lemma {:induction false} SlicesJoin(all: seq<Row>, limit: nat, k: nat)
    requires limit >= 1 && k <= |all|
    ensures Concat(Slices(all, limit, k)) == all[k..]
    decreases |all| - k
  {
    var pages := Slices(all, limit, k);
    if k + limit < |all| {
      SlicesJoin(all, limit, k + limit);
      assert pages[1..] == Slices(all, limit, k + limit);
      assert all[k..] == all[k..k + limit] + all[k + limit..];
    } else {
      assert pages[1..] == [];
      assert Concat([]) == [];
      assert all[k..] + [] == all[k..];
    }
  }

  /** Every page but the last is full: the pages are as few as they can be. */
  lemma {:induction false} SlicesAreFull(all: seq<Row>, limit: nat, k: nat)
    requires limit >= 1 && k <= |all|
    ensures var pages := Slices(all, limit, k);
            && |pages| >= 1 && |pages[|pages| - 1]| <= limit
            && forall i :: 0 <= i < |pages| - 1 ==> |pages[i]| == limit
    decreases |all| - k
  {
    if k + limit < |all| {
      SlicesAreFull(all, limit, k + limit);
      var rest, pages := Slices(all, limit, k + limit), Slices(all, limit, k);
      assert pages == [all[k..k + limit]] + rest;
      hide Slices;
      assert pages[|pages| - 1] == rest[|rest| - 1];
      forall i | 0 <= i < |pages| - 1 ensures |pages[i]| == limit {
        if i > 0 { assert pages[i] == rest[i - 1]; }
      }
    }
  }

  /**
   * Over an unchanged table, asking each page with the cursor of the last ends, and the pages together are
   * exactly the selected rows, newest first, each once, however many share a time.
   */
  lemma PagesAreComplete(table: seq<Row>, keep: Row -> bool, limit: nat)
    requires DistinctKeys(table, KeyOf()) && limit >= 1
    ensures var seen := Concat(Follow(table, keep, limit, None));
            && Ascending(seen, KeyOf(), Later)
            && multiset(seen) == multiset(Filter(table, keep))
            && forall r :: r in seen <==> r in table && keep(r)
    ensures var pages := Follow(table, keep, limit, None);
            && |pages| >= 1 && |pages[|pages| - 1]| <= limit
            && forall i :: 0 <= i < |pages| - 1 ==> |pages[i]| == limit
  {
    assert CursorTo(Everything(table, keep), 0) == None;
    hide Follow, Slices, Concat, DistinctKeys, Ascending, Everything, CursorTo;
    FollowIsSlices(table, keep, limit, 0);
    SlicesJoin(Everything(table, keep), limit, 0);
    SlicesAreFull(Everything(table, keep), limit, 0);
    Selection(table, keep);
    assert Everything(table, keep)[0..] == Everything(table, keep);
  }
}
