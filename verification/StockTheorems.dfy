/** What every run of sales, debts and restocks guarantees. */
module StockTheorems {
  import opened Basics
  import opened SaleReplay
  import opened Stock
  import opened StockInvariant

  /** Pieces of a product in completed sales, in debts and in restock movements. */
  function Sold(book: Book, p: Id): int {
    if book == [] then 0 else
      Sold(book[..|book| - 1], p) + if book[|book| - 1].Completed? then Demand(book[|book| - 1].req.items, p) else 0
  }

  function Lent(book: Book, p: Id): int {
    if book == [] then 0 else
      var r := book[|book| - 1];
      Lent(book[..|book| - 1], p) + if r.Owed? && r.product == p then r.quantity else 0
  }

  function Supplied(book: Book, p: Id): int {
    if book == [] then 0 else
      var r := book[|book| - 1];
      Supplied(book[..|book| - 1], p) + if r.Restocked? && r.product == p then r.quantity else 0
  }

  lemma {:induction false} MovementIs(book: Book, p: Id)
    ensures Movement(book, p) == Supplied(book, p) - Sold(book, p) - Lent(book, p)
  {
    if book != [] { MovementIs(book[..|book| - 1], p); }
  }

  /**
   * Stock conservation in every run, whatever is interleaved, rolled back or repeated
   * within a sale: stock stays in range and equals what came in minus what went out.
   */
  lemma StockIsConserved(actions: seq<Action>, p: Id)
    ensures var s := Execute(actions);
            p in s.products ==>
              && 0 <= s.products[p].stock <= 2_147_483_647
              && s.products[p].stock == s.products[p].initial + Supplied(s.book, p) - Sold(s.book, p) - Lent(s.book, p)
  {
    Reachable(actions);
    MovementIs(Execute(actions).book, p);
  }

  /** The stock a transaction computed under its lock is still the right one when it writes it. */
  lemma NoUpdateIsLost(actions: seq<Action>, t: TxId)
    ensures var s := Execute(actions);
            t in s.txs && !s.txs[t].job.Restock? && s.txs[t].step.Write? ==>
              var tx := s.txs[t];
              && tx.step.i < |ItemsOf(tx.job)|
              && var item := ItemsOf(tx.job)[tx.step.i];
                 item.product in s.products && tx.step.value == Seen(s.products, tx, item.product) - item.quantity && tx.step.value >= 0
  {
    Reachable(actions);
    var s := Execute(actions);
    if t in s.txs { assert TxOk(s.products, s.book, s.txs[t]); }
  }

  /** One id, one row, and at most one call that says it created it. */
  lemma SalesTakeEffectOnce(actions: seq<Action>, i: nat, j: nat, t: TxId, u: TxId)
    ensures var s := Execute(actions);
            && (i < j < |s.book| && SaleId(s.book[i]).Some? ==> SaleId(s.book[i]) != SaleId(s.book[j]))
            && (t != u && t in s.done && u in s.done && SaysCreated(s.done[t]) && SaysCreated(s.done[u]) ==>
                  s.done[t].job.req.id != s.done[u].job.req.id)
  {
    Reachable(actions);
  }

  ghost predicate Answered(d: Done) { d.job.Sale? && d.outcome in {Created, CreatedRejected, Replayed} }

  ghost predicate SameSale(a: Request, b: Request) {
    && a.id == b.id && a.member == b.member && a.device == b.device && a.currency == b.currency
    && Resolve(a.payment) == Resolve(b.payment) && a.cash == b.cash && a.occurredAt == b.occurredAt
    && multiset(a.items) == multiset(b.items)
  }

  lemma AnsweredFromRow(s: State, t: TxId) returns (k: nat)
    requires Invariant(s) && t in s.done && Answered(s.done[t])
    ensures k < |s.book| && SaleId(s.book[k]).Some? && SameSale(s.book[k].req, s.done[t].job.req)
  {
    var d := s.done[t];
    assert DoneOk(s.book, d);
    var r := if d.outcome == Created then Completed(d.job.req) else if d.outcome == CreatedRejected then Rejected(d.job.req) else
      var r :| r in s.book && SaleId(r) == Some(d.job.req.id) && Accepts(r, d.job.req); r;
    k :| 0 <= k < |s.book| && s.book[k] == r;
    if d.outcome == Replayed { ReplaysExactlyTheSameSale(r.req, r.Rejected?, d.job.req); }
  }

  /** Calls answered without an error for one id all describe the same sale: the stored one. */
  lemma AnswersAgree(actions: seq<Action>, t: TxId, u: TxId)
    requires var s := Execute(actions);
             t in s.done && u in s.done && Answered(s.done[t]) && Answered(s.done[u])
             && s.done[t].job.req.id == s.done[u].job.req.id
    ensures var s := Execute(actions);
            SameSale(s.done[t].job.req, s.done[u].job.req)
  {
    Reachable(actions);
    var s := Execute(actions);
    var k := AnsweredFromRow(s, t);
    var l := AnsweredFromRow(s, u);
    assert k == l;
  }

  function MovedById(book: Book, id: Id, p: Id): int {
    if book == [] then 0 else
      MovedById(book[..|book| - 1], id, p) + if SaleId(book[|book| - 1]) == Some(id) then Moved(book[|book| - 1], p) else 0
  }

  lemma {:induction false} NothingMoved(book: Book, id: Id, p: Id)
    requires forall i :: 0 <= i < |book| ==> SaleId(book[i]) != Some(id)
    ensures MovedById(book, id, p) == 0
  {
    if book != [] { NothingMoved(book[..|book| - 1], id, p); }
  }

  lemma {:induction false} MovedOnce(book: Book, i: nat, id: Id, p: Id)
    requires i < |book| && SaleId(book[i]) == Some(id) && OneRowPerSale(book)
    ensures MovedById(book, id, p) == Moved(book[i], p)
  {
    var before := book[..|book| - 1];
    if i == |book| - 1 {
      forall k | 0 <= k < |before| ensures SaleId(before[k]) != Some(id) {
        assert SaleId(book[k]).Some? ==> SaleId(book[k]) != SaleId(book[i]);
      }
      NothingMoved(before, id, p);
    } else {
      assert OneRowPerSale(before);
      MovedOnce(before, i, id, p);
      assert SaleId(book[i]) != SaleId(book[|book| - 1]);
    }
  }

  /** All the requests carrying an id together move exactly the completed sale's items, and nothing if it is not completed. */
  lemma StockMovesOnlyIfCompleted(actions: seq<Action>, id: Id, p: Id)
    ensures var book := Execute(actions).book;
            && (forall i :: 0 <= i < |book| && book[i].Completed? && book[i].req.id == id ==> MovedById(book, id, p) == -Demand(book[i].req.items, p))
            && ((forall i :: 0 <= i < |book| ==> !(book[i].Completed? && book[i].req.id == id)) ==> MovedById(book, id, p) == 0)
  {
    Reachable(actions);
    var book := Execute(actions).book;
    forall i | 0 <= i < |book| && SaleId(book[i]) == Some(id) ensures MovedById(book, id, p) == Moved(book[i], p) { MovedOnce(book, i, id, p); }
    if forall i :: 0 <= i < |book| ==> SaleId(book[i]) != Some(id) { NothingMoved(book, id, p); }
  }

  /** A product keeps the stock it was entered with as its origin, whatever happens later. */
  predicate SameOrigins(before: map<Id, Product>, after: map<Id, Product>) {
    forall p :: p in before ==> p in after && after[p].initial == before[p].initial && after[p].byQuantity == before[p].byQuantity
  }

  lemma {:induction false} NothingIsRewritten(actions: seq<Action>, more: seq<Action>)
    ensures var s, s' := Execute(actions), Execute(actions + more);
            && s.book <= s'.book && SameOrigins(s.products, s'.products)
            && (forall t :: t in s.done ==> t in s'.done && s'.done[t] == s.done[t])
    decreases |more|
  {
    hide *;
    if more == [] {
      assert actions + more == actions;
      OriginsAreKept(Execute(actions).products);
    } else {
      var last := |more| - 1;
      var run := actions + more[..last];
      assert actions + more == run + [more[last]];
      NothingIsRewritten(actions, more[..last]);
      DoneIsOver(run);
      ExecuteOne(run, more[last]);
      OneMore(Execute(run), more[last]);
      OriginsStay(Execute(actions).products, Execute(run).products, Execute(actions + more).products);
    }
  }

  lemma OriginsAreKept(a: map<Id, Product>)
    ensures SameOrigins(a, a)
  {
  }

  lemma OriginsStay(a: map<Id, Product>, b: map<Id, Product>, c: map<Id, Product>)
    requires SameOrigins(a, b) && SameOrigins(b, c)
    ensures SameOrigins(a, c)
  {
  }

  lemma ExecuteOne(actions: seq<Action>, a: Action)
    ensures Execute(actions + [a]) == Apply(Execute(actions), a)
  {
    assert (actions + [a])[..|actions|] == actions;
  }

  ghost predicate Over(s: State) { s.txs.Keys !! s.done.Keys }

  lemma {:induction false} DoneIsOver(actions: seq<Action>)
    ensures Over(Execute(actions))
  {
    if actions != [] {
      DoneIsOver(actions[..|actions| - 1]);
      hide Next, Published, JobOk;
    }
  }

  lemma OneMore(s: State, a: Action)
    requires Over(s)
    ensures s.book <= Apply(s, a).book && SameOrigins(s.products, Apply(s, a).products)
    ensures forall t :: t in s.done ==> t in Apply(s, a).done && Apply(s, a).done[t] == s.done[t]
  {
    hide Next, JobOk;
  }
}
