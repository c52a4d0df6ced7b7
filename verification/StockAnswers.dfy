/**
 * What a sale, a debt or a restock is answered when nothing else runs beside it, and what
 * then moves: all of it or nothing.
 */
module StockAnswers {
  import opened Basics
  import opened SaleReplay
  import opened Stock
  import opened StockInvariant
  import opened StockTheorems

  // ----- what fits -------------------------------------------------------------------------

  /** All the items together, repeated products added up, are on sale and in stock. */
  predicate InStock(products: map<Id, Product>, items: seq<Item>) {
    forall i :: 0 <= i < |items| ==> Available(products, items, items[i].product)
  }

  predicate Available(products: map<Id, Product>, items: seq<Item>, p: Id) {
    p in products && products[p].active && Demand(items, p) <= products[p].stock
  }

  function Price(products: map<Id, Product>, items: seq<Item>): int
    requires forall i :: 0 <= i < |items| ==> items[i].product in products
  {
    if items == [] then 0 else
      var last := items[|items| - 1];
      Price(products, items[..|items| - 1]) + products[last.product].price * last.quantity
  }

  /** Cash covers the price; other methods carry no cash. */
  predicate Covers(products: map<Id, Product>, req: Request)
    requires forall i :: 0 <= i < |req.items| ==> req.items[i].product in products
  {
    IsCash(req.payment) ==> req.cash.Some? && req.cash.value >= Price(products, req.items)
  }

  /** Every subtotal and the price fit the stored amounts. */
  predicate Storable(products: map<Id, Product>, items: seq<Item>) {
    && (forall i :: 0 <= i < |items| ==> Subtotal(products, items[i]))
    && ((forall i :: 0 <= i < |items| ==> items[i].product in products) ==> InRange(Price(products, items)))
  }

  predicate Subtotal(products: map<Id, Product>, item: Item) {
    item.product in products ==> InRange(products[item.product].price * item.quantity)
  }

  predicate Sells(products: map<Id, Product>, req: Request) {
    InStock(products, req.items) && Storable(products, req.items) && Covers(products, req)
  }

  lemma {:induction false} DemandOfPrefix(items: seq<Item>, i: nat, p: Id)
    requires i <= |items| && forall k :: 0 <= k < |items| ==> items[k].quantity >= 1
    ensures 0 <= Demand(items[..i], p) <= Demand(items, p)
    decreases |items|
  {
    if i == |items| {
      assert items[..i] == items;
      if items != [] { DemandOfPrefix(items[..|items| - 1], |items| - 1, p); }
    } else {
      var front := items[..|items| - 1];
      DemandOfPrefix(front, i, p);
      assert front[..i] == items[..i];
    }
  }

  // ----- one transaction alone -------------------------------------------------------------------

  datatype Last = Last(effect: Effect, tx: Tx)

  function NextOf(s: State, t: TxId, tx: Tx): Effect {
    match tx.job
    case Sale(_) => NextSale(s, t, tx)
    case Debt(_, _, _, _, _) => NextDebt(s, t, tx)
    case Restock(_, _) => NextRestock(s, t, tx)
  }

  /** The last statement of a transaction that nobody disturbs. */
  function Alone(s: State, t: TxId, tx: Tx, n: nat): Option<Last>
    decreases n
  {
    if n == 0 then None else
      match NextOf(s, t, tx)
      case Goto(m) => Alone(s, t, m, n - 1)
      case e => Some(Last(e, tx))
  }

  lemma Onward(s: State, t: TxId, tx: Tx, n: nat)
    ensures n == 0 ==> Alone(s, t, tx, n).None?
    ensures n > 0 ==> match NextOf(s, t, tx)
                      case Goto(m) => Alone(s, t, tx, n) == Alone(s, t, m, n - 1)
                      case e => Alone(s, t, tx, n) == Some(Last(e, tx))
  {
    hide NextOf;
  }

  lemma SaleOnward(s: State, t: TxId, tx: Tx, n: nat)
    requires tx.job.Sale? && n > 0
    ensures match NextSale(s, t, tx)
            case Goto(m) => Alone(s, t, tx, n) == Alone(s, t, m, n - 1)
            case e => Alone(s, t, tx, n) == Some(Last(e, tx))
  {
    hide NextSale;
  }

  /** Nobody but `t` is running. */
  predicate OnlyOne(s: State, t: TxId) { s.txs.Keys <= {t} }

  // ----- a sale ------------------------------------------------------------------------------------

  /** The writes and the total after the first items. */
  ghost predicate Carried(s: State, tx: Tx, items: seq<Item>) {
    && (forall k :: 0 <= k < |items| ==> items[k].product in s.products)
    && (forall p :: p in tx.written ==> p in s.products)
    && (forall p :: p in s.products ==> Seen(s.products, tx, p) == s.products[p].stock - Demand(items, p))
    && (forall p :: p in tx.written <==> exists k :: 0 <= k < |items| && items[k].product == p)
    && tx.total == Price(s.products, items)
  }

  lemma ItemSold(s: State, t: TxId, tx: Tx, req: Request, i: nat, n: nat) returns (next: Tx)
    requires OnlyOne(s, t) && tx.job == Sale(req) && i < |req.items| && tx.step == Peek(i) && n >= 4
    requires Carried(s, tx, req.items[..i])
    requires Available(s.products, req.items[..i + 1], req.items[i].product) && Subtotal(s.products, req.items[i])
    ensures next.job == tx.job && next.step == After(next, i + 1) && Carried(s, next, req.items[..i + 1])
    ensures Alone(s, t, tx, n) == Alone(s, t, next, n - 4)
  {
    var p := req.items[i].product;
    DemandGrows(req.items, i, p);
    var value := s.products[p].stock - Demand(req.items[..i + 1], p);
    next := ItemTaken(s, t, tx, req, i, value, n);
    hide Alone, Demand;
    CarriesOn(s, tx, next, req.items, i, value);
  }

  /** The four statements of one item that is on sale and in stock. */
  lemma ItemTaken(s: State, t: TxId, tx: Tx, req: Request, i: nat, value: int, n: nat) returns (next: Tx)
    requires OnlyOne(s, t) && tx.job == Sale(req) && i < |req.items| && tx.step == Peek(i) && n >= 4
    requires req.items[i].product in s.products && s.products[req.items[i].product].active && Subtotal(s.products, req.items[i])
    requires value == Seen(s.products, tx, req.items[i].product) - req.items[i].quantity >= 0
    ensures next.job == tx.job && next.step == After(next, i + 1)
    ensures next.written == tx.written[req.items[i].product := value]
    ensures next.total == tx.total + s.products[req.items[i].product].price * req.items[i].quantity
    ensures Alone(s, t, tx, n) == Alone(s, t, next, n - 4)
  {
    hide Alone, SaleRow, IsReplay;
    var item, p := req.items[i], req.items[i].product;
    SaleOnward(s, t, tx, n);
    var locking := tx.(step := Lock(i));
    SaleOnward(s, t, locking, n - 1);
    var checking := locking.(step := Check(i), locked := tx.locked + {p});
    SaleOnward(s, t, checking, n - 2);
    var writing := checking.(step := Write(i, value), total := tx.total + s.products[p].price * item.quantity);
    SaleOnward(s, t, writing, n - 3);
    next := writing.(step := After(tx, i + 1), written := tx.written[p := value]);
  }

  lemma CarriesOn(s: State, tx: Tx, next: Tx, items: seq<Item>, i: nat, value: int)
    requires i < |items| && items[i].product in s.products && Carried(s, tx, items[..i])
    requires value == s.products[items[i].product].stock - Demand(items[..i + 1], items[i].product)
    requires next.written == tx.written[items[i].product := value]
    requires next.total == tx.total + s.products[items[i].product].price * items[i].quantity
    ensures Carried(s, next, items[..i + 1])
  {
    var before, after := items[..i], items[..i + 1];
    assert after[..i] == before && after == before + [items[i]];
    forall p ensures p in next.written <==> exists k :: 0 <= k < |after| && after[k].product == p {
      if p == items[i].product { assert after[i].product == p; }
      if k :| 0 <= k < |before| && before[k].product == p { assert after[k].product == p; }
      if k :| 0 <= k < |after| && after[k].product == p { if k < i { assert before[k].product == p; } }
    }
    forall p | p in s.products ensures Seen(s.products, next, p) == s.products[p].stock - Demand(after, p) {
      DemandGrows(items, i, p);
    }
  }

  lemma Refusal(s: State, t: TxId, tx: Tx, n: nat)
    requires tx.job.Sale? && tx.step == Reread(BadRequest) && n >= 1 && SaleRow(s.book, tx.job.req.id).None?
    ensures Alone(s, t, tx, n) == Some(Last(Finish(Refused), tx))
  {
    Onward(s, t, tx, n);
  }

  ghost predicate SaleEnds(s: State, e: Option<Last>, req: Request, items: seq<Item>) {
    && e.Some? && e.value.tx.job == Sale(req)
    && if !Sells(s.products, req)
       then e.value.effect == Finish(Refused) || (e.value.effect == Finish(Failed) && !Storable(s.products, items))
       else if req.id in s.foreign then e.value.effect == Finish(Conflict)
       else e.value.effect == Commit(Completed(req)) && Carried(s, e.value.tx, items)
  }

  lemma {:induction false} SaleFrom(s: State, t: TxId, tx: Tx, req: Request, i: nat, n: nat)
    requires OnlyOne(s, t) && WellFormed(req) && SaleRow(s.book, req.id).None?
    requires tx.job == Sale(req) && i <= |req.items| && tx.step == After(tx, i) && n >= 4 * (|req.items| - i) + 3
    requires Carried(s, tx, req.items[..i])
    requires forall k :: 0 <= k < i ==> Available(s.products, req.items[..k + 1], req.items[k].product) && Subtotal(s.products, req.items[k])
    ensures SaleEnds(s, Alone(s, t, tx, n), req, req.items)
    decreases |req.items| - i
  {
    hide *;
    if i == |req.items| {
      assert req.items[..i] == req.items;
      Closing(s, t, tx, req, n);
    } else if !Available(s.products, req.items[..i + 1], req.items[i].product) {
      SaleStops(s, t, tx, req, i, n);
    } else if !Subtotal(s.products, req.items[i]) {
      SaleFails(s, t, tx, req, i, n);
    } else {
      Peeking(tx, req, i);
      var next := ItemSold(s, t, tx, req, i, n);
      SaleFrom(s, t, next, req, i + 1, n - 4);
    }
  }

  /** A subtotal that cannot be stored. */
  lemma SaleFails(s: State, t: TxId, tx: Tx, req: Request, i: nat, n: nat)
    requires OnlyOne(s, t) && tx.job == Sale(req) && i < |req.items| && tx.step == After(tx, i) && n >= 3
    requires Carried(s, tx, req.items[..i])
    requires Available(s.products, req.items[..i + 1], req.items[i].product) && !Subtotal(s.products, req.items[i])
    ensures SaleEnds(s, Alone(s, t, tx, n), req, req.items)
  {
    DemandGrows(req.items, i, req.items[i].product);
    hide Alone, SaleRow, IsReplay, Price, Demand, InStock;
    SaleOnward(s, t, tx, n);
    var locking := tx.(step := Lock(i));
    SaleOnward(s, t, locking, n - 1);
    SaleOnward(s, t, locking.(step := Check(i), locked := tx.locked + {req.items[i].product}), n - 2);
  }

  lemma Peeking(tx: Tx, req: Request, i: nat)
    requires tx.job == Sale(req) && i < |req.items|
    ensures After(tx, i) == Peek(i)
  {
  }

  lemma SaleStops(s: State, t: TxId, tx: Tx, req: Request, i: nat, n: nat)
    requires OnlyOne(s, t) && WellFormed(req) && SaleRow(s.book, req.id).None?
    requires tx.job == Sale(req) && i < |req.items| && tx.step == After(tx, i) && n >= 2
    requires Carried(s, tx, req.items[..i])
    requires !Available(s.products, req.items[..i + 1], req.items[i].product)
    ensures SaleEnds(s, Alone(s, t, tx, n), req, req.items)
  {
    var p := req.items[i].product;
    DemandGrows(req.items, i, p);
    DemandOfPrefix(req.items, i + 1, p);
    assert !Available(s.products, req.items, p);
    Onward(s, t, tx, n);
    hide Alone, NextOf, SaleRow;
    Refusal(s, t, Tx(tx.job, Reread(BadRequest), {}, map[], 0), n - 1);
  }

  /** The last mention of a product sees its whole demand, so checking one by one checks all. */
  lemma AllAvailable(products: map<Id, Product>, items: seq<Item>)
    requires forall k :: 0 <= k < |items| ==> Available(products, items[..k + 1], items[k].product)
    ensures InStock(products, items)
  {
    forall i | 0 <= i < |items| ensures Available(products, items, items[i].product) {
      var k := LastOf(items, i);
      SameDemand(items, k + 1, items[i].product);
    }
  }

  lemma {:induction false} LastOf(items: seq<Item>, i: nat) returns (k: nat)
    requires i < |items|
    ensures i <= k < |items| && items[k].product == items[i].product
    ensures forall j :: k < j < |items| ==> items[j].product != items[i].product
    decreases |items| - i
  {
    if j :| i < j < |items| && items[j].product == items[i].product {
      k := LastOf(items, j);
    } else {
      k := i;
    }
  }

  lemma {:induction false} SameDemand(items: seq<Item>, n: nat, p: Id)
    requires n <= |items| && forall j :: n <= j < |items| ==> items[j].product != p
    ensures Demand(items[..n], p) == Demand(items, p)
    decreases |items|
  {
    if n == |items| {
      assert items[..n] == items;
    } else {
      var front := items[..|items| - 1];
      SameDemand(front, n, p);
      assert front[..n] == items[..n];
    }
  }

  lemma StorableWhen(products: map<Id, Product>, items: seq<Item>)
    requires forall k :: 0 <= k < |items| ==> items[k].product in products && Subtotal(products, items[k])
    ensures Storable(products, items) <==> InRange(Price(products, items))
  {
  }

  lemma AllThere(products: map<Id, Product>, items: seq<Item>)
    requires forall k :: 0 <= k < |items| ==> Available(products, items[..k + 1], items[k].product)
    ensures forall k :: 0 <= k < |items| ==> items[k].product in products
  {
  }

  lemma Closing(s: State, t: TxId, tx: Tx, req: Request, n: nat)
    requires OnlyOne(s, t) && WellFormed(req) && SaleRow(s.book, req.id).None?
    requires tx.job == Sale(req) && tx.step == After(tx, |req.items|) && n >= 3
    requires Carried(s, tx, req.items)
    requires forall k :: 0 <= k < |req.items| ==> Available(s.products, req.items[..k + 1], req.items[k].product) && Subtotal(s.products, req.items[k])
    ensures SaleEnds(s, Alone(s, t, tx, n), req, req.items)
  {
    hide Alone, InStock, Available, Subtotal, Storable, SaleRow, IsReplay, Price, WellFormed, Demand;
    assert forall k :: 0 <= k < |req.items| ==> req.items[k].product in s.products by { AllThere(s.products, req.items); }
    AllAvailable(s.products, req.items);
    StorableWhen(s.products, req.items);
    SaleOnward(s, t, tx, n);
    if !InRange(tx.total) {
    } else if !Covers(s.products, req) {
      Refusal(s, t, Tx(tx.job, Reread(BadRequest), {}, map[], 0), n - 1);
    } else if req.id in s.foreign {
      SaleOnward(s, t, Tx(tx.job, Reread(IdTaken), {}, map[], 0), n - 1);
    } else {
      Finishes(s, t, tx.(step := Finishing), req, n - 1);
      CarriedStays(s, tx, Finishing, req.items);
    }
  }

  lemma Finishes(s: State, t: TxId, tx: Tx, req: Request, n: nat)
    requires tx.job == Sale(req) && tx.step == Finishing && n >= 1
    ensures Alone(s, t, tx, n) == Some(Last(Commit(Completed(req)), tx))
  {
    SaleOnward(s, t, tx, n);
  }

  lemma CarriedStays(s: State, tx: Tx, step: Step, items: seq<Item>)
    requires Carried(s, tx, items)
    ensures Carried(s, tx.(step := step), items)
  {
    forall p | p in s.products ensures Seen(s.products, tx.(step := step), p) == Seen(s.products, tx, p) {}
  }

  // ----- a debt and a restock --------------------------------------------------------------------

  predicate Lends(products: map<Id, Product>, job: Job)
    requires job.Debt?
  {
    && job.product in products && products[job.product].active && job.quantity <= products[job.product].stock
    && InRange(products[job.product].price * job.quantity)
    && (job.initial > 0 ==> job.initial <= products[job.product].price * job.quantity)
  }

  /** The total of a debt fits the stored amounts. */
  predicate Priced(products: map<Id, Product>, job: Job)
    requires job.Debt?
  {
    job.product in products ==> InRange(products[job.product].price * job.quantity)
  }

  /** How a debt that cannot be granted ends. */
  predicate Turned(products: map<Id, Product>, job: Job, outcome: Outcome)
    requires job.Debt?
  {
    outcome == Refused || (outcome == Failed && !Priced(products, job))
  }

  lemma DebtOnward(s: State, t: TxId, tx: Tx, n: nat)
    requires tx.job.Debt? && n > 0
    ensures match NextDebt(s, t, tx)
            case Goto(m) => Alone(s, t, tx, n) == Alone(s, t, m, n - 1)
            case e => Alone(s, t, tx, n) == Some(Last(e, tx))
  {
    hide NextDebt;
  }

  lemma DebtRefused(s: State, t: TxId, tx: Tx, n: nat)
    requires tx.job.Debt? && tx.step == Reread(BadRequest) && n >= 1 && DebtRow(s.book, tx.job.id).None?
    ensures Alone(s, t, tx, n) == Some(Last(Finish(Refused), tx))
  {
    DebtOnward(s, t, tx, n);
  }

  ghost predicate DebtEnds(s: State, e: Option<Last>, job: Job)
    requires job.Debt?
  {
    && e.Some? && e.value.tx.job == job
    && if !Lends(s.products, job) then e.value.effect.Finish? && Turned(s.products, job, e.value.effect.outcome)
       else if job.id in s.foreign then e.value.effect == Finish(Conflict)
       else e.value.effect == Commit(OwedBy(job))
            && e.value.tx.written == map[job.product := s.products[job.product].stock - job.quantity]
  }

  lemma DebtAlone(s: State, t: TxId, tx: Tx, n: nat)
    requires OnlyOne(s, t) && tx.job.Debt? && tx.step == Lock(0) && tx.written == map[] && tx.total == 0 && n >= 5
    requires DebtRow(s.book, tx.job.id).None?
    ensures DebtEnds(s, Alone(s, t, tx, n), tx.job)
  {
    var job, p := tx.job, tx.job.product;
    hide Alone, DebtRow;
    DebtOnward(s, t, tx, n);
    var refused := Tx(job, Reread(BadRequest), {}, map[], 0);
    if p !in s.products {
      DebtRefused(s, t, refused, n - 1);
    } else {
      var checking := tx.(step := Check(0), locked := tx.locked + {p});
      DebtOnward(s, t, checking, n - 1);
      var price, left := s.products[p].price * job.quantity, s.products[p].stock - job.quantity;
      if !s.products[p].active || left < 0 {
        DebtRefused(s, t, refused, n - 2);
      } else if InRange(price) {
        DebtWrites(s, t, checking.(step := Write(0, left), total := price), n - 2);
      }
    }
  }

  lemma DebtWrites(s: State, t: TxId, tx: Tx, n: nat)
    requires OnlyOne(s, t) && tx.job.Debt? && tx.step.Write? && tx.step.i == 0 && tx.written == map[] && n >= 3
    requires DebtRow(s.book, tx.job.id).None?
    ensures var e := Alone(s, t, tx, n);
            && e.Some? && e.value.tx.job == tx.job
            && if tx.job.initial > 0 && tx.job.initial > tx.total then e.value.effect == Finish(Refused)
               else if tx.job.id in s.foreign then e.value.effect == Finish(Conflict)
               else e.value.effect == Commit(OwedBy(tx.job)) && e.value.tx.written == map[tx.job.product := tx.step.value]
  {
    hide Alone, DebtRow;
    DebtOnward(s, t, tx, n);
    var written := tx.(step := Insert, written := map[tx.job.product := tx.step.value]);
    DebtOnward(s, t, written, n - 1);
    if tx.job.initial > 0 && tx.job.initial > tx.total { DebtRefused(s, t, Tx(tx.job, Reread(BadRequest), {}, map[], 0), n - 2); }
    else if tx.job.id in s.foreign { DebtOnward(s, t, Tx(tx.job, Reread(IdTaken), {}, map[], 0), n - 2); }
    else { DebtOnward(s, t, written.(step := Finishing), n - 2); }
  }

  predicate Restocks(products: map<Id, Product>, job: Job)
    requires job.Restock?
  {
    && job.product in products && products[job.product].byQuantity && products[job.product].active
    && products[job.product].stock + job.quantity <= 2_147_483_647
  }

  lemma RestockAlone(s: State, t: TxId, tx: Tx, n: nat)
    requires OnlyOne(s, t) && tx.job.Restock? && tx.step == Lock(0) && n >= 2
    ensures var e := Alone(s, t, tx, n);
            && e.Some? && e.value.tx.job == tx.job
            && if !Restocks(s.products, tx.job) then e.value.effect == Finish(Refused)
               else e.value.effect == Commit(Restocked(tx.job.product, tx.job.quantity))
                    && e.value.tx.written == map[tx.job.product := s.products[tx.job.product].stock + tx.job.quantity]
  {
    hide Alone;
    var p := tx.job.product;
    Onward(s, t, tx, n);
    if Restocks(s.products, tx.job) {
      Onward(s, t, tx.(step := Finishing, locked := {p}, written := map[p := s.products[p].stock + tx.job.quantity]), n - 1);
    }
  }

  // ----- the same, in the system -------------------------------------------------------------------

  function Again(s: State, t: TxId, n: nat): State
    decreases n
  {
    if n == 0 then s else Again(Apply(s, Run(t)), t, n - 1)
  }

  /** The system once its only transaction has ended. */
  function Ended(s: State, t: TxId, last: Last): State {
    match last.effect
    case Finish(outcome) => s.(txs := map[], done := s.done[t := Done(last.tx.job, outcome)])
    case Commit(row) =>
      s.(txs := map[], done := s.done[t := Done(last.tx.job, if row.Rejected? then CreatedRejected else Created)],
         products := Published(s.products, last.tx.written), book := s.book + [row])
    case _ => s.(txs := map[])
  }

  lemma EndedForgets(s: State, txs: map<TxId, Tx>, t: TxId, last: Last)
    ensures Ended(s.(txs := txs), t, last) == Ended(s, t, last) && Ended(s, t, last).txs == map[]
  {
  }

  lemma EndsWith(s: State, t: TxId, last: Last)
    ensures var s' := Ended(s, t, last);
            && s'.txs == map[]
            && (last.effect.Finish? ==> s'.done == s.done[t := Done(last.tx.job, last.effect.outcome)] && s'.products == s.products && s'.book == s.book)
            && (last.effect.Commit? && !last.effect.row.Rejected? ==>
                  && s'.done == s.done[t := Done(last.tx.job, Created)]
                  && s'.products == Published(s.products, last.tx.written) && s'.book == s.book + [last.effect.row])
  {
    hide Published;
  }

  function First(job: Job): Tx { Tx(job, if job.Restock? then Lock(0) else Look, {}, map[], 0) }

  lemma Begun(s: State, t: TxId, job: Job)
    requires s.txs == map[] && t !in s.done && JobOk(job)
    ensures Apply(s, Begin(t, job)) == s.(txs := map[t := First(job)])
  {
    hide JobOk;
  }

  /** What begins alone ends as it does alone. */
  lemma RunsToItsEnd(s: State, t: TxId, job: Job, n: nat)
    requires s.txs == map[] && t !in s.done && JobOk(job)
    requires Alone(s, t, First(job), n).Some? && !Alone(s, t, First(job), n).value.effect.Wait?
    ensures Again(Apply(s, Begin(t, job)), t, n) == Ended(s, t, Alone(s, t, First(job), n).value)
  {
    hide *;
    Begun(s, t, job);
    var begun := Apply(s, Begin(t, job));
    Empty(s, t);
    Singleton(begun, t, First(job));
    AloneIgnores(s, begun, t, First(job), n);
    RunsAsAlone(begun, t, First(job), n);
    EndedForgets(s, begun.txs, t, Alone(s, t, First(job), n).value);
  }

  lemma Empty(s: State, t: TxId)
    requires s.txs == map[]
    ensures OnlyOne(s, t)
  {
  }

  lemma {:induction false} GoneStays(s: State, t: TxId, n: nat)
    requires t !in s.txs
    ensures Again(s, t, n) == s
    decreases n
  {
    if n > 0 { GoneStays(s, t, n - 1); }
  }

  lemma SameNext(a: State, b: State, t: TxId, tx: Tx)
    requires OnlyOne(a, t) && OnlyOne(b, t) && b == a.(txs := b.txs)
    ensures NextOf(a, t, tx) == NextOf(b, t, tx)
  {
    assert forall p :: !HeldByOther(a.txs, t, p) && !HeldByOther(b.txs, t, p);
    assert forall sale, id :: !InsertedByOther(a.txs, t, sale, id) && !InsertedByOther(b.txs, t, sale, id);
    hide HeldByOther, InsertedByOther, SaleRow, DebtRow, IsReplay, Seen;
  }

  lemma {:induction false} AloneIgnores(a: State, b: State, t: TxId, tx: Tx, n: nat)
    requires OnlyOne(a, t) && OnlyOne(b, t) && b == a.(txs := b.txs)
    ensures Alone(a, t, tx, n) == Alone(b, t, tx, n)
    decreases n
  {
    hide *;
    Onward(a, t, tx, n);
    Onward(b, t, tx, n);
    SameNext(a, b, t, tx);
    if n > 0 {
      match NextOf(a, t, tx)
      case Goto(m) => AloneIgnores(a, b, t, m, n - 1);
      case _ =>
    }
  }

  lemma StepsAlone(s: State, t: TxId, tx: Tx)
    requires s.txs == map[t := tx] && !NextOf(s, t, tx).Wait?
    ensures match NextOf(s, t, tx)
            case Goto(m) => Apply(s, Run(t)) == s.(txs := map[t := m])
            case e => Apply(s, Run(t)) == Ended(s, t, Last(e, tx))
  {
    assert Next(s, t) == NextOf(s, t, tx);
    hide Next, NextOf;
    assert s.txs - {t} == map[];
  }

  lemma {:induction false} RunsAsAlone(s: State, t: TxId, tx: Tx, n: nat)
    requires s.txs == map[t := tx] && Alone(s, t, tx, n).Some? && !Alone(s, t, tx, n).value.effect.Wait?
    ensures Again(s, t, n) == Ended(s, t, Alone(s, t, tx, n).value)
    decreases n
  {
    hide *;
    Onward(s, t, tx, n);
    StepsAlone(s, t, tx);
    AgainSteps(s, t, n);
    var next := Apply(s, Run(t));
    match NextOf(s, t, tx)
    case Goto(m) =>
      Singleton(s, t, tx);
      Singleton(next, t, m);
      AloneIgnores(s, next, t, m, n - 1);
      RunsAsAlone(next, t, m, n - 1);
      EndedForgets(s, next.txs, t, Alone(s, t, tx, n).value);
    case Wait =>
    case Finish(outcome) =>
      EndedForgets(s, s.txs, t, Last(Finish(outcome), tx));
      GoneStays(next, t, n - 1);
    case Commit(row) =>
      EndedForgets(s, s.txs, t, Last(Commit(row), tx));
      GoneStays(next, t, n - 1);
  }

  lemma Singleton(s: State, t: TxId, tx: Tx)
    requires s.txs == map[t := tx]
    ensures OnlyOne(s, t)
  {
  }

  lemma AgainSteps(s: State, t: TxId, n: nat)
    ensures n > 0 ==> Again(s, t, n) == Again(Apply(s, Run(t)), t, n - 1)
  {
  }

  // ----- what the caller sees ------------------------------------------------------------------------

  /** Statements enough for any sale. */
  function Enough(req: Request): nat { 4 * |req.items| + 4 }

  lemma SaleAlone(s: State, t: TxId, req: Request)
    requires Invariant(s) && s.txs.Keys <= {t} && WellFormed(req)
    ensures var e, row := Alone(s, t, First(Sale(req)), Enough(req)), SaleRow(s.book, req.id);
            if row.Some? then e.Some? && e.value.tx.job == Sale(req) && e.value.effect == Finish(if Accepts(row.value, req) then Replayed else Conflict)
            else SaleEnds(s, e, req, req.items)
  {
    var tx := First(Sale(req));
    Onward(s, t, tx, Enough(req));
    hide Alone;
    if SaleRow(s.book, req.id).None? {
      var n := tx.(step := After(tx, 0));
      assert req.items[..0] == [];
      SaleFrom(s, t, n, req, 0, Enough(req) - 1);
    }
  }

  /**
   * After any run that left nobody running, a sale that nobody disturbs. With a row for
   * its id it is replayed exactly when it is the same sale. Otherwise it is created exactly
   * when all its items together are on sale and in stock, the amounts can be stored, the cash
   * covers the price and the id is free; then each product drops by what the items ask for, and one row is added.
   * Whatever else it is answered, nothing moves. It is never recorded as rejected.
   */
  lemma UndisturbedSale(actions: seq<Action>, t: TxId, req: Request)
    requires var s := Execute(actions); s.txs == map[] && t !in s.done && WellFormed(req)
    ensures var s := Execute(actions);
            var s', row := Again(Apply(s, Begin(t, Sale(req))), t, Enough(req)), SaleRow(s.book, req.id);
            && s'.txs == map[] && t in s'.done && s'.done[t].job == Sale(req)
            && s'.done[t].outcome ==
                 (if row.Some? then if SameSale(row.value.req, req) then Replayed else Conflict
                  else if !Sells(s.products, req) then if s'.done[t].outcome == Failed then Failed else Refused
                  else if req.id in s.foreign then Conflict else Created)
            && (s'.done[t].outcome == Failed ==> !Storable(s.products, req.items))
            && if s'.done[t].outcome == Created
               then s'.book == s.book + [Completed(req)] && s'.products.Keys == s.products.Keys
                    && forall p :: p in s.products ==> s'.products[p] == s.products[p].(stock := s.products[p].stock - Demand(req.items, p))
               else s'.book == s.book && s'.products == s.products
  {
    Reachable(actions);
    var s := Execute(actions);
    SaleAlone(s, t, req);
    var e, row := Alone(s, t, First(Sale(req)), Enough(req)), SaleRow(s.book, req.id);
    if row.Some? { StoredSale(s, row.value, req); } else { SalePublished(s, e, req); }
    hide Alone, Again, Execute, Apply, Sells, Ended, Published, SameSale, SaleRow, Accepts, SaleEnds, Invariant, WellFormed;
    RunsToItsEnd(s, t, Sale(req), Enough(req));
    EndsWith(s, t, e.value);
  }

  lemma SalePublished(s: State, e: Option<Last>, req: Request)
    requires SaleEnds(s, e, req, req.items)
    ensures e.Some? && e.value.tx.job == Sale(req)
    ensures !Sells(s.products, req) ==> e.value.effect == Finish(Refused) || (e.value.effect == Finish(Failed) && !Storable(s.products, req.items))
    ensures Sells(s.products, req) ==> e.value.effect == (if req.id in s.foreign then Finish(Conflict) else Commit(Completed(req)))
    ensures Sells(s.products, req) && req.id !in s.foreign ==>
              var products := Published(s.products, e.value.tx.written);
              && products.Keys == s.products.Keys
              && forall p :: p in s.products ==> products[p] == s.products[p].(stock := s.products[p].stock - Demand(req.items, p))
  {
    hide Sells, Demand;
  }

  lemma StoredSale(s: State, row: Row, req: Request)
    requires Invariant(s) && row in s.book && (row.Completed? || row.Rejected?) && row.req.id == req.id && WellFormed(req)
    ensures Accepts(row, req) <==> SameSale(row.req, req)
  {
    var i :| 0 <= i < |s.book| && s.book[i] == row;
    assert SaleId(s.book[i]).Some?;
    ReplaysExactlyTheSameSale(row.req, row.Rejected?, req);
  }

  lemma PublishedOne(products: map<Id, Product>, p: Id, stock: int)
    requires p in products
    ensures Published(products, map[p := stock]) == products[p := products[p].(stock := stock)]
  {
  }

  lemma DebtWhole(s: State, t: TxId, job: Job)
    requires OnlyOne(s, t) && job.Debt?
    ensures var e, row := Alone(s, t, First(job), 6), DebtRow(s.book, job.id);
            if row.Some? then e.Some? && e.value.tx.job == job && e.value.effect == Finish(if row.value == OwedBy(job) then Replayed else Conflict)
            else DebtEnds(s, e, job)
  {
    var tx := First(job);
    hide Alone, Lends;
    DebtOnward(s, t, tx, 6);
    if DebtRow(s.book, job.id).None? { DebtAlone(s, t, tx.(step := Lock(0)), 5); }
  }

  lemma DebtPublished(s: State, e: Option<Last>, job: Job)
    requires job.Debt? && DebtEnds(s, e, job)
    ensures e.Some? && e.value.tx.job == job && !e.value.effect.Wait?
    ensures !Lends(s.products, job) ==> e.value.effect.Finish? && Turned(s.products, job, e.value.effect.outcome)
    ensures Lends(s.products, job) && job.id in s.foreign ==> e.value.effect == Finish(Conflict)
    ensures Lends(s.products, job) && job.id !in s.foreign ==>
              && e.value.effect == Commit(OwedBy(job)) && job.product in s.products
              && Published(s.products, e.value.tx.written)
                 == s.products[job.product := s.products[job.product].(stock := s.products[job.product].stock - job.quantity)]
  {
    if Lends(s.products, job) { PublishedOne(s.products, job.product, s.products[job.product].stock - job.quantity); }
    hide Published;
  }

  lemma TurnedIsNoSuccess(products: map<Id, Product>, job: Job, outcome: Outcome)
    requires job.Debt? && Turned(products, job, outcome)
    ensures outcome == Refused || outcome == Failed
  {
  }

  /** The same for a debt, which takes one product, and for a restock, which brings one. */
  lemma UndisturbedDebt(actions: seq<Action>, t: TxId, job: Job)
    requires var s := Execute(actions); s.txs == map[] && t !in s.done && job.Debt? && JobOk(job)
    ensures var s := Execute(actions);
            var s', row := Again(Apply(s, Begin(t, job)), t, 6), DebtRow(s.book, job.id);
            && s'.txs == map[] && t in s'.done && s'.done[t].job == job
            && (if row.Some? then s'.done[t].outcome == if row.value == OwedBy(job) then Replayed else Conflict
                else if !Lends(s.products, job) then Turned(s.products, job, s'.done[t].outcome)
                else s'.done[t].outcome == if job.id in s.foreign then Conflict else Created)
            && if s'.done[t].outcome == Created
               then s'.book == s.book + [OwedBy(job)] && job.product in s.products
                    && s'.products == s.products[job.product := s.products[job.product].(stock := s.products[job.product].stock - job.quantity)]
               else s'.book == s.book && s'.products == s.products
  {
    hide *;
    var s := Execute(actions);
    Empty(s, t);
    OwedStands(job);
    DebtWhole(s, t, job);
    var e := Alone(s, t, First(job), 6);
    if DebtRow(s.book, job.id).None? {
      DebtPublished(s, e, job);
      if !Lends(s.products, job) { TurnedIsNoSuccess(s.products, job, e.value.effect.outcome); }
    }
    RunsToItsEnd(s, t, job, 6);
    EndsWith(s, t, e.value);
  }

  lemma OwedStands(job: Job)
    requires job.Debt?
    ensures OwedBy(job).Owed?
  {
  }

  lemma RestockWhole(s: State, t: TxId, job: Job)
    requires OnlyOne(s, t) && job.Restock?
    ensures var e := Alone(s, t, First(job), 2);
            && e.Some? && e.value.tx.job == job
            && (!Restocks(s.products, job) ==> e.value.effect == Finish(Refused))
            && (Restocks(s.products, job) ==>
                  && e.value.effect == Commit(Restocked(job.product, job.quantity)) && job.product in s.products
                  && Published(s.products, e.value.tx.written)
                     == s.products[job.product := s.products[job.product].(stock := s.products[job.product].stock + job.quantity)])
  {
    RestockAlone(s, t, First(job), 2);
    hide Alone, Published;
    if Restocks(s.products, job) { PublishedOne(s.products, job.product, s.products[job.product].stock + job.quantity); }
  }

  lemma UndisturbedRestock(actions: seq<Action>, t: TxId, job: Job)
    requires var s := Execute(actions); s.txs == map[] && t !in s.done && job.Restock? && JobOk(job)
    ensures var s := Execute(actions);
            var s' := Again(Apply(s, Begin(t, job)), t, 2);
            && s'.txs == map[] && t in s'.done && s'.done[t].job == job
            && s'.done[t].outcome == (if Restocks(s.products, job) then Created else Refused)
            && if s'.done[t].outcome == Created
               then s'.book == s.book + [Restocked(job.product, job.quantity)] && job.product in s.products
                    && s'.products == s.products[job.product := s.products[job.product].(stock := s.products[job.product].stock + job.quantity)]
               else s'.book == s.book && s'.products == s.products
  {
    var s := Execute(actions);
    hide *;
    Empty(s, t);
    RestockWhole(s, t, job);
    RunsToItsEnd(s, t, job, 2);
    EndsWith(s, t, Alone(s, t, First(job), 2).value);
  }

  // ----- a race for stock that is lost ------------------------------------------------------------

  /** Nobody has the id, nor is anybody inserting it. */
  ghost predicate FreeId(s: State, t: TxId, id: Id) {
    SaleRow(s.book, id).None? && id !in s.foreign && !InsertedByOther(s.txs, t, true, id)
  }

  /** The sale, its product there and on sale, asks now for more than it sees. */
  ghost predicate Short(s: State, tx: Tx, i: nat) {
    && tx.job.Sale? && i < |tx.job.req.items|
    && var item := tx.job.req.items[i];
       item.product in s.products && s.products[item.product].active && item.quantity > Seen(s.products, tx, item.product)
  }

  function AfterRejection(s: State, t: TxId, req: Request): State
    requires t in s.txs
  {
    s.(txs := s.txs - {t}, done := s.done[t := Done(Sale(req), CreatedRejected)], book := s.book + [Rejected(req)])
  }

  lemma NothingPublished(products: map<Id, Product>)
    ensures Published(products, map[]) == products
  {
  }

  /** Rolled back for stock, with the id free: the rejection is recorded and nothing moves. */
  lemma RecordsRejection(s: State, t: TxId, req: Request)
    requires t in s.txs && s.txs[t] == Tx(Sale(req), Reread(StockConflict), {}, map[], 0) && FreeId(s, t, req.id)
    ensures Again(s, t, 2) == AfterRejection(s, t, req)
  {
    var inserting := s.txs[t].(step := InsertRejected);
    var one := s.(txs := s.txs[t := inserting]);
    hide SaleRow, IsReplay;
    assert Apply(s, Run(t)) == one;
    assert !InsertedByOther(one.txs, t, true, req.id) by { StillFree(s.txs, one.txs, t, req.id); }
    NothingPublished(s.products);
    hide InsertedByOther, Published;
    assert one.txs - {t} == s.txs - {t};
    assert Apply(one, Run(t)) == AfterRejection(s, t, req);
    AgainSteps(s, t, 2);
    AgainSteps(one, t, 1);
    AgainSteps(AfterRejection(s, t, req), t, 0);
    assert Again(AfterRejection(s, t, req), t, 0) == AfterRejection(s, t, req);
  }

  lemma StillFree(before: map<TxId, Tx>, after: map<TxId, Tx>, t: TxId, id: Id)
    requires !InsertedByOther(before, t, true, id) && forall u :: u in after && u != t ==> u in before && after[u] == before[u]
    ensures !InsertedByOther(after, t, true, id)
  {
    if u :| u in after && u != t && Inserting(after[u], true, id) { NoOtherInsert(before, t, true, id, u); }
  }

  lemma Rolls(s: State, t: TxId, tx: Tx, n: nat)
    requires t in s.txs && s.txs[t].job.Sale? && NextSale(s, t, s.txs[t]) == Goto(tx) && n > 0
    ensures Again(s, t, n) == Again(s.(txs := s.txs[t := tx]), t, n - 1)
  {
    hide NextSale;
    AgainSteps(s, t, n);
  }

  /**
   * A sale that read enough stock, waited for its row, and then finds too little under its
   * lock: with its id free and left to run it is recorded as rejected and its caller told
   * it was created. Exactly one rejected row is added, no stock moves and its locks are gone.
   */
  lemma LostRaceIsRecorded(actions: seq<Action>, t: TxId, i: nat)
    requires var s := Execute(actions);
             && t in s.txs && Short(s, s.txs[t], i) && FreeId(s, t, s.txs[t].job.req.id)
             && (s.txs[t].step == Check(i) || (s.txs[t].step == Lock(i) && !HeldByOther(s.txs, t, s.txs[t].job.req.items[i].product)))
    ensures var s := Execute(actions);
            Again(s, t, if s.txs[t].step.Lock? then 4 else 3) == AfterRejection(s, t, s.txs[t].job.req)
  {
    hide *;
    if Execute(actions).txs[t].step.Lock? { RejectionFromLock(Execute(actions), t, i); } else { RejectionFromCheck(Execute(actions), t, i); }
  }

  lemma CheckFails(s: State, t: TxId, i: nat)
    requires t in s.txs && Short(s, s.txs[t], i) && s.txs[t].step == Check(i)
    ensures NextSale(s, t, s.txs[t]) == Goto(Tx(s.txs[t].job, Reread(StockConflict), {}, map[], 0))
  {
    hide SaleRow, IsReplay, HeldByOther, InsertedByOther;
  }

  lemma LockTaken(s: State, t: TxId, i: nat)
    requires t in s.txs && Short(s, s.txs[t], i) && s.txs[t].step == Lock(i) && !HeldByOther(s.txs, t, s.txs[t].job.req.items[i].product)
    ensures var tx := s.txs[t];
            var checking := tx.(step := Check(i), locked := tx.locked + {tx.job.req.items[i].product});
            NextSale(s, t, tx) == Goto(checking) && Short(s.(txs := s.txs[t := checking]), checking, i)
  {
    hide SaleRow, IsReplay, InsertedByOther;
  }

  lemma FreeStays(s: State, t: TxId, tx: Tx, id: Id)
    requires FreeId(s, t, id)
    ensures FreeId(s.(txs := s.txs[t := tx]), t, id)
  {
    hide SaleRow, InsertedByOther;
    StillFree(s.txs, s.txs[t := tx], t, id);
  }

  lemma RejectedAlike(s: State, t: TxId, tx: Tx, req: Request)
    requires t in s.txs
    ensures AfterRejection(s.(txs := s.txs[t := tx]), t, req) == AfterRejection(s, t, req)
  {
    assert s.txs[t := tx] - {t} == s.txs - {t};
  }

  lemma RejectionFromCheck(s: State, t: TxId, i: nat)
    requires t in s.txs && Short(s, s.txs[t], i) && FreeId(s, t, s.txs[t].job.req.id) && s.txs[t].step == Check(i)
    ensures Again(s, t, 3) == AfterRejection(s, t, s.txs[t].job.req)
  {
    hide NextSale, FreeId, AfterRejection, Again, Seen;
    var req := s.txs[t].job.req;
    var rolled := Tx(s.txs[t].job, Reread(StockConflict), {}, map[], 0);
    CheckFails(s, t, i);
    Rolls(s, t, rolled, 3);
    FreeStays(s, t, rolled, req.id);
    RecordsRejection(s.(txs := s.txs[t := rolled]), t, req);
    RejectedAlike(s, t, rolled, req);
  }

  lemma RejectionFromLock(s: State, t: TxId, i: nat)
    requires t in s.txs && Short(s, s.txs[t], i) && FreeId(s, t, s.txs[t].job.req.id)
    requires s.txs[t].step == Lock(i) && !HeldByOther(s.txs, t, s.txs[t].job.req.items[i].product)
    ensures Again(s, t, 4) == AfterRejection(s, t, s.txs[t].job.req)
  {
    hide NextSale, FreeId, AfterRejection, Again, Seen, HeldByOther;
    var tx := s.txs[t];
    var checking := tx.(step := Check(i), locked := tx.locked + {tx.job.req.items[i].product});
    LockTaken(s, t, i);
    Rolls(s, t, checking, 4);
    FreeStays(s, t, checking, tx.job.req.id);
    RejectionFromCheck(s.(txs := s.txs[t := checking]), t, i);
    RejectedAlike(s, t, checking, tx.job.req);
  }

  /** A sale short at its first look at the stock is refused and leaves no row. */
  lemma ShortAtFirstLook(actions: seq<Action>, t: TxId, i: nat)
    requires var s := Execute(actions);
             t in s.txs && s.txs[t].step == Peek(i) && Short(s, s.txs[t], i) && SaleRow(s.book, s.txs[t].job.req.id).None?
    ensures var s := Execute(actions);
            Again(s, t, 2) == s.(txs := s.txs - {t}, done := s.done[t := Done(s.txs[t].job, Refused)])
  {
    var s := Execute(actions);
    hide Execute, SaleRow, IsReplay;
    var rolled := Tx(s.txs[t].job, Reread(BadRequest), {}, map[], 0);
    Rolls(s, t, rolled, 2);
    var next := s.(txs := s.txs[t := rolled]);
    assert next.txs - {t} == s.txs - {t};
    AgainSteps(next, t, 1);
    assert Again(Apply(next, Run(t)), t, 0) == Apply(next, Run(t));
  }
}
