/**
 * When a sale that already exists is the same request again: header comparison plus a
 * fingerprint of the sorted items. A fingerprint stands as the text it is taken over.
 */
module SaleReplay {
  import opened Basics
  import opened Sorting

  datatype Method = Efectivo | Transferencia | Tarjeta

  datatype Item = Item(product: Id, quantity: int)

  datatype Request = Request(
    id: Id, member: Id, device: Id, currency: string, cash: Option<int>,
    payment: Option<Method>, occurredAt: int, items: seq<Item>)

  function Resolve(payment: Option<Method>): Method {
    match payment
    case None => Efectivo
    case Some(m) => m
  }

  predicate IsCash(payment: Option<Method>) { Resolve(payment) == Efectivo }

  /** What the request form guarantees. */
  predicate WellFormed(req: Request) {
    && (IsCash(req.payment) <==> req.cash.Some?)
    && forall i :: 0 <= i < |req.items| ==> req.items[i].quantity >= 1
  }

  /** What is hashed: the cash only when it applies, the method only when it is not cash. */
  datatype Fingerprint = Fingerprint(
    member: Id, device: Id, currency: string, cash: Option<int>, occurredAt: int,
    items: seq<Item>, payment: Option<Method>)

  predicate AtMost(a: Item, b: Item) {
    a.product < b.product || (a.product == b.product && a.quantity <= b.quantity)
  }

  function Itself(): Item -> Item { (i: Item) => i }

  function FingerprintOf(req: Request): Fingerprint {
    Fingerprint(req.member, req.device, req.currency, if IsCash(req.payment) then req.cash else None, req.occurredAt,
                Sort(req.items, Itself(), AtMost), if IsCash(req.payment) then None else req.payment)
  }

  /** A stored sale. Rows written before fingerprints existed have none; rejected rows keep no items. */
  datatype Stored = Stored(
    member: Id, device: Id, currency: string, payment: Method, cash: Option<int>, occurredAt: int,
    fingerprint: Option<Fingerprint>, rejected: bool, items: seq<Item>)

  /** How `create` stores a completed sale, and how it stores a rejected one. */
  function StoredFrom(req: Request, rejected: bool): Stored {
    Stored(req.member, req.device, req.currency, Resolve(req.payment), req.cash, req.occurredAt,
           Some(FingerprintOf(req)), rejected, if rejected then [] else req.items)
  }

  predicate SameHeader(row: Stored, req: Request) {
    && row.member == req.member && row.device == req.device && row.currency == req.currency
    && row.payment == Resolve(req.payment) && row.cash == req.cash && row.occurredAt == req.occurredAt
  }

  function ProductOf(): Item -> Id { (i: Item) => i.product }
  predicate NotAfter(a: Id, b: Id) { a <= b }

  /** The comparison for rows without a fingerprint: both lists sorted by product alone. */
  predicate SameItems(xs: seq<Item>, ys: seq<Item>) {
    |xs| == |ys| && Sort(xs, ProductOf(), NotAfter) == Sort(ys, ProductOf(), NotAfter)
  }

  predicate IsReplay(row: Stored, req: Request) {
    if !SameHeader(row, req) then false
    else
      match row.fingerprint
      case Some(f) => f == FingerprintOf(req)
      case None => !row.rejected && SameItems(row.items, req.items)
  }

  // ----- sorting with repeated keys ---------------------------------------------------------

  ghost predicate Ordered(xs: seq<Item>) {
    forall i, j :: 0 <= i < j < |xs| ==> AtMost(xs[i], xs[j])
  }

  lemma {:induction false} InsertOrdered(x: Item, xs: seq<Item>)
    requires Ordered(xs)
    ensures Ordered(Insert(x, xs, Itself(), AtMost))
  {
    if xs != [] && !AtMost(x, xs[0]) {
      var r := Insert(x, xs[1..], Itself(), AtMost);
      InsertOrdered(x, xs[1..]);
      InsertPermutes(x, xs[1..], Itself(), AtMost);
      forall j | 0 <= j < |r| ensures AtMost(xs[0], r[j]) {
        assert r[j] in multiset(r);
        if r[j] != x { assert r[j] in xs[1..]; }
      }
    }
  }

  lemma {:induction false} SortOrdered(xs: seq<Item>)
    ensures Ordered(Sort(xs, Itself(), AtMost))
  {
    if xs != [] {
      SortOrdered(xs[1..]);
      InsertOrdered(xs[0], Sort(xs[1..], Itself(), AtMost));
    }
  }

  /** A sorted list is determined by its multiset, repeated items included. */
  lemma {:induction false} OrderedUnique(xs: seq<Item>, ys: seq<Item>)
    requires Ordered(xs) && Ordered(ys) && multiset(xs) == multiset(ys)
    ensures xs == ys
  {
    if xs == [] {
      assert |multiset(ys)| == 0;
    } else {
      assert xs == [xs[0]] + xs[1..];
      assert xs[0] in multiset(ys);
      assert ys == [ys[0]] + ys[1..];
      assert ys[0] in multiset(xs);
      assert xs[0] == ys[0];
      assert multiset(xs[1..]) == multiset(xs) - multiset{xs[0]};
      assert multiset(ys[1..]) == multiset(ys) - multiset{ys[0]};
      OrderedUnique(xs[1..], ys[1..]);
    }
  }

  lemma SortedAlike(xs: seq<Item>, ys: seq<Item>)
    ensures Sort(xs, Itself(), AtMost) == Sort(ys, Itself(), AtMost) <==> multiset(xs) == multiset(ys)
  {
    SortPermutes(xs, Itself(), AtMost);
    SortPermutes(ys, Itself(), AtMost);
    SortOrdered(xs);
    SortOrdered(ys);
    if multiset(xs) == multiset(ys) { OrderedUnique(Sort(xs, Itself(), AtMost), Sort(ys, Itself(), AtMost)); }
  }

  // ----- exactly which requests replay ---------------------------------------------------------

  /** A fingerprinted row, completed or rejected, accepts a later request exactly when headers match and items are equal as multisets. */
  lemma ReplaysExactlyTheSameSale(first: Request, rejected: bool, later: Request)
    requires WellFormed(first) && WellFormed(later)
    ensures IsReplay(StoredFrom(first, rejected), later) <==>
              && first.member == later.member && first.device == later.device && first.currency == later.currency
              && Resolve(first.payment) == Resolve(later.payment) && first.cash == later.cash
              && first.occurredAt == later.occurredAt && multiset(first.items) == multiset(later.items)
  {
    SortedAlike(first.items, later.items);
  }

  /** The quantities of one product, in the order they were asked. */
  function QuantitiesOf(items: seq<Item>, product: Id): seq<int> {
    if items == [] then []
    else (if items[0].product == product then [items[0].quantity] else []) + QuantitiesOf(items[1..], product)
  }

  lemma {:induction false} InsertKeepsQuantities(x: Item, xs: seq<Item>, product: Id)
    ensures QuantitiesOf(Insert(x, xs, ProductOf(), NotAfter), product) == QuantitiesOf([x] + xs, product)
  {
    assert ([x] + xs)[1..] == xs;
    if xs != [] && !NotAfter(x.product, xs[0].product) {
      InsertKeepsQuantities(x, xs[1..], product);
      assert ([x] + xs[1..])[1..] == xs[1..];
    }
  }

  /** Sorting by product is stable: within a product the order of the lines stays. */
  lemma {:induction false} SortKeepsQuantities(xs: seq<Item>, product: Id)
    ensures QuantitiesOf(Sort(xs, ProductOf(), NotAfter), product) == QuantitiesOf(xs, product)
  {
    if xs != [] {
      var r := Sort(xs[1..], ProductOf(), NotAfter);
      SortKeepsQuantities(xs[1..], product);
      InsertKeepsQuantities(xs[0], r, product);
      assert ([xs[0]] + r)[1..] == r;
    }
  }

  ghost predicate ByProduct(xs: seq<Item>) {
    forall i, j :: 0 <= i < j < |xs| ==> xs[i].product <= xs[j].product
  }

  lemma {:induction false} InsertByProduct(x: Item, xs: seq<Item>)
    requires ByProduct(xs)
    ensures ByProduct(Insert(x, xs, ProductOf(), NotAfter))
  {
    if xs != [] && !NotAfter(x.product, xs[0].product) {
      var r := Insert(x, xs[1..], ProductOf(), NotAfter);
      InsertByProduct(x, xs[1..]);
      InsertPermutes(x, xs[1..], ProductOf(), NotAfter);
      forall j | 0 <= j < |r| ensures xs[0].product <= r[j].product {
        assert r[j] in multiset(r);
        if r[j] != x { assert r[j] in xs[1..]; }
      }
    }
  }

  lemma {:induction false} SortByProduct(xs: seq<Item>)
    ensures ByProduct(Sort(xs, ProductOf(), NotAfter))
  {
    if xs != [] {
      SortByProduct(xs[1..]);
      InsertByProduct(xs[0], Sort(xs[1..], ProductOf(), NotAfter));
    }
  }

  lemma {:induction false} NoneBelow(xs: seq<Item>, product: Id)
    requires forall i :: 0 <= i < |xs| ==> xs[i].product > product
    ensures QuantitiesOf(xs, product) == []
  {
    if xs != [] { NoneBelow(xs[1..], product); }
  }

  /** Lists sorted by product with the same quantities per product are equal. */
  lemma {:induction false} ByProductUnique(xs: seq<Item>, ys: seq<Item>)
    requires ByProduct(xs) && ByProduct(ys) && |xs| == |ys|
    requires forall p :: QuantitiesOf(xs, p) == QuantitiesOf(ys, p)
    ensures xs == ys
  {
    if xs != [] {
      var p, q := xs[0].product, ys[0].product;
      if p < q { NoneBelow(ys, p); }
      if q < p { NoneBelow(xs, q); }
      assert QuantitiesOf(xs, p) == QuantitiesOf(ys, p) && QuantitiesOf(xs, q) == QuantitiesOf(ys, q);
      assert QuantitiesOf(xs, p) == [xs[0].quantity] + QuantitiesOf(xs[1..], p);
      assert p == q;
      assert QuantitiesOf(ys, q) == [ys[0].quantity] + QuantitiesOf(ys[1..], q);
      assert QuantitiesOf(xs, p)[0] == xs[0].quantity && QuantitiesOf(ys, q)[0] == ys[0].quantity;
      assert xs[0] == ys[0];
      forall r ensures QuantitiesOf(xs[1..], r) == QuantitiesOf(ys[1..], r) {
        assert QuantitiesOf(xs, r) == QuantitiesOf(ys, r);
        if r == p {
          assert QuantitiesOf(xs, r)[1..] == QuantitiesOf(xs[1..], r);
          assert QuantitiesOf(ys, r)[1..] == QuantitiesOf(ys[1..], r);
        } else {
          assert QuantitiesOf(xs, r) == QuantitiesOf(xs[1..], r) && QuantitiesOf(ys, r) == QuantitiesOf(ys[1..], r);
        }
      }
      ByProductUnique(xs[1..], ys[1..]);
    }
  }

  ghost predicate SameQuantities(xs: seq<Item>, ys: seq<Item>) {
    forall p :: QuantitiesOf(xs, p) == QuantitiesOf(ys, p)
  }

  lemma SameItemsMeans(xs: seq<Item>, ys: seq<Item>)
    ensures SameItems(xs, ys) <==> |xs| == |ys| && SameQuantities(xs, ys)
  {
    var a, b := Sort(xs, ProductOf(), NotAfter), Sort(ys, ProductOf(), NotAfter);
    forall p ensures QuantitiesOf(a, p) == QuantitiesOf(xs, p) && QuantitiesOf(b, p) == QuantitiesOf(ys, p) {
      SortKeepsQuantities(xs, p);
      SortKeepsQuantities(ys, p);
    }
    if SameItems(xs, ys) {
      forall p ensures QuantitiesOf(xs, p) == QuantitiesOf(ys, p) { assert QuantitiesOf(a, p) == QuantitiesOf(b, p); }
    }
    if |xs| == |ys| && SameQuantities(xs, ys) {
      SortByProduct(xs);
      SortByProduct(ys);
      forall p ensures QuantitiesOf(a, p) == QuantitiesOf(b, p) { assert QuantitiesOf(xs, p) == QuantitiesOf(ys, p); }
      ByProductUnique(a, b);
    }
  }

  /** A row without a fingerprint compares, per product, the quantities in the order of the lines. */
  lemma OldRowsCompareLineOrder(row: Stored, req: Request)
    requires row.fingerprint == None && SameHeader(row, req)
    ensures IsReplay(row, req) <==> !row.rejected && |row.items| == |req.items| && SameQuantities(row.items, req.items)
  {
    SameItemsMeans(row.items, req.items);
  }
}
