/** Stock conservation and at-most-once sales, kept by every statement of every transaction. */
module StockInvariant {
  import opened Basics
  import opened SaleReplay
  import opened Stock

  /** How many pieces of a product a list of items asks for; a product may repeat. */
  function Demand(items: seq<Item>, p: Id): int {
    if items == [] then 0
    else Demand(items[..|items| - 1], p) + if items[|items| - 1].product == p then items[|items| - 1].quantity else 0
  }

  function Progress(tx: Tx): nat {
    match tx.step
    case Peek(i) => i
    case Lock(i) => i
    case Check(i) => i
    case Write(i, _) => i
    case Insert => |ItemsOf(tx.job)|
    case Finishing => |ItemsOf(tx.job)|
    case _ => 0
  }

  /** What a transaction has taken from the committed stock so far; a restock takes a negative amount. */
  function Taken(tx: Tx, p: Id): int {
    if tx.job.Restock? then if tx.step == Finishing && tx.job.product == p then -tx.job.quantity else 0
    else if Progress(tx) <= |ItemsOf(tx.job)| then Demand(ItemsOf(tx.job)[..Progress(tx)], p) else 0
  }

  // ----- what the committed book says -------------------------------------------------------

  function Moved(row: Row, p: Id): int {
    match row
    case Completed(req) => -Demand(req.items, p)
    case Rejected(_) => 0
    case Owed(_, product, quantity, _, _) => if product == p then -quantity else 0
    case Restocked(product, quantity) => if product == p then quantity else 0
  }

  function Movement(book: Book, p: Id): int {
    if book == [] then 0 else Movement(book[..|book| - 1], p) + Moved(book[|book| - 1], p)
  }

  ghost predicate Conserved(products: map<Id, Product>, book: Book) {
    && (forall p :: p in products ==>
          products[p].stock == products[p].initial + Movement(book, p) && 0 <= products[p].stock <= MAX_STOCK)
    && (forall p :: p !in products ==> Movement(book, p) == 0)
  }

  ghost predicate OneRowPerSale(book: Book) {
    && (forall i, j :: 0 <= i < j < |book| && SaleId(book[i]).Some? ==> SaleId(book[i]) != SaleId(book[j]))
    && (forall i :: 0 <= i < |book| && SaleId(book[i]).Some? ==> WellFormed(book[i].req))
  }

  function SaleId(row: Row): Option<Id> {
    match row
    case Completed(req) => Some(req.id)
    case Rejected(req) => Some(req.id)
    case _ => None
  }

  ghost predicate OneRowPerDebt(book: Book) {
    forall i, j :: 0 <= i < j < |book| && book[i].Owed? && book[j].Owed? ==> book[i].id != book[j].id
  }

  // ----- what holds of a running transaction ---------------------------------------------------

  predicate Idle(step: Step) { step.Look? || step.Reread? || step.InsertRejected? || step.RereadRejected? }

  predicate StepOk(tx: Tx) {
    && (tx.job.Sale? ==> Progress(tx) <= |tx.job.req.items|)
    && (tx.job.Debt? ==> tx.step in {Look, Lock(0), Check(0), Insert, Finishing} || tx.step.Reread? || (tx.step.Write? && tx.step.i == 0))
    && (tx.job.Restock? ==> tx.step in {Lock(0), Finishing})
    && (tx.step.Peek? || tx.step.Lock? || tx.step.Check? || tx.step.Write? ==> tx.job.Restock? || tx.step.i < |ItemsOf(tx.job)|)
    && (Idle(tx.step) ==> tx.locked == {} && tx.written == map[])
  }

  ghost predicate Balanced(products: map<Id, Product>, tx: Tx)
    requires tx.written.Keys <= products.Keys
  {
    forall p :: if p in tx.written then tx.written[p] == products[p].stock - Taken(tx, p) else Taken(tx, p) == 0
  }

  ghost predicate StockOk(products: map<Id, Product>, tx: Tx) {
    && tx.written.Keys <= tx.locked <= products.Keys
    && (forall p :: p in tx.written ==> 0 <= tx.written[p] <= MAX_STOCK)
    && Balanced(products, tx)
    && (tx.step.Check? || tx.step.Write? ==> tx.step.i < |ItemsOf(tx.job)| && ItemsOf(tx.job)[tx.step.i].product in tx.locked)
    && (tx.step.Write? ==>
          var item := ItemsOf(tx.job)[tx.step.i];
          tx.step.value == Seen(products, tx, item.product) - item.quantity && 0 <= tx.step.value)
  }

  ghost predicate KeyOk(book: Book, tx: Tx) {
    tx.step == Finishing ==> match tx.job
                             case Sale(req) => NoSale(book, req.id)
                             case Debt(id, _, _, _, _) => NoDebt(book, id)
                             case Restock(_, _) => true
  }

  ghost predicate TxOk(products: map<Id, Product>, book: Book, tx: Tx) {
    JobOk(tx.job) && StepOk(tx) && StockOk(products, tx) && KeyOk(book, tx)
  }

  ghost predicate Apart(a: Tx, b: Tx) {
    && a.locked !! b.locked
    && (a.step == b.step == Finishing ==> match (a.job, b.job)
                                          case (Sale(x), Sale(y)) => x.id != y.id
                                          case (Debt(x, _, _, _, _), Debt(y, _, _, _, _)) => x != y
                                          case _ => true)
  }

  // ----- what holds of finished calls -------------------------------------------------------------

  predicate SaysCreated(d: Done) { d.job.Sale? && (d.outcome == Created || d.outcome == CreatedRejected) }

  ghost predicate DoneOk(book: Book, d: Done) {
    && JobOk(d.job)
    && (d.job.Sale? && d.outcome == Created ==> Completed(d.job.req) in book)
    && (d.job.Sale? && d.outcome == CreatedRejected ==> Rejected(d.job.req) in book)
    && (d.job.Sale? && d.outcome == Replayed ==> exists r :: r in book && SaleId(r) == Some(d.job.req.id) && Accepts(r, d.job.req))
    && (d.job.Debt? && (d.outcome == Created || d.outcome == Replayed) ==> OwedBy(d.job) in book)
  }

  ghost predicate Invariant(s: State) {
    && Conserved(s.products, s.book)
    && OneRowPerSale(s.book) && OneRowPerDebt(s.book)
    && (forall t :: t in s.txs ==> TxOk(s.products, s.book, s.txs[t]))
    && (forall t, u :: t in s.txs && u in s.txs && t != u ==> Apart(s.txs[t], s.txs[u]))
    && (forall t :: t in s.done ==> DoneOk(s.book, s.done[t]))
    && (forall t, u :: t in s.done && u in s.done && t != u && SaysCreated(s.done[t]) && SaysCreated(s.done[u])
          ==> s.done[t].job.req.id != s.done[u].job.req.id)
  }

  // ----- demand -------------------------------------------------------------------------------------

  lemma DemandGrows(items: seq<Item>, i: nat, p: Id)
    requires i < |items|
    ensures Demand(items[..i + 1], p) == Demand(items[..i], p) + if items[i].product == p then items[i].quantity else 0
  {
    assert items[..i + 1][..i] == items[..i];
  }

  lemma ProgressAfter(tx: Tx, i: nat)
    requires i <= |ItemsOf(tx.job)| && tx.step == After(tx, i)
    ensures Progress(tx) == i
  {
  }

  // ----- a statement that keeps the transaction going -------------------------------------------------

  lemma RollbackOk(products: map<Id, Product>, book: Book, tx: Tx, cause: Cause)
    requires JobOk(tx.job) && !tx.job.Restock?
    ensures TxOk(products, book, Tx(tx.job, Reread(cause), {}, map[], 0))
  {
    var n := Tx(tx.job, Reread(cause), {}, map[], 0);
    forall p ensures Taken(n, p) == 0 { assert ItemsOf(n.job)[..0] == []; }
  }

  /** Moving on without writing keeps the balance when the progress is the same. */
  lemma SameProgressOk(products: map<Id, Product>, tx: Tx, n: Tx)
    requires StockOk(products, tx) && !tx.job.Restock?
    requires n.job == tx.job && n.written == tx.written && Progress(n) == Progress(tx)
    ensures n.written.Keys <= products.Keys && Balanced(products, n)
  {
    forall p ensures Taken(n, p) == Taken(tx, p) {}
  }

  lemma WriteOk(products: map<Id, Product>, tx: Tx, n: Tx)
    requires StepOk(tx) && StockOk(products, tx) && JobOk(tx.job) && !tx.job.Restock? && tx.step.Write?
    requires NextWrite(tx, tx.step.i, tx.step.value) == Goto(n)
    requires forall p :: p in products ==> products[p].stock <= MAX_STOCK
    ensures StockOk(products, n) && Progress(n) == tx.step.i + 1
  {
    var i, items := tx.step.i, ItemsOf(tx.job);
    ProgressAfter(n, i + 1);
    forall p ensures if p in n.written then n.written[p] == products[p].stock - Taken(n, p) else Taken(n, p) == 0 {
      DemandGrows(items, i, p);
      assert if p in tx.written then tx.written[p] == products[p].stock - Taken(tx, p) else Taken(tx, p) == 0;
    }
    assert n.written[items[i].product] == Seen(products, tx, items[i].product) - items[i].quantity;
  }

  /** From one statement of an item to the next, before its write. */
  lemma ItemGoes(s: State, t: TxId, n: Tx)
    requires Invariant(s) && t in s.txs && s.txs[t].job.Sale? && !n.step.Reread?
    requires s.txs[t].step.Peek? || s.txs[t].step.Lock? || s.txs[t].step.Check?
    requires NextSale(s, t, s.txs[t]) == Goto(n)
    ensures TxOk(s.products, s.book, n)
  {
    var tx := s.txs[t];
    assert TxOk(s.products, s.book, tx);
    assert n.step.Write? ==> ItemsOf(tx.job)[n.step.i].quantity >= 1;
    SameProgressOk(s.products, tx, n);
    hide Conserved, OneRowPerSale, OneRowPerDebt, Apart, DoneOk, SaleRow, IsReplay;
  }

  lemma OtherSaleGoes(s: State, t: TxId, n: Tx)
    requires Invariant(s) && t in s.txs && s.txs[t].job.Sale? && !n.step.Reread?
    requires s.txs[t].step in {Look, Insert, Finishing, InsertRejected, RereadRejected} || s.txs[t].step.Reread?
    requires NextSale(s, t, s.txs[t]) == Goto(n)
    ensures TxOk(s.products, s.book, n)
  {
    var tx := s.txs[t];
    assert TxOk(s.products, s.book, tx);
    hide Conserved, OneRowPerSale, OneRowPerDebt, Apart, DoneOk, IsReplay;
    if tx.step == Look { ProgressAfter(n, 0); }
    SameProgressOk(s.products, tx, n);
  }

  lemma SaleGoes(s: State, t: TxId, n: Tx)
    requires Invariant(s) && t in s.txs && s.txs[t].job.Sale? && NextSale(s, t, s.txs[t]) == Goto(n)
    ensures TxOk(s.products, s.book, n)
  {
    var tx := s.txs[t];
    assert TxOk(s.products, s.book, tx);
    if n.step.Reread? {
      assert n == Tx(tx.job, n.step, {}, map[], 0);
      RollbackOk(s.products, s.book, tx, n.step.cause);
    } else if tx.step.Write? {
      WriteOk(s.products, tx, n);
    } else if tx.step.Peek? || tx.step.Lock? || tx.step.Check? {
      ItemGoes(s, t, n);
    } else {
      OtherSaleGoes(s, t, n);
    }
  }

  lemma DebtGoes(s: State, t: TxId, n: Tx)
    requires Invariant(s) && t in s.txs && s.txs[t].job.Debt? && NextDebt(s, t, s.txs[t]) == Goto(n)
    ensures TxOk(s.products, s.book, n)
  {
    hide Invariant, OneRowPerSale, OneRowPerDebt, Apart, DoneOk, Movement, Demand, DebtRow;
    Running(s, t);
    var tx := s.txs[t];
    if n.step.Reread? { RollbackOk(s.products, s.book, tx, n.step.cause); }
    else if tx.step.Write? { WriteOk(s.products, tx, n); }
    else { SameProgressOk(s.products, tx, n); }
  }

  lemma RestockGoes(s: State, t: TxId, n: Tx)
    requires Invariant(s) && t in s.txs && s.txs[t].job.Restock? && NextRestock(s, t, s.txs[t]) == Goto(n)
    ensures TxOk(s.products, s.book, n)
  {
    var tx := s.txs[t];
    assert TxOk(s.products, s.book, tx);
    var p := tx.job.product;
    forall q ensures if q in n.written then n.written[q] == s.products[q].stock - Taken(n, q) else Taken(n, q) == 0 {}
  }

  lemma Free(txs: map<TxId, Tx>, t: TxId, p: Id, u: TxId)
    requires !HeldByOther(txs, t, p) && u in txs && u != t
    ensures p !in txs[u].locked
  {
  }

  lemma NoOtherInsert(txs: map<TxId, Tx>, t: TxId, sale: bool, id: Id, u: TxId)
    requires !InsertedByOther(txs, t, sale, id) && u in txs && u != t
    ensures !Inserting(txs[u], sale, id)
  {
  }

  /** What the invariant says of one transaction and of another beside it. */
  lemma Holding(s: State, t: TxId, u: TxId)
    requires Invariant(s) && t in s.txs && u in s.txs && u != t
    ensures TxOk(s.products, s.book, s.txs[t]) && Apart(s.txs[t], s.txs[u])
  {
    hide Conserved, OneRowPerSale, OneRowPerDebt, DoneOk, TxOk, Apart;
  }

  lemma Running(s: State, t: TxId)
    requires Invariant(s) && t in s.txs
    ensures TxOk(s.products, s.book, s.txs[t]) && Conserved(s.products, s.book) && OneRowPerSale(s.book) && OneRowPerDebt(s.book)
  {
    hide Conserved, OneRowPerSale, OneRowPerDebt, DoneOk, TxOk, Apart;
  }

  lemma GoesApart(s: State, t: TxId, n: Tx, u: TxId)
    requires Invariant(s) && t in s.txs && Next(s, t) == Goto(n) && u in s.txs && u != t
    ensures Apart(n, s.txs[u]) && Apart(s.txs[u], n)
  {
    hide Invariant, SaleRow, DebtRow, Accepts, Seen, InRange, HeldByOther, InsertedByOther, StockOk, KeyOk, JobOk;
    Holding(s, t, u);
    Holding(s, u, t);
    var tx, other := s.txs[t], s.txs[u];
    if tx.job.Restock? {
      Free(s.txs, t, tx.job.product, u);
    } else if tx.step.Lock? && n.step.Check? {
      Free(s.txs, t, ItemsOf(tx.job)[tx.step.i].product, u);
    } else if tx.step == Insert && n.step == Finishing {
      NoOtherInsert(s.txs, t, tx.job.Sale?, if tx.job.Sale? then tx.job.req.id else tx.job.id, u);
    }
  }

  // ----- a commit ---------------------------------------------------------------------------------------

  lemma MovementGrows(book: Book, row: Row, p: Id)
    ensures Movement(book + [row], p) == Movement(book, p) + Moved(row, p)
  {
    assert (book + [row])[..|book|] == book;
  }

  /** What a finished transaction took is what its row moves. */
  lemma TakenIsMoved(tx: Tx, row: Row, p: Id)
    requires tx.step == Finishing && StepOk(tx)
    requires match tx.job
             case Sale(req) => row == Completed(req)
             case Debt(_, _, _, _, _) => row == OwedBy(tx.job)
             case Restock(product, quantity) => row == Restocked(product, quantity)
    ensures Moved(row, p) == -Taken(tx, p)
  {
    var items := ItemsOf(tx.job);
    assert items[..|items|] == items;
    if tx.job.Debt? {
      assert items[..0] == [] && Progress(tx) == 1;
      assert Demand(items, p) == if tx.job.product == p then tx.job.quantity else 0;
    }
  }

  lemma PublishConserves(products: map<Id, Product>, book: Book, tx: Tx, row: Row)
    requires Conserved(products, book) && StockOk(products, tx)
    requires forall p :: Moved(row, p) == -Taken(tx, p)
    ensures Conserved(Published(products, tx.written), book + [row])
  {
    forall p ensures Movement(book + [row], p) == Movement(book, p) - Taken(tx, p) { MovementGrows(book, row, p); }
    assert Balanced(products, tx);
  }

  /** A commit elsewhere changes only rows this transaction has not locked. */
  lemma OtherStaysOk(products: map<Id, Product>, book: Book, written: map<Id, int>, row: Row, other: Tx)
    requires TxOk(products, book, other) && written.Keys !! other.locked
    requires other.step == Finishing && other.job.Sale? ==> SaleId(row) != Some(other.job.req.id)
    requires other.step == Finishing && other.job.Debt? && row.Owed? ==> row.id != other.job.id
    ensures TxOk(Published(products, written), book + [row], other)
  {
    var next := Published(products, written);
    assert forall p :: p in other.locked ==> next[p] == products[p];
    assert Balanced(products, other);
  }

  lemma NoSaleMeans(book: Book, id: Id, i: nat)
    requires NoSale(book, id) && i < |book|
    ensures SaleId(book[i]) != Some(id)
  {
    assert book[i] in book;
  }

  lemma RowsStayUnique(book: Book, row: Row)
    requires OneRowPerSale(book) && OneRowPerDebt(book)
    requires SaleId(row).Some? ==> NoSale(book, SaleId(row).value) && WellFormed(row.req)
    requires row.Owed? ==> NoDebt(book, row.id)
    ensures OneRowPerSale(book + [row]) && OneRowPerDebt(book + [row])
  {
    var next := book + [row];
    forall i, j | 0 <= i < j < |next| && SaleId(next[i]).Some? ensures SaleId(next[i]) != SaleId(next[j]) {
      if j == |book| && SaleId(row).Some? { NoSaleMeans(book, SaleId(row).value, i); }
    }
    forall i, j | 0 <= i < j < |next| && next[i].Owed? && next[j].Owed? ensures next[i].id != next[j].id {
      if j == |book| { assert next[i] in book; }
    }
  }

  lemma DoneStays(book: Book, row: Row, d: Done)
    requires DoneOk(book, d)
    ensures DoneOk(book + [row], d)
  {
    assert forall r :: r in book ==> r in book + [row];
  }

  /** The row a commit writes, and that its key was still free. */
  lemma CommitRow(s: State, t: TxId, row: Row)
    requires Invariant(s) && t in s.txs && Next(s, t) == Commit(row)
    ensures SaleId(row).Some? ==> s.txs[t].job.Sale? && SaleId(row) == Some(s.txs[t].job.req.id) && NoSale(s.book, SaleId(row).value) && WellFormed(row.req)
    ensures row.Owed? ==> s.txs[t].job.Debt? && row == OwedBy(s.txs[t].job) && NoDebt(s.book, row.id)
    ensures s.txs[t].job.Sale? ==> row == Completed(s.txs[t].job.req) || row == Rejected(s.txs[t].job.req)
    ensures s.txs[t].job.Debt? ==> row == OwedBy(s.txs[t].job)
    ensures s.txs[t].job.Restock? ==> row.Restocked?
    ensures forall p :: Moved(row, p) == -Taken(s.txs[t], p)
  {
    var tx := s.txs[t];
    assert TxOk(s.products, s.book, tx);
    if tx.step == Finishing {
      forall p ensures Moved(row, p) == -Taken(tx, p) { TakenIsMoved(tx, row, p); }
    } else {
      assert ItemsOf(tx.job)[..0] == [];
    }
  }

  /** No other transaction is about to commit the same key. */
  lemma CommitApart(s: State, t: TxId, row: Row, u: TxId)
    requires Invariant(s) && t in s.txs && Next(s, t) == Commit(row) && u in s.txs && u != t
    ensures s.txs[t].written.Keys !! s.txs[u].locked
    ensures s.txs[u].step == Finishing && s.txs[u].job.Sale? ==> SaleId(row) != Some(s.txs[u].job.req.id)
    ensures s.txs[u].step == Finishing && s.txs[u].job.Debt? && row.Owed? ==> row.id != s.txs[u].job.id
  {
    var tx, other := s.txs[t], s.txs[u];
    assert TxOk(s.products, s.book, tx) && Apart(tx, other);
    CommitRow(s, t, row);
    if tx.step == InsertRejected { NoOtherInsert(s.txs, t, true, tx.job.req.id, u); }
  }

  lemma CommitDone(s: State, t: TxId, row: Row)
    requires Invariant(s) && t in s.txs && Next(s, t) == Commit(row)
    ensures var d := Done(s.txs[t].job, if row.Rejected? then CreatedRejected else Created);
            && DoneOk(s.book + [row], d)
            && forall u :: u in s.done && SaysCreated(s.done[u]) && SaysCreated(d) ==> s.done[u].job.req.id != d.job.req.id
  {
    CommitRow(s, t, row);
    assert row in s.book + [row];
    forall u | u in s.done && SaysCreated(s.done[u]) && s.txs[t].job.Sale? ensures s.done[u].job.req.id != s.txs[t].job.req.id {
      assert DoneOk(s.book, s.done[u]);
    }
  }

  lemma OtherSurvives(s: State, t: TxId, row: Row, u: TxId)
    requires Invariant(s) && t in s.txs && Next(s, t) == Commit(row) && u in s.txs && u != t
    ensures TxOk(Published(s.products, s.txs[t].written), s.book + [row], s.txs[u])
  {
    CommitApart(s, t, row, u);
    assert TxOk(s.products, s.book, s.txs[u]);
    hide Conserved, OneRowPerSale, OneRowPerDebt, Apart, DoneOk, Next, TxOk, Published;
    OtherStaysOk(s.products, s.book, s.txs[t].written, row, s.txs[u]);
  }

  lemma CommitKeeps(s: State, t: TxId, row: Row)
    requires Invariant(s) && t in s.txs && Next(s, t) == Commit(row)
    ensures Invariant(RunOne(s, t))
  {
    hide StepOk, KeyOk, JobOk, Moved, Taken, NoSale, NoDebt, Published, WellFormed, Conserved, OneRowPerSale, OneRowPerDebt, Apart, DoneOk, StockOk, Next;
    var tx, s' := s.txs[t], RunOne(s, t);
    CommitRow(s, t, row);
    Running(s, t);
    PublishConserves(s.products, s.book, tx, row);
    RowsStayUnique(s.book, row);
    forall u | u in s'.txs ensures TxOk(s'.products, s'.book, s'.txs[u]) { OtherSurvives(s, t, row, u); }
    CommitDone(s, t, row);
    forall u | u in s.done ensures DoneOk(s'.book, s.done[u]) { DoneStays(s.book, row, s.done[u]); }
  }

  // ----- every action -------------------------------------------------------------------------------------

  lemma FinishOk(s: State, t: TxId, outcome: Outcome)
    requires Invariant(s) && t in s.txs && (Next(s, t) == Finish(outcome) || outcome == Failed)
    ensures DoneOk(s.book, Done(s.txs[t].job, outcome)) && !SaysCreated(Done(s.txs[t].job, outcome))
  {
    var tx := s.txs[t];
    assert TxOk(s.products, s.book, tx);
    if outcome == Replayed && tx.job.Sale? {
      var row := SaleRow(s.book, tx.job.req.id).value;
      assert row in s.book && SaleId(row) == Some(tx.job.req.id);
    }
  }

  lemma EndKeeps(s: State, t: TxId, outcome: Outcome)
    requires Invariant(s) && t in s.txs
    requires DoneOk(s.book, Done(s.txs[t].job, outcome)) && !SaysCreated(Done(s.txs[t].job, outcome))
    ensures Invariant(End(s, t, outcome))
  {
    hide Conserved, OneRowPerSale, OneRowPerDebt, TxOk, Apart, DoneOk, Next;
  }

  lemma GotoKeeps(s: State, t: TxId, n: Tx)
    requires Invariant(s) && t in s.txs && Next(s, t) == Goto(n)
    ensures Invariant(RunOne(s, t))
  {
    match s.txs[t].job {
      case Sale(_) => SaleGoes(s, t, n);
      case Debt(_, _, _, _, _) => DebtGoes(s, t, n);
      case Restock(_, _) => RestockGoes(s, t, n);
    }
    forall u | u in s.txs && u != t ensures Apart(n, s.txs[u]) && Apart(s.txs[u], n) { GoesApart(s, t, n, u); }
    hide Conserved, OneRowPerSale, OneRowPerDebt, TxOk, Apart, DoneOk, Next;
  }

  lemma RunKeeps(s: State, t: TxId)
    requires Invariant(s) && t in s.txs
    ensures Invariant(RunOne(s, t))
  {
    match Next(s, t)
    case Goto(n) => GotoKeeps(s, t, n);
    case Wait =>
    case Finish(outcome) =>
      FinishOk(s, t, outcome);
      EndKeeps(s, t, outcome);
    case Commit(row) => CommitKeeps(s, t, row);
  }

  lemma BeginKeeps(s: State, t: TxId, job: Job)
    requires Invariant(s) && JobOk(job) && t !in s.txs && t !in s.done
    ensures Invariant(Apply(s, Begin(t, job)))
  {
    var tx := Tx(job, if job.Restock? then Lock(0) else Look, {}, map[], 0);
    forall p ensures Taken(tx, p) == 0 { assert ItemsOf(job)[..0] == []; }
    assert TxOk(s.products, s.book, tx);
    hide Conserved, OneRowPerSale, OneRowPerDebt, TxOk, DoneOk, Next;
  }

  lemma ProductsChangeKeeps(s: State, products: map<Id, Product>)
    requires Invariant(s) && Conserved(products, s.book) && s.products.Keys <= products.Keys
    requires forall t, p :: t in s.txs && p in s.txs[t].locked && p in s.products ==> products[p] == s.products[p]
    ensures Invariant(s.(products := products))
  {
    forall t | t in s.txs ensures TxOk(products, s.book, s.txs[t]) {
      assert TxOk(s.products, s.book, s.txs[t]) && Balanced(s.products, s.txs[t]);
      assert forall p :: p in s.txs[t].written ==> p in s.txs[t].locked;
    }
  }

  lemma ApplyKeeps(s: State, a: Action)
    requires Invariant(s)
    ensures Invariant(Apply(s, a))
  {
    match a
    case Begin(t, job) => if t !in s.txs && t !in s.done && JobOk(job) { BeginKeeps(s, t, job); }
    case Run(t) => if t in s.txs { RunKeeps(s, t); }
    case Abort(t) => if t in s.txs { FinishOk(s, t, Failed); EndKeeps(s, t, Failed); }
    case Create(p, initial, quantity, price) => ProductsChangeKeeps(s, Apply(s, a).products);
    case Edit(p, active, price) => ProductsChangeKeeps(s, Apply(s, a).products);
    case Foreign(_) =>
  }

  /** The invariant holds after every run. */
  lemma {:induction false} Reachable(actions: seq<Action>)
    ensures Invariant(Execute(actions))
  {
    if actions != [] {
      Reachable(actions[..|actions| - 1]);
      ApplyKeeps(Execute(actions[..|actions| - 1]), actions[|actions| - 1]);
    }
  }
}
