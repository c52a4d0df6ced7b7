/**
 * Sales, debts and restocks as interleaved statements over product rows.
 *
 * A sale or a debt locks a product row, reads it and writes the stock as an absolute
 * value; a restock is one guarded increment. Row locks and own writes last until commit
 * or rollback; plain reads see committed rows and the transaction's own writes.
 */
module Stock {
  import opened Basics
  import opened SaleReplay

  type TxId = int

  const MAX_STOCK := 2_147_483_647

  /** Cents that fit the stored integer type; other amounts make the call fail. */
  predicate InRange(cents: int) { -2_147_483_648 <= cents <= 2_147_483_647 }

  datatype Product = Product(initial: int, stock: int, byQuantity: bool, active: bool, price: int)

  datatype Job =
    | Sale(req: Request)
    | Debt(id: Id, product: Id, quantity: int, initial: int, terms: string)
    | Restock(product: Id, quantity: int)

  /** A committed row: a completed or rejected sale, a debt, or a restock movement. */
  datatype Row =
    | Completed(req: Request)
    | Rejected(req: Request)
    | Owed(id: Id, product: Id, quantity: int, initial: int, terms: string)
    | Restocked(product: Id, quantity: int)

  type Book = seq<Row>

  /** Why an attempt was rolled back before looking the id up again. */
  datatype Cause = IdTaken | StockConflict | BadRequest

  datatype Step =
    | Look
    | Peek(i: nat)
    | Lock(i: nat)
    | Check(i: nat)
    | Write(i: nat, value: int)
    | Insert
    | Finishing
    | Reread(cause: Cause)
    | InsertRejected
    | RereadRejected

  datatype Tx = Tx(job: Job, step: Step, locked: set<Id>, written: map<Id, int>, total: int)

  datatype Outcome = Created | CreatedRejected | Replayed | Conflict | Refused | Failed

  datatype Done = Done(job: Job, outcome: Outcome)

  /** Ids that rows of other contexts hold stand in `foreign`. */
  datatype State = State(products: map<Id, Product>, book: Book, foreign: set<Id>, txs: map<TxId, Tx>, done: map<TxId, Done>)

  datatype Action =
    | Begin(t: TxId, job: Job)
    | Run(t: TxId)
    | Abort(t: TxId)
    | Create(p: Id, initial: int, byQuantity: bool, price: int)
    | Edit(p: Id, active: bool, price: int)
    | Foreign(id: Id)

  datatype Effect =
    | Goto(next: Tx)
    | Wait
    | Finish(outcome: Outcome)
    | Commit(row: Row)

  // ----- reading --------------------------------------------------------------------------

  function SaleRow(book: Book, id: Id): (found: Option<Row>)
    ensures found.Some? ==> found.value in book && (found.value.Completed? || found.value.Rejected?) && found.value.req.id == id
    ensures found.None? ==> NoSale(book, id)
  {
    if book == [] then None
    else
      var last := book[|book| - 1];
      assert book == book[..|book| - 1] + [last];
      if (last.Completed? || last.Rejected?) && last.req.id == id then Some(last) else SaleRow(book[..|book| - 1], id)
  }

  function DebtRow(book: Book, id: Id): (found: Option<Row>)
    ensures found.Some? ==> found.value in book && found.value.Owed? && found.value.id == id
    ensures found.None? ==> NoDebt(book, id)
  {
    if book == [] then None
    else
      var last := book[|book| - 1];
      assert book == book[..|book| - 1] + [last];
      if last.Owed? && last.id == id then Some(last) else DebtRow(book[..|book| - 1], id)
  }

  ghost predicate NoSale(book: Book, id: Id) {
    forall r :: r in book && (r.Completed? || r.Rejected?) ==> r.req.id != id
  }

  ghost predicate NoDebt(book: Book, id: Id) {
    forall r :: r in book && r.Owed? ==> r.id != id
  }

  predicate Accepts(row: Row, req: Request)
    requires row.Completed? || row.Rejected?
  {
    IsReplay(StoredFrom(row.req, row.Rejected?), req)
  }

  function Seen(products: map<Id, Product>, tx: Tx, p: Id): int
    requires p in products
  {
    if p in tx.written then tx.written[p] else products[p].stock
  }

  predicate HeldByOther(txs: map<TxId, Tx>, t: TxId, p: Id) {
    exists u :: u in txs && u != t && p in txs[u].locked
  }

  /** Another transaction inserted a row with this key and has not committed. */
  predicate InsertedByOther(txs: map<TxId, Tx>, t: TxId, sale: bool, id: Id) {
    exists u :: u in txs && u != t && Inserting(txs[u], sale, id)
  }

  predicate Inserting(tx: Tx, sale: bool, id: Id) {
    && tx.step == Finishing
    && if sale then tx.job.Sale? && tx.job.req.id == id else tx.job.Debt? && tx.job.id == id
  }

  // ----- one statement ----------------------------------------------------------------------

  function ItemsOf(job: Job): seq<Item> {
    match job
    case Sale(req) => req.items
    case Debt(_, product, quantity, _, _) => [Item(product, quantity)]
    case Restock(_, _) => []
  }

  /** The transaction failed: its locks and writes are gone. */
  function RolledBack(tx: Tx, cause: Cause): Effect {
    Goto(Tx(tx.job, Reread(cause), {}, map[], 0))
  }

  function After(tx: Tx, i: nat): Step {
    if i < |ItemsOf(tx.job)| then Peek(i) else Insert
  }

  function NextPeek(s: State, tx: Tx, i: nat): Effect
    requires i < |ItemsOf(tx.job)|
  {
    var item := ItemsOf(tx.job)[i];
    if item.product !in s.products || !s.products[item.product].active || item.quantity > Seen(s.products, tx, item.product)
    then RolledBack(tx, BadRequest)
    else Goto(tx.(step := Lock(i)))
  }

  function NextLock(s: State, t: TxId, tx: Tx, i: nat): Effect
    requires i < |ItemsOf(tx.job)|
  {
    var item := ItemsOf(tx.job)[i];
    if item.product !in s.products then RolledBack(tx, BadRequest)
    else if HeldByOther(s.txs, t, item.product) then Wait
    else Goto(tx.(step := Check(i), locked := tx.locked + {item.product}))
  }

  function NextCheck(s: State, tx: Tx, i: nat): Effect
    requires i < |ItemsOf(tx.job)|
  {
    var item := ItemsOf(tx.job)[i];
    if item.product !in s.products || !s.products[item.product].active then RolledBack(tx, BadRequest)
    else
      var seen := Seen(s.products, tx, item.product);
      if item.quantity > seen then RolledBack(tx, if tx.job.Sale? then StockConflict else BadRequest)
      else if !InRange(s.products[item.product].price * item.quantity) then Finish(Failed)
      else Goto(tx.(step := Write(i, seen - item.quantity), total := tx.total + s.products[item.product].price * item.quantity))
  }

  function NextWrite(tx: Tx, i: nat, value: int): Effect
    requires i < |ItemsOf(tx.job)|
  {
    Goto(tx.(step := After(tx, i + 1), written := tx.written[ItemsOf(tx.job)[i].product := value]))
  }

  function NextSale(s: State, t: TxId, tx: Tx): Effect
    requires tx.job.Sale?
  {
    var req := tx.job.req;
    match tx.step
    case Look =>
      (match SaleRow(s.book, req.id)
       case Some(row) => Finish(if Accepts(row, req) then Replayed else Conflict)
       case None => Goto(tx.(step := After(tx, 0))))
    case Peek(i) => if i < |req.items| then NextPeek(s, tx, i) else Wait
    case Lock(i) => if i < |req.items| then NextLock(s, t, tx, i) else Wait
    case Check(i) => if i < |req.items| then NextCheck(s, tx, i) else Wait
    case Write(i, value) => if i < |req.items| then NextWrite(tx, i, value) else Wait
    case Insert =>
      if !InRange(tx.total) then Finish(Failed)
      else if IsCash(req.payment) && (req.cash.None? || req.cash.value < tx.total) then RolledBack(tx, BadRequest)
      else if InsertedByOther(s.txs, t, true, req.id) then Wait
      else if SaleRow(s.book, req.id).Some? || req.id in s.foreign then RolledBack(tx, IdTaken)
      else Goto(tx.(step := Finishing))
    case Finishing => Commit(Completed(req))
    case Reread(cause) =>
      (match SaleRow(s.book, req.id)
       case Some(row) => Finish(if Accepts(row, req) then Replayed else Conflict)
       case None =>
         match cause
         case IdTaken => Finish(Conflict)
         case StockConflict => Goto(tx.(step := InsertRejected))
         case BadRequest => Finish(Refused))
    case InsertRejected =>
      if InsertedByOther(s.txs, t, true, req.id) then Wait
      else if SaleRow(s.book, req.id).Some? || req.id in s.foreign then Goto(tx.(step := RereadRejected))
      else Commit(Rejected(req))
    case RereadRejected =>
      match SaleRow(s.book, req.id)
      case Some(row) => Finish(if Accepts(row, req) then Replayed else Conflict)
      case None => Finish(Conflict)
  }

  function OwedBy(job: Job): Row
    requires job.Debt?
  {
    Owed(job.id, job.product, job.quantity, job.initial, job.terms)
  }

  function NextDebt(s: State, t: TxId, tx: Tx): Effect
    requires tx.job.Debt?
  {
    var job := tx.job;
    match tx.step
    case Look =>
      (match DebtRow(s.book, job.id)
       case Some(row) => Finish(if row == OwedBy(job) then Replayed else Conflict)
       case None => Goto(tx.(step := Lock(0))))
    case Lock(i) => if i == 0 then NextLock(s, t, tx, 0) else Wait
    case Check(i) => if i == 0 then NextCheck(s, tx, 0) else Wait
    case Write(i, value) => if i == 0 then NextWrite(tx, 0, value) else Wait
    case Insert =>
      if job.initial > 0 && job.initial > tx.total then RolledBack(tx, BadRequest)
      else if InsertedByOther(s.txs, t, false, job.id) then Wait
      else if DebtRow(s.book, job.id).Some? || job.id in s.foreign then RolledBack(tx, IdTaken)
      else Goto(tx.(step := Finishing))
    case Finishing => Commit(OwedBy(job))
    case Reread(cause) =>
      (match DebtRow(s.book, job.id)
       case Some(row) => Finish(if row == OwedBy(job) then Replayed else Conflict)
       case None => Finish(if cause == IdTaken then Conflict else Refused))
    case _ => Wait
  }

  /** The increment carries every rule in its own condition and takes the row lock. */
  function NextRestock(s: State, t: TxId, tx: Tx): Effect
    requires tx.job.Restock?
  {
    var p, quantity := tx.job.product, tx.job.quantity;
    if tx.step == Finishing then Commit(Restocked(p, quantity))
    else if p !in s.products then Finish(Refused)
    else
      var row := s.products[p];
      if !row.byQuantity || !row.active || row.stock > MAX_STOCK - quantity then Finish(Refused)
      else if HeldByOther(s.txs, t, p) then Wait
      else Goto(tx.(step := Finishing, locked := {p}, written := map[p := row.stock + quantity]))
  }

  function Next(s: State, t: TxId): Effect
    requires t in s.txs
  {
    var tx := s.txs[t];
    match tx.job
    case Sale(_) => NextSale(s, t, tx)
    case Debt(_, _, _, _, _) => NextDebt(s, t, tx)
    case Restock(_, _) => NextRestock(s, t, tx)
  }

  function End(s: State, t: TxId, outcome: Outcome): State
    requires t in s.txs
  {
    s.(txs := s.txs - {t}, done := s.done[t := Done(s.txs[t].job, outcome)])
  }

  /** The committed products after a transaction's writes become visible. */
  function Published(products: map<Id, Product>, written: map<Id, int>): map<Id, Product> {
    map p | p in products :: if p in written then products[p].(stock := written[p]) else products[p]
  }

  function RunOne(s: State, t: TxId): State
    requires t in s.txs
  {
    match Next(s, t)
    case Goto(tx) => s.(txs := s.txs[t := tx])
    case Wait => s
    case Finish(outcome) => End(s, t, outcome)
    case Commit(row) =>
      End(s, t, if row.Rejected? then CreatedRejected else Created)
        .(products := Published(s.products, s.txs[t].written), book := s.book + [row])
  }

  predicate JobOk(job: Job) {
    match job
    case Sale(req) => WellFormed(req)
    case Debt(_, _, quantity, initial, _) => quantity >= 1 && initial >= 0
    case Restock(_, quantity) => quantity >= 1
  }

  function Apply(s: State, a: Action): State {
    match a
    case Begin(t, job) =>
      if t in s.txs || t in s.done || !JobOk(job) then s
      else s.(txs := s.txs[t := Tx(job, if job.Restock? then Lock(0) else Look, {}, map[], 0)])
    case Run(t) => if t in s.txs then RunOne(s, t) else s
    case Abort(t) => if t in s.txs then End(s, t, Failed) else s
    case Create(p, initial, quantity, price) =>
      if p in s.products || !(0 <= initial <= MAX_STOCK) then s
      else s.(products := s.products[p := Product(initial, initial, quantity, true, price)])
    case Edit(p, active, price) =>
      if p !in s.products || exists t :: t in s.txs && p in s.txs[t].locked then s
      else s.(products := s.products[p := s.products[p].(active := active, price := price)])
    case Foreign(id) => s.(foreign := s.foreign + {id})
  }

  function Execute(actions: seq<Action>): State {
    if actions == [] then State(map[], [], {}, map[], map[])
    else Apply(Execute(actions[..|actions| - 1]), actions[|actions| - 1])
  }
}
