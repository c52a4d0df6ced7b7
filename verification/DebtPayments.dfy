/**
 * Payments on a debt as interleaved statements: the debt row is locked before its payments
 * are summed, the balance is checked, the payment is inserted and the debt settled when
 * nothing is left. The balance is never stored; the status is.
 */
module DebtPayments {
  import opened Basics

  type Instant = int
  type TxId = int

  /** A committed debt; once settled it carries the instant of its last payment. */
  datatype Debt = Debt(total: nat, settled: Option<Instant>)

  datatype Payment = Payment(debt: Id, amount: int)

  type Book = seq<Payment>

  datatype Step =
    | Find
    | Lock
    | Sum
    | Insert(paid: int)
    | Settle(paid: int)
    | Finishing(settling: Option<Instant>)

  datatype Tx = Tx(debt: Id, amount: int, step: Step, total: nat)

  datatype Outcome = Registered | NotFound | ExceedsBalance | Aborted

  datatype Done = Done(debt: Id, amount: int, outcome: Outcome)

  datatype State = State(debts: map<Id, Debt>, book: Book, clock: Instant, txs: map<TxId, Tx>, done: map<TxId, Done>)

  /** `Open` is the commit of a debt with its initial payment. */
  datatype Action =
    | Open(id: Id, total: nat, initial: nat)
    | Begin(t: TxId, debt: Id, amount: int)
    | Run(t: TxId)
    | Abort(t: TxId)
    | Tick(elapsed: nat)

  datatype Effect = Goto(next: Tx) | Wait | Finish(outcome: Outcome) | Commit(settling: Option<Instant>)

  /** What has been paid on a debt. */
  function Paid(book: Book, debt: Id): int {
    if book == [] then 0 else
      var last := book[|book| - 1];
      Paid(book[..|book| - 1], debt) + if last.debt == debt then last.amount else 0
  }

  /** One guard for initial and later payments. */
  predicate WithinBalance(paid: int, total: int, amount: int) { amount <= total - paid }

  predicate Holds(tx: Tx) { tx.step.Sum? || tx.step.Insert? || tx.step.Settle? || tx.step.Finishing? }

  predicate HeldByOther(txs: map<TxId, Tx>, t: TxId, debt: Id) {
    exists u :: u in txs && u != t && txs[u].debt == debt && Holds(txs[u])
  }

  function Next(s: State, t: TxId, tx: Tx): Effect {
    match tx.step
    case Find => if tx.debt in s.debts then Goto(tx.(step := Lock, total := s.debts[tx.debt].total)) else Finish(NotFound)
    case Lock => if HeldByOther(s.txs, t, tx.debt) then Wait else Goto(tx.(step := Sum))
    case Sum =>
      var paid := Paid(s.book, tx.debt);
      if WithinBalance(paid, tx.total, tx.amount) then Goto(tx.(step := Insert(paid))) else Finish(ExceedsBalance)
    case Insert(paid) => Goto(tx.(step := if paid + tx.amount >= tx.total then Settle(paid) else Finishing(None)))
    case Settle(_) => Goto(tx.(step := Finishing(Some(s.clock))))
    case Finishing(settling) => Commit(settling)
  }

  function End(s: State, t: TxId, outcome: Outcome): State
    requires t in s.txs
  {
    s.(txs := s.txs - {t}, done := s.done[t := Done(s.txs[t].debt, s.txs[t].amount, outcome)])
  }

  function Settled(debts: map<Id, Debt>, debt: Id, settling: Option<Instant>): map<Id, Debt> {
    if settling.Some? && debt in debts then debts[debt := debts[debt].(settled := settling)] else debts
  }

  function RunOne(s: State, t: TxId): State
    requires t in s.txs
  {
    match Next(s, t, s.txs[t])
    case Goto(tx) => s.(txs := s.txs[t := tx])
    case Wait => s
    case Finish(outcome) => End(s, t, outcome)
    case Commit(settling) =>
      End(s, t, Registered)
        .(book := s.book + [Payment(s.txs[t].debt, s.txs[t].amount)], debts := Settled(s.debts, s.txs[t].debt, settling))
  }

  /** The debt and its initial payment, if any, become visible together. */
  function Opened(s: State, id: Id, total: nat, initial: nat): State {
    var settled := if initial > 0 && initial >= total then Some(s.clock) else None;
    s.(debts := s.debts[id := Debt(total, settled)], book := if initial > 0 then s.book + [Payment(id, initial)] else s.book)
  }

  function Apply(s: State, a: Action): State {
    match a
    case Open(id, total, initial) =>
      if id in s.debts || (initial > 0 && !WithinBalance(0, total, initial)) then s else Opened(s, id, total, initial)
    case Begin(t, debt, amount) =>
      if t in s.txs || t in s.done || amount < 1 then s else s.(txs := s.txs[t := Tx(debt, amount, Find, 0)])
    case Run(t) => if t in s.txs then RunOne(s, t) else s
    case Abort(t) => if t in s.txs then End(s, t, Aborted) else s
    case Tick(elapsed) => s.(clock := s.clock + elapsed)
  }

  function Execute(clock: Instant, actions: seq<Action>): State {
    if actions == [] then State(map[], [], clock, map[], map[])
    else Apply(Execute(clock, actions[..|actions| - 1]), actions[|actions| - 1])
  }

  // ----- the invariant -------------------------------------------------------------------------

  /** Never more than the total, and settled exactly when all of it is paid. */
  ghost predicate Balanced(debts: map<Id, Debt>, book: Book) {
    && (forall d :: d in debts ==>
          0 <= Paid(book, d) <= debts[d].total && (debts[d].settled.Some? <==> debts[d].total > 0 && Paid(book, d) == debts[d].total))
    && (forall d :: d !in debts ==> Paid(book, d) == 0)
  }

  ghost predicate TxOk(s: State, tx: Tx) {
    && tx.amount >= 1
    && (!tx.step.Find? ==> tx.debt in s.debts && tx.total == s.debts[tx.debt].total)
    && (tx.step.Insert? || tx.step.Settle? ==> tx.step.paid == Paid(s.book, tx.debt))
    && (tx.step.Insert? || tx.step.Settle? || tx.step.Finishing? ==> Paid(s.book, tx.debt) + tx.amount <= tx.total)
    && (tx.step.Settle? ==> Paid(s.book, tx.debt) + tx.amount == tx.total)
    && (tx.step.Finishing? ==> (tx.step.settling.Some? <==> Paid(s.book, tx.debt) + tx.amount == tx.total))
  }

  ghost predicate Exclusion(txs: map<TxId, Tx>) {
    forall t, u :: t in txs && u in txs && t != u && Holds(txs[t]) && Holds(txs[u]) ==> txs[t].debt != txs[u].debt
  }

  ghost predicate Invariant(s: State) {
    && Balanced(s.debts, s.book) && Exclusion(s.txs) && s.txs.Keys !! s.done.Keys
    && forall t :: t in s.txs ==> TxOk(s, s.txs[t])
  }

  lemma PaidAppend(book: Book, p: Payment, debt: Id)
    ensures Paid(book + [p], debt) == Paid(book, debt) + if p.debt == debt then p.amount else 0
  {
    assert (book + [p])[..|book|] == book;
  }

  lemma GotoKeeps(s: State, t: TxId, n: Tx)
    requires Invariant(s) && t in s.txs && Next(s, t, s.txs[t]) == Goto(n)
    ensures Invariant(RunOne(s, t))
  {
    var tx, s' := s.txs[t], RunOne(s, t);
    assert TxOk(s, tx);
    hide Paid, Balanced;
    assert TxOk(s', n);
    forall u | u in s.txs && u != t && Holds(n) && Holds(s.txs[u]) ensures s.txs[u].debt != n.debt {
      if tx.step.Lock? { assert !HeldByOther(s.txs, t, tx.debt); }
    }
    forall u | u in s'.txs ensures TxOk(s', s'.txs[u]) {
      if u != t { assert TxOk(s, s.txs[u]); }
    }
  }

  lemma CommitKeeps(s: State, t: TxId)
    requires Invariant(s) && t in s.txs && s.txs[t].step.Finishing?
    ensures Invariant(RunOne(s, t))
  {
    var tx, s' := s.txs[t], RunOne(s, t);
    assert TxOk(s, tx);
    forall d ensures Paid(s'.book, d) == Paid(s.book, d) + if d == tx.debt then tx.amount else 0 {
      PaidAppend(s.book, Payment(tx.debt, tx.amount), d);
    }
    hide Paid;
    forall u | u in s'.txs ensures TxOk(s', s'.txs[u]) {
      assert TxOk(s, s.txs[u]);
      assert Holds(s.txs[u]) ==> s.txs[u].debt != tx.debt;
    }
  }

  lemma OpenKeeps(s: State, id: Id, total: nat, initial: nat)
    requires Invariant(s) && id !in s.debts && (initial > 0 ==> initial <= total)
    ensures Invariant(Opened(s, id, total, initial))
  {
    var s' := Opened(s, id, total, initial);
    forall d ensures Paid(s'.book, d) == Paid(s.book, d) + if d == id then initial else 0 {
      PaidAppend(s.book, Payment(id, initial), d);
    }
    hide Paid;
    forall u | u in s'.txs ensures TxOk(s', s'.txs[u]) { assert TxOk(s, s.txs[u]); }
  }

  lemma EndKeeps(s: State, t: TxId, outcome: Outcome)
    requires Invariant(s) && t in s.txs
    ensures Invariant(End(s, t, outcome))
  {
    hide Paid, Balanced;
    var s' := End(s, t, outcome);
    forall u | u in s'.txs ensures TxOk(s', s'.txs[u]) { assert TxOk(s, s.txs[u]); }
  }

  lemma ApplyKeeps(s: State, a: Action)
    requires Invariant(s)
    ensures Invariant(Apply(s, a))
  {
    match a
    case Open(id, total, initial) =>
      if id !in s.debts && (initial > 0 ==> WithinBalance(0, total, initial)) { OpenKeeps(s, id, total, initial); }
    case Begin(_, _, _) => hide Paid, Balanced; assert forall u :: u in s.txs ==> TxOk(s, s.txs[u]);
    case Run(t) =>
      if t in s.txs {
        match Next(s, t, s.txs[t])
        case Goto(n) => GotoKeeps(s, t, n);
        case Wait =>
        case Finish(outcome) => EndKeeps(s, t, outcome);
        case Commit(_) => CommitKeeps(s, t);
      }
    case Abort(t) => if t in s.txs { EndKeeps(s, t, Aborted); }
    case Tick(_) => hide Paid, Balanced; assert forall u :: u in s.txs ==> TxOk(s, s.txs[u]);
  }

  lemma {:induction false} Reachable(clock: Instant, actions: seq<Action>)
    ensures Invariant(Execute(clock, actions))
  {
    if actions != [] {
      Reachable(clock, actions[..|actions| - 1]);
      ApplyKeeps(Execute(clock, actions[..|actions| - 1]), actions[|actions| - 1]);
    }
  }

  // ----- over every run -----------------------------------------------------------------------

  /**
   * In every interleaving: no debt is paid beyond its total, and it is settled exactly when
   * its payments reach a total above zero.
   */
  lemma BalanceIsSafe(clock: Instant, actions: seq<Action>, debt: Id)
    requires debt in Execute(clock, actions).debts
    ensures var s := Execute(clock, actions);
            && 0 <= Paid(s.book, debt) <= s.debts[debt].total
            && (s.debts[debt].settled.Some? <==> s.debts[debt].total > 0 && Paid(s.book, debt) == s.debts[debt].total)
  {
    Reachable(clock, actions);
  }

  /** A debt keeps its total; a settled one keeps its instant too, and takes no further payment. */
  ghost predicate Kept(before: State, after: State) {
    && before.book <= after.book
    && forall d :: d in before.debts ==>
         && d in after.debts && after.debts[d].total == before.debts[d].total
         && (before.debts[d].settled.Some? ==>
               after.debts[d] == before.debts[d] && Paid(after.book, d) == Paid(before.book, d))
  }

  lemma OneMore(s: State, a: Action)
    requires Invariant(s)
    ensures Kept(s, Apply(s, a))
  {
    if a.Run? && a.t in s.txs && s.txs[a.t].step.Finishing? {
      var tx := s.txs[a.t];
      assert TxOk(s, tx);
      forall d { PaidAppend(s.book, Payment(tx.debt, tx.amount), d); }
    } else if a.Open? {
      forall d { PaidAppend(s.book, Payment(a.id, a.initial), d); }
    }
    hide Paid;
  }

  lemma KeptOn(a: State, b: State, c: State)
    requires Kept(a, b) && Kept(b, c)
    ensures Kept(a, c)
  {
    hide Paid;
  }

  lemma {:induction false} SettledForGood(clock: Instant, actions: seq<Action>, more: seq<Action>)
    ensures Kept(Execute(clock, actions), Execute(clock, actions + more))
    decreases |more|
  {
    hide Kept, Apply;
    if more == [] {
      assert actions + more == actions;
      KeptItself(Execute(clock, actions));
    } else {
      var last := |more| - 1;
      var run := actions + more[..last];
      assert (actions + more)[..|actions + more| - 1] == run;
      SettledForGood(clock, actions, more[..last]);
      Reachable(clock, run);
      OneMore(Execute(clock, run), more[last]);
      KeptOn(Execute(clock, actions), Execute(clock, run), Execute(clock, actions + more));
    }
  }

  lemma KeptItself(s: State)
    ensures Kept(s, s)
  {
  }

  // ----- a payment that nobody disturbs ---------------------------------------------------------

  function Again(s: State, t: TxId, n: nat): State
    decreases n
  {
    if n == 0 then s else Again(Apply(s, Run(t)), t, n - 1)
  }

  lemma {:induction false} GoneStays(s: State, t: TxId, n: nat)
    requires t !in s.txs
    ensures Again(s, t, n) == s
    decreases n
  {
    if n > 0 { GoneStays(s, t, n - 1); }
  }

  lemma Goes(s: State, t: TxId, tx: Tx, n: nat)
    requires s.txs == map[t := tx] && n > 0
    ensures match Next(s, t, tx)
            case Goto(m) => Again(s, t, n) == Again(s.(txs := map[t := m]), t, n - 1)
            case _ => true
  {
    match Next(s, t, tx)
    case Goto(m) => assert s.txs[t := m] == map[t := m];
    case _ =>
  }

  lemma Ends(s: State, t: TxId, tx: Tx, n: nat)
    requires s.txs == map[t := tx] && n > 0
    ensures match Next(s, t, tx)
            case Finish(outcome) => Again(s, t, n) == s.(txs := map[], done := s.done[t := Done(tx.debt, tx.amount, outcome)])
            case Commit(settling) =>
              Again(s, t, n) == s.(txs := map[], done := s.done[t := Done(tx.debt, tx.amount, Registered)],
                                   book := s.book + [Payment(tx.debt, tx.amount)], debts := Settled(s.debts, tx.debt, settling))
            case _ => true
  {
    assert s.txs - {t} == map[];
    if !Next(s, t, tx).Goto? && !Next(s, t, tx).Wait? { GoneStays(RunOne(s, t), t, n - 1); }
  }

  lemma FromBalance(s: State, t: TxId, tx: Tx, n: nat)
    requires s.txs == map[t := tx] && n >= 4 && tx.step.Sum? && tx.amount >= 1 && tx.debt in s.debts && tx.total == s.debts[tx.debt].total
    requires Balanced(s.debts, s.book)
    ensures var s', left := Again(s, t, n), tx.total - Paid(s.book, tx.debt);
            && s'.txs == map[]
            && s'.done == s.done[t := Done(tx.debt, tx.amount, if tx.amount <= left then Registered else ExceedsBalance)]
            && s'.book == (if tx.amount <= left then s.book + [Payment(tx.debt, tx.amount)] else s.book)
            && s'.debts == (if tx.amount == left then s.debts[tx.debt := Debt(tx.total, Some(s.clock))] else s.debts)
  {
    hide Again;
    var paid := Paid(s.book, tx.debt);
    hide Paid;
    if WithinBalance(paid, tx.total, tx.amount) {
      var inserting := tx.(step := Insert(paid));
      Goes(s, t, tx, n);
      var two := s.(txs := map[t := inserting]);
      Goes(two, t, inserting, n - 1);
      if paid + tx.amount >= tx.total {
        var settling := tx.(step := Settle(paid));
        Goes(s.(txs := map[t := settling]), t, settling, n - 2);
        var last := tx.(step := Finishing(Some(s.clock)));
        Ends(s.(txs := map[t := last]), t, last, n - 3);
      } else {
        var last := tx.(step := Finishing(None));
        Ends(s.(txs := map[t := last]), t, last, n - 2);
      }
    } else {
      Ends(s, t, tx, n);
    }
  }

  /**
   * After any run that left nobody paying, a payment that nobody disturbs is registered
   * exactly when the debt exists and its balance covers it; it settles the debt exactly
   * when it uses up the balance, and a refused one changes nothing.
   */
  lemma UndisturbedPayment(clock: Instant, actions: seq<Action>, t: TxId, debt: Id, amount: int)
    requires var s := Execute(clock, actions); s.txs == map[] && t !in s.done && amount >= 1
    ensures var s := Execute(clock, actions);
            var s', left := Again(Apply(s, Begin(t, debt, amount)), t, 6), if debt in s.debts then s.debts[debt].total - Paid(s.book, debt) else 0;
            && s'.txs == map[]
            && s'.done == s.done[t := Done(debt, amount, if debt !in s.debts then NotFound else if amount <= left then Registered else ExceedsBalance)]
            && s'.book == (if amount <= left then s.book + [Payment(debt, amount)] else s.book)
            && s'.debts == (if debt in s.debts && amount == left then s.debts[debt := s.debts[debt].(settled := Some(s.clock))] else s.debts)
  {
    Reachable(clock, actions);
    var s := Execute(clock, actions);
    hide Execute, Again, Paid;
    var first := Tx(debt, amount, Find, 0);
    var begun := Apply(s, Begin(t, debt, amount));
    assert begun == s.(txs := map[t := first]);
    if debt in s.debts {
      Goes(begun, t, first, 6);
      var locking := first.(step := Lock, total := s.debts[debt].total);
      Goes(s.(txs := map[t := locking]), t, locking, 5);
      FromBalance(s.(txs := map[t := locking.(step := Sum)]), t, locking.(step := Sum), 4);
    } else {
      Ends(begun, t, first, 6);
    }
  }
}
