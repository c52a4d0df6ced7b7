/**
 * What each finance transaction may rely on at each of its statements, and why no
 * other transaction can take that away before its commit: the locks it holds.
 */
module SessionInvariants {
  import opened Basics
  import opened Ledger
  import opened LedgerFacts
  import opened Locks
  import opened Sessions
  import PaymentSummary

  // ----- locks held at each statement ---------------------------------------------------

  ghost function Keys(rs: seq<Resource>): set<Lock> {
    set r | r in rs :: Exclusive(r)
  }

  /** Row and day locks held besides the identities. */
  ghost function Extra(tx: Tx): set<Lock> {
    match tx.req
    case CreatePayment(p) =>
      (if 3 <= tx.pc <= 10 then {Shared(RowOfAgreement(p.agreement))} else {})
      + (if 6 <= tx.pc <= 10 then {Exclusive(RowOfParticipant(p.agreement, p.member))} else {})
    case ReversePayment(r) =>
      (if 4 <= tx.pc <= 9 && tx.known.payment.Some?
       then {Exclusive(RowOfParticipant(tx.known.payment.value.agreement, tx.known.payment.value.member))} else {})
      + (if 5 <= tx.pc <= 9 then {Exclusive(RowOfPayment(r.payment))} else {})
    case VoidAgreement(v) => if 3 <= tx.pc then {Exclusive(RowOfAgreement(v.agreement))} else {}
    case CreateShift(s) => if 4 <= tx.pc then {Exclusive(DayKey(s))} else {}
    case CorrectShift(c) => if 5 <= tx.pc && tx.known.original.Some? then Keys(DayKeys(tx.known.original.value, c)) else {}
  }

  ghost predicate TakingKeys(tx: Tx, keys: seq<Resource>, before: set<Lock>) {
    |tx.queue| <= |keys|
    && var k := |keys| - |tx.queue|;
       tx.queue == keys[k..] && tx.held == before + Keys(keys[..k])
  }

  ghost predicate HeldOk(tx: Tx) {
    var ids := IdentityKeys(tx.req);
    if tx.pc == 0 then TakingKeys(tx, ids, {})
    else if tx.req.CorrectShift? && tx.pc == 4 && tx.known.original.Some? then
      TakingKeys(tx, DayKeys(tx.known.original.value, tx.req.cor), Keys(ids))
    else tx.queue == [] && tx.held == Keys(ids) + Extra(tx)
  }

  // ----- facts known at each statement -----------------------------------------------------

  ghost predicate AgreementSince(log: Log, id: Id, since: Instant) {
    exists a :: a in log && a.AgreementRow? && a.id == id && a.occurredAt == since
  }

  ghost predicate Agreed(log: Log, id: Id, since: Instant, member: Id, total: nat) {
    exists a :: a in log && a.AgreementRow? && a.id == id && a.occurredAt == since && Participant(member, total) in a.participants
  }

  ghost predicate PaymentOk(log: Log, tx: Tx, p: Payment) {
    && tx.pc <= 11 && p.amount > 0
    && (2 <= tx.pc <= 10 ==> NoPayment(log, p.id))
    && (3 <= tx.pc <= 10 ==> AgreementSince(log, p.agreement, tx.known.since))
    && (4 <= tx.pc <= 10 ==> NotVoided(log, p.agreement))
    && (5 <= tx.pc <= 10 ==> Agreed(log, p.agreement, tx.known.since, p.member, tx.known.agreed))
    && (7 <= tx.pc <= 10 ==> tx.known.since <= p.occurredAt)
    && (8 <= tx.pc <= 10 ==> Paid(log, p.agreement, p.member) + p.amount <= tx.known.agreed)
    && (9 <= tx.pc <= 10 ==> tx.pending == [PaymentRow(p)])
    && (tx.pc == 11 ==> PaymentRow(p) in log)
  }

  ghost predicate ReversalOk(log: Log, tx: Tx, r: Reversal) {
    && tx.pc <= 10
    && (2 <= tx.pc <= 9 ==> NoReversal(log, r.id))
    && (3 <= tx.pc <= 9 ==> tx.known.payment.Some? && PaymentRow(tx.known.payment.value) in log && tx.known.payment.value.id == r.payment)
    && (6 <= tx.pc <= 9 ==> NotReversed(log, r.payment))
    && (7 <= tx.pc <= 9 ==> tx.known.payment.value.occurredAt <= r.occurredAt)
    && (8 <= tx.pc <= 9 ==> tx.pending == [ReversalRow(r)])
    && (tx.pc == 10 ==> ReversalRow(r) in log)
  }

  ghost predicate VoidOk(log: Log, tx: Tx, v: Void) {
    && tx.pc <= 6 && v.id != v.agreement
    && (2 <= tx.pc ==> NoVoid(log, v.id))
    && (3 <= tx.pc ==> AgreementSince(log, v.agreement, tx.known.since))
    && (4 <= tx.pc ==> NotVoided(log, v.agreement))
    && (5 <= tx.pc ==> tx.known.since <= v.occurredAt)
    && (6 <= tx.pc ==> tx.pending == [VoidRow(v)])
  }

  ghost predicate ShiftOk(log: Log, tx: Tx, s: Shift) {
    && tx.pc <= 6
    && (2 <= tx.pc ==> NoShift(log, s.id))
    && (3 <= tx.pc ==> NoCorrection(log, s.id))
    && (5 <= tx.pc ==> tx.known.others == Work(log, DayOf(s.member, s.day)).shifts)
    && (6 <= tx.pc ==> tx.pending == [ShiftRow(s, Direct, tx.known.others)])
  }

  ghost predicate CorrectionOk(log: Log, tx: Tx, c: Correction) {
    && tx.pc <= 10 && Accepted(tx.req)
    && (2 <= tx.pc ==> NoCorrection(log, c.id))
    && (3 <= tx.pc ==> NoShift(log, c.id))
    && (4 <= tx.pc ==> tx.known.original.Some? && HasShift(log, tx.known.original.value) && tx.known.original.value.id == c.shift)
    && (4 <= tx.pc ==> NotCorrected(log, c.shift))
    && (6 <= tx.pc && c.replacement.Some? ==> NoShift(log, c.replacement.value.id))
    && (7 <= tx.pc && c.replacement.Some? ==> NoCorrection(log, c.replacement.value.id))
    && (8 <= tx.pc && c.replacement.Some? ==> tx.known.others == OthersFor(log, c, c.replacement.value))
    && (tx.pc <= 8 || (tx.pc == 9 && c.replacement.None?) ==> tx.pending == [])
    && (tx.pc == 9 && c.replacement.Some? ==> tx.pending == [Replacement(tx, c)])
    && (tx.pc == 10 ==> tx.pending == (if c.replacement.Some? then [Replacement(tx, c)] else []) + [CorrectionRow(c)])
  }

  ghost predicate HasShift(log: Log, s: Shift) {
    exists r :: r in log && r.ShiftRow? && r.shift == s
  }

  ghost function Replacement(tx: Tx, c: Correction): Row
    requires c.replacement.Some?
  {
    ShiftRow(c.replacement.value, ReplacementOf(c.id), tx.known.others)
  }

  ghost function OthersFor(log: Log, c: Correction, s: Shift): int {
    WorkWithout(log, DayOf(s.member, s.day), CorrectedIn(log) + {c.shift}).shifts
  }

  ghost predicate FactsOk(log: Log, tx: Tx) {
    match tx.req
    case CreatePayment(p) => PaymentOk(log, tx, p)
    case ReversePayment(r) => ReversalOk(log, tx, r)
    case VoidAgreement(v) => VoidOk(log, tx, v)
    case CreateShift(s) => ShiftOk(log, tx, s)
    case CorrectShift(c) => CorrectionOk(log, tx, c)
  }

  ghost predicate TxOk(log: Log, tx: Tx) {
    HeldOk(tx) && FactsOk(log, tx)
  }

  // ----- what a request leaves in the ledger --------------------------------------------

  ghost predicate Recorded(log: Log, req: Request) {
    match req
    case CreatePayment(p) => PaymentRow(p) in log
    case ReversePayment(r) => ReversalRow(r) in log
    case VoidAgreement(v) => VoidRow(v) in log
    case CreateShift(s) => exists n: nat :: ShiftRow(s, Direct, n) in log
    case CorrectShift(c) => CorrectionRow(c) in log
  }

  ghost predicate IdUnused(log: Log, req: Request) {
    match req
    case CreatePayment(p) => NoPayment(log, p.id)
    case ReversePayment(r) => NoReversal(log, r.id)
    case VoidAgreement(v) => NoVoid(log, v.id)
    case CreateShift(s) => NoShift(log, s.id)
    case CorrectShift(c) => NoCorrection(log, c.id)
  }

  // ----- a transaction's own next statement --------------------------------------------------

  /** The next statement keeps the facts; only a committed request is created or replayed; no summary is overpaid. */
  ghost predicate FactsKept(log: Log, tx: Tx, e: Effect) {
    match e
    case Goto(n) => FactsOk(log, n) && n.req == tx.req
    case Take(_, n) => FactsOk(log, n) && n.req == tx.req
    case Finish(o) => o != SummaryFailed(PaymentSummary.Overpaid) && o != Created && (o == Replayed ==> Recorded(log, tx.req))
    case Commit(rows) => rows == tx.pending && tx.pc == CommitPc(tx.req)
  }

  /** The next statement keeps the lock discipline: a new lock comes after every lock held. */
  ghost predicate HeldKept(tx: Tx, e: Effect) {
    match e
    case Goto(n) => HeldOk(n) && n.held == tx.held
    case Take(lock, n) =>
      && HeldOk(n.(held := n.held + {lock})) && n.held == tx.held
      && forall h :: h in tx.held ==> Before(h.on, lock.on)
    case _ => true
  }

  function CommitPc(req: Request): nat {
    match req
    case CreatePayment(_) => 10
    case ReversePayment(_) => 9
    case VoidAgreement(_) => 6
    case CreateShift(_) => 6
    case CorrectShift(_) => 10
  }

  /** A commit leaves a good log, under the right locks, and records the request under a fresh id. */
  ghost predicate CommitOk(log: Log, tx: Tx) {
    && GoodLog(log + tx.pending) && Closed(log + tx.pending) && Guards(log, tx.pending, tx.held)
    && Recorded(log + tx.pending, tx.req) && IdUnused(log, tx.req)
  }

  /** The locks under which a row may be committed. */
  ghost predicate Guarded(log: Log, row: Row, held: set<Lock>) {
    match row
    case AgreementRow(_, _, _) => true
    case PaymentRow(p) =>
      && Exclusive(PaymentIdentity(p.id)) in held && Shared(RowOfAgreement(p.agreement)) in held
      && Exclusive(RowOfParticipant(p.agreement, p.member)) in held
    case ReversalRow(r) => Exclusive(ReversalIdentity(r.id)) in held && Exclusive(RowOfPayment(r.payment)) in held
    case VoidRow(v) => Exclusive(AgreementIdentity(v.id)) in held && Exclusive(RowOfAgreement(v.agreement)) in held
    case ShiftRow(s, _, _) => Exclusive(ShiftIdentity(s.id)) in held && Exclusive(DayKey(s)) in held
    case CorrectionRow(c) =>
      && Exclusive(ShiftIdentity(c.id)) in held && Exclusive(ShiftIdentity(c.shift)) in held
      && forall r :: r in log && r.ShiftRow? && r.shift.id == c.shift ==> Exclusive(DayKey(r.shift)) in held
  }

  ghost predicate Guards(log: Log, rows: Log, held: set<Lock>)
    decreases |rows|
  {
    |rows| > 0 ==>
      && Guarded(log, rows[0], held) && Admissible(log, rows[0]) && GoodLog(log + [rows[0]])
      && Guards(log + [rows[0]], rows[1..], held)
  }

  lemma KeysOfPrefix(keys: seq<Resource>, k: nat)
    requires InOrder(keys) && k < |keys|
    ensures Keys(keys[..k + 1]) == Keys(keys[..k]) + {Exclusive(keys[k])}
    ensures forall h :: h in Keys(keys[..k]) ==> Before(h.on, keys[k])
    ensures keys[k..][0] == keys[k] && keys[k..][1..] == keys[k + 1..]
  {
    assert keys[..k + 1] == keys[..k] + [keys[k]];
  }

  /** Taking the next key of a list respects the order, provided the list comes after what is held. */
  lemma TakingNextKey(tx: Tx, keys: seq<Resource>, before: set<Lock>)
    requires TakingKeys(tx, keys, before) && InOrder(keys) && tx.queue != []
    requires forall h, r :: h in before && r in keys ==> Before(h.on, r)
    ensures var n := tx.(queue := tx.queue[1..], held := tx.held + {Exclusive(tx.queue[0])});
            TakingKeys(n, keys, before)
    ensures forall h :: h in tx.held ==> Before(h.on, tx.queue[0])
  {
    var k := |keys| - |tx.queue|;
    KeysOfPrefix(keys, k);
    forall h | h in tx.held ensures Before(h.on, tx.queue[0]) {
      assert keys[k] in keys;
    }
  }

  lemma IdentityClass(req: Request)
    ensures forall r :: r in IdentityKeys(req) ==> r.Class() <= 3
    ensures forall h :: h in Keys(IdentityKeys(req)) ==> h.on.Class() <= 3
  {
  }

  lemma AllKeysTaken(tx: Tx, keys: seq<Resource>, before: set<Lock>)
    requires TakingKeys(tx, keys, before) && tx.queue == []
    ensures tx.held == before + Keys(keys)
  {
    assert keys[..|keys|] == keys;
  }

  /** The identity stage, common to every kind of transaction. */
  lemma IdentityStage(tx: Tx)
    requires HeldOk(tx) && tx.pc == 0
    ensures HeldKept(tx, TakeKeys(tx, 1))
  {
    var ids := IdentityKeys(tx.req);
    if tx.queue != [] { TakingNextKey(tx, ids, {}); } else { AllKeysTaken(tx, ids, {}); }
  }

  /** The next statement of each kind of transaction. */
  lemma NextIs(log: Log, clock: Instant, foreign: set<Id>, tx: Tx)
    ensures tx.req.CreatePayment? ==> Next(log, clock, foreign, tx) == NextPayment(log, clock, foreign, tx, tx.req.pay)
    ensures tx.req.ReversePayment? ==> Next(log, clock, foreign, tx) == NextReversal(log, clock, foreign, tx, tx.req.rev)
    ensures tx.req.VoidAgreement? ==> Next(log, clock, foreign, tx) == NextVoid(log, clock, foreign, tx, tx.req.void)
    ensures tx.req.CreateShift? ==> Next(log, clock, foreign, tx) == NextShift(log, foreign, tx, tx.req.shift)
    ensures tx.req.CorrectShift? ==> Next(log, clock, foreign, tx) == NextCorrection(log, foreign, tx, tx.req.cor)
  {
    hide NextPayment, NextReversal, NextVoid, NextShift, NextCorrection;
  }

  // Payment creation

  lemma PaymentFacts(log: Log, clock: Instant, foreign: set<Id>, tx: Tx)
    requires GoodLog(log) && tx.req.CreatePayment? && FactsOk(log, tx)
    requires 9 <= tx.pc <= 10 ==> GoodLog(log + tx.pending)
    ensures FactsKept(log, tx, Next(log, clock, foreign, tx))
  {
    hide Next, FindPayment, FindAgreement, FindVoidOf, FindParticipant, SummaryOf, GoodLog, Paid;
    NextIs(log, clock, foreign, tx);
    var p := tx.req.pay;
    if tx.pc == 4 {
      var a :| a in log && a.AgreementRow? && a.id == p.agreement && a.occurredAt == tx.known.since;
      AgreementIsFixed(log, a, FindAgreement(log, p.agreement).value);
    } else if tx.pc == 9 {
      SummaryNeverOverpaid(log + tx.pending, p.agreement);
    } else if tx.pc == 11 {
      SummaryNeverOverpaid(log, p.agreement);
    }
  }

  lemma PaymentHeld(log: Log, clock: Instant, foreign: set<Id>, tx: Tx)
    requires tx.req.CreatePayment? && HeldOk(tx)
    ensures HeldKept(tx, Next(log, clock, foreign, tx))
  {
    hide Next;
    NextIs(log, clock, foreign, tx);
    hide FindPayment, FindAgreement, FindVoidOf, FindParticipant, Paid, SummaryOf;
    if tx.pc == 0 { IdentityStage(tx); } else { IdentityClass(tx.req); }
  }

  lemma CommitPayment(log: Log, tx: Tx)
    requires GoodLog(log) && Closed(log) && tx.req.CreatePayment? && TxOk(log, tx) && 9 <= tx.pc <= 10
    ensures CommitOk(log, tx)
  {
    var p := tx.req.pay;
    var a :| a in log && a.AgreementRow? && a.id == p.agreement && a.occurredAt == tx.known.since
             && Participant(p.member, tx.known.agreed) in a.participants;
    GoodLogGrows(log, PaymentRow(p));
    assert PaymentIdentity(p.id) in IdentityKeys(tx.req);
  }

  // Payment reversal

  lemma ReversalFacts(log: Log, clock: Instant, foreign: set<Id>, tx: Tx)
    requires GoodLog(log) && tx.req.ReversePayment? && FactsOk(log, tx)
    requires 8 <= tx.pc <= 9 ==> GoodLog(log + tx.pending)
    ensures FactsKept(log, tx, Next(log, clock, foreign, tx))
  {
    hide Next, FindPayment, FindReversal, FindReversalOf, SummaryOf, GoodLog;
    NextIs(log, clock, foreign, tx);
    if tx.pc == 8 {
      SummaryNeverOverpaid(log + tx.pending, tx.known.payment.value.agreement);
    } else if tx.pc == 10 {
      match FindPayment(log, tx.req.rev.payment)
      case Some(row) => SummaryNeverOverpaid(log, row.pay.agreement);
      case None =>
    }
  }

  lemma ReversalHeld(log: Log, clock: Instant, foreign: set<Id>, tx: Tx)
    requires tx.req.ReversePayment? && HeldOk(tx) && FactsOk(log, tx)
    ensures HeldKept(tx, Next(log, clock, foreign, tx))
  {
    hide Next;
    NextIs(log, clock, foreign, tx);
    hide FindPayment, FindReversal, FindReversalOf, SummaryOf;
    if tx.pc == 0 { IdentityStage(tx); } else { IdentityClass(tx.req); }
  }

  lemma CommitReversal(log: Log, tx: Tx)
    requires GoodLog(log) && Closed(log) && tx.req.ReversePayment? && TxOk(log, tx) && 8 <= tx.pc <= 9
    ensures CommitOk(log, tx)
  {
    var r := tx.req.rev;
    assert PaymentRow(tx.known.payment.value) in log;
    GoodLogGrows(log, ReversalRow(r));
    assert ReversalIdentity(r.id) in IdentityKeys(tx.req);
  }

  // Agreement voiding

  lemma VoidFacts(log: Log, clock: Instant, foreign: set<Id>, tx: Tx)
    requires tx.req.VoidAgreement? && FactsOk(log, tx)
    ensures FactsKept(log, tx, Next(log, clock, foreign, tx))
  {
    hide Next;
    NextIs(log, clock, foreign, tx);
  }

  lemma VoidHeld(log: Log, clock: Instant, foreign: set<Id>, tx: Tx)
    requires tx.req.VoidAgreement? && HeldOk(tx)
    ensures HeldKept(tx, Next(log, clock, foreign, tx))
  {
    hide Next;
    NextIs(log, clock, foreign, tx);
    hide FindVoid, FindVoidOf, FindAgreement;
    if tx.pc == 0 { IdentityStage(tx); } else { IdentityClass(tx.req); }
  }

  lemma CommitVoid(log: Log, tx: Tx)
    requires GoodLog(log) && Closed(log) && tx.req.VoidAgreement? && TxOk(log, tx) && tx.pc == 6
    ensures CommitOk(log, tx)
  {
    var v := tx.req.void;
    var a :| a in log && a.AgreementRow? && a.id == v.agreement && a.occurredAt == tx.known.since;
    GoodLogGrows(log, VoidRow(v));
    assert AgreementIdentity(v.id) in IdentityKeys(tx.req);
  }

  // Shift creation

  lemma {:induction false} WorkNotNegative(log: Log, scope: Scope, gone: set<Id>)
    ensures WorkWithout(log, scope, gone).shifts >= 0
  {
    if log != [] { WorkNotNegative(log[..|log| - 1], scope, gone); }
  }

  lemma ShiftFacts(log: Log, clock: Instant, foreign: set<Id>, tx: Tx)
    requires tx.req.CreateShift? && FactsOk(log, tx)
    ensures FactsKept(log, tx, Next(log, clock, foreign, tx))
  {
    hide Next;
    NextIs(log, clock, foreign, tx);
    var s := tx.req.shift;
    if tx.pc == 1 {
      match FindShift(log, s.id)
      case Some(row) => assert row.source == Direct && row.shift == s ==> row == ShiftRow(s, Direct, row.others);
      case None =>
    } else if tx.pc == 4 {
      WorkNotNegative(log, DayOf(s.member, s.day), CorrectedIn(log));
    }
  }

  lemma ShiftHeld(log: Log, clock: Instant, foreign: set<Id>, tx: Tx)
    requires tx.req.CreateShift? && HeldOk(tx)
    ensures HeldKept(tx, Next(log, clock, foreign, tx))
  {
    hide Next;
    NextIs(log, clock, foreign, tx);
    if tx.pc == 0 { IdentityStage(tx); } else { IdentityClass(tx.req); }
  }

  lemma CommitShift(log: Log, tx: Tx)
    requires GoodLog(log) && Closed(log) && tx.req.CreateShift? && TxOk(log, tx) && tx.pc == 6
    ensures CommitOk(log, tx)
  {
    var s := tx.req.shift;
    assert Exclusive(ShiftIdentity(s.id)) in tx.held && Exclusive(DayKey(s)) in tx.held by {
      assert ShiftIdentity(s.id) in IdentityKeys(tx.req);
    }
    CommitDirect(log, tx, s);
  }

  lemma CommitDirect(log: Log, tx: Tx, s: Shift)
    requires GoodLog(log) && Closed(log) && tx.req == CreateShift(s) && ShiftOk(log, tx, s) && tx.pc == 6
    requires Exclusive(ShiftIdentity(s.id)) in tx.held && Exclusive(DayKey(s)) in tx.held
    ensures CommitOk(log, tx)
  {
    var row := ShiftRow(s, Direct, tx.known.others);
    assert tx.pending == [row] && tx.pending[1..] == [];
    assert Admissible(log, row);
    GoodLogGrows(log, row);
    assert row in log + tx.pending;
  }

  // Shift correction

  lemma CorrectionFacts(log: Log, clock: Instant, foreign: set<Id>, tx: Tx)
    requires tx.req.CorrectShift? && FactsOk(log, tx)
    ensures FactsKept(log, tx, Next(log, clock, foreign, tx))
  {
    hide Next;
    NextIs(log, clock, foreign, tx);
    hide WorkWithout, CorrectedIn, DayKeys, LockList;
    var c := tx.req.cor;
    if tx.pc == 7 && c.replacement.Some? {
      WorkNotNegative(log, DayOf(c.replacement.value.member, c.replacement.value.day), CorrectedIn(log) + {c.shift});
    }
  }

  lemma OriginalIsKnown(log: Log, tx: Tx)
    requires tx.req.CorrectShift? && FactsOk(log, tx)
    ensures 4 <= tx.pc ==> tx.known.original.Some?
  {
  }

  lemma CorrectionHeld(log: Log, clock: Instant, foreign: set<Id>, tx: Tx)
    requires tx.req.CorrectShift? && HeldOk(tx) && FactsOk(log, tx)
    ensures HeldKept(tx, Next(log, clock, foreign, tx))
  {
    hide Next, FindShift, FindCorrection, FindCorrectionOf, WorkWithout, OthersFor, IdentityKeys, DayKeys, Keys, CorrectionOk, Before;
    OriginalIsKnown(log, tx);
    NextIs(log, clock, foreign, tx);
    var c := tx.req.cor;
    if tx.pc == 0 {
      IdentityStage(tx);
    } else if tx.pc == 3 {
      match FindShift(log, c.shift)
      case Some(row) => NothingTakenYet(DayKeys(row.shift, c), tx.held);
      case None =>
    } else if tx.pc == 4 {
      DayStage(tx, tx.known.original.value, c);
    }
  }

  lemma DayStage(tx: Tx, o: Shift, c: Correction)
    requires tx.req == CorrectShift(c) && tx.pc == 4 && tx.known.original == Some(o) && HeldOk(tx)
    ensures HeldKept(tx, TakeKeys(tx, 5))
  {
    var keys, ids := DayKeys(o, c), Keys(IdentityKeys(tx.req));
    if tx.queue != [] {
      IdentityClass(tx.req);
      DayClass(o, c);
      TakingNextKey(tx, keys, ids);
    } else {
      AllKeysTaken(tx, keys, ids);
    }
  }

  lemma DayClass(o: Shift, c: Correction)
    ensures forall r :: r in DayKeys(o, c) ==> r.Class() == 4
  {
  }

  lemma NothingTakenYet(keys: seq<Resource>, held: set<Lock>)
    ensures keys[|keys| - |keys|..] == keys && held + Keys(keys[..|keys| - |keys|]) == held
  {
  }

  lemma CommitCorrection(log: Log, tx: Tx)
    requires GoodLog(log) && Closed(log) && tx.req.CorrectShift? && TxOk(log, tx) && tx.pc == 10
    ensures CommitOk(log, tx)
  {
    var c, o := tx.req.cor, tx.known.original.value;
    HeldByCorrection(tx);
    forall r | r in log && r.ShiftRow? && r.shift.id == c.shift ensures r.shift == o {
      var r' :| r' in log && r'.ShiftRow? && r'.shift == o;
      ShiftIsFixed(log, r, r');
    }
    if c.replacement.Some? {
      CommitReplacement(log, tx, c, c.replacement.value, o);
    } else {
      GoodLogGrows(log, CorrectionRow(c));
      assert Guards(log + [CorrectionRow(c)], [], tx.held);
    }
  }

  lemma HeldByCorrection(tx: Tx)
    requires tx.req.CorrectShift? && HeldOk(tx) && tx.pc == 10 && tx.known.original.Some?
    ensures var c := tx.req.cor;
            && Exclusive(ShiftIdentity(c.id)) in tx.held && Exclusive(ShiftIdentity(c.shift)) in tx.held
            && Exclusive(DayKey(tx.known.original.value)) in tx.held
            && (c.replacement.Some? ==>
                  Exclusive(ShiftIdentity(c.replacement.value.id)) in tx.held && Exclusive(DayKey(c.replacement.value)) in tx.held)
  {
    var c, o := tx.req.cor, tx.known.original.value;
    assert ShiftIdentity(c.id) in IdentityKeys(tx.req) && ShiftIdentity(c.shift) in IdentityKeys(tx.req);
    assert DayKey(o) in DayKeys(o, c);
    if c.replacement.Some? {
      assert ShiftIdentity(c.replacement.value.id) in IdentityKeys(tx.req);
      assert DayKey(c.replacement.value) in DayKeys(o, c);
    }
  }

  lemma CommitReplacement(log: Log, tx: Tx, c: Correction, s: Shift, o: Shift)
    requires GoodLog(log) && Closed(log) && tx.req == CorrectShift(c) && c.replacement == Some(s) && CorrectionOk(log, tx, c) && tx.pc == 10
    requires o == tx.known.original.value
    requires Exclusive(ShiftIdentity(c.id)) in tx.held && Exclusive(ShiftIdentity(c.shift)) in tx.held && Exclusive(ShiftIdentity(s.id)) in tx.held
    requires Exclusive(DayKey(o)) in tx.held && Exclusive(DayKey(s)) in tx.held
    requires forall r :: r in log && r.ShiftRow? && r.shift.id == c.shift ==> r.shift == o
    ensures CommitOk(log, tx)
  {
    hide GoodLog, Work, WorkWithout, Guards;
    var row, cor := Replacement(tx, c), CorrectionRow(c);
    var mid := log + [row];
    GoodLogGrows(log, row);
    assert !NoShift(mid, c.shift) by {
      var r :| r in log && r.ShiftRow? && r.shift == o;
      assert r in mid;
    }
    assert ReplacesLast(mid, c) by { ReplacementCount(log, c, s, tx.known.others); }
    GoodLogGrows(mid, cor);
    assert tx.pending == [row, cor] && log + tx.pending == mid + [cor];
    TwoGuards(log, row, cor, tx.held);
    assert cor in log + tx.pending;
  }

  lemma TwoGuards(log: Log, row: Row, cor: Row, held: set<Lock>)
    requires Guarded(log, row, held) && Admissible(log, row) && GoodLog(log + [row])
    requires Guarded(log + [row], cor, held) && Admissible(log + [row], cor) && GoodLog(log + [row] + [cor])
    ensures Guards(log, [row, cor], held)
  {
    hide Guarded, Admissible, GoodLog;
    assert [row, cor][1..] == [cor] && [cor][1..] == [];
    assert Guards(log + [row] + [cor], [], held);
    assert Guards(log + [row], [cor], held);
  }

  lemma ReplacementCount(log: Log, c: Correction, s: Shift, others: nat)
    requires GoodLog(log) && NoShift(log, s.id) && s.id != c.shift && others == OthersFor(log, c, s)
    ensures others + 1 == Work(log + [ShiftRow(s, ReplacementOf(c.id), others)] + [CorrectionRow(c)], DayOf(s.member, s.day)).shifts
  {
    var row := ShiftRow(s, ReplacementOf(c.id), others);
    var scope, gone := DayOf(s.member, s.day), CorrectedIn(log) + {c.shift};
    CorrectedAppend(log, row);
    CorrectedAppend(log + [row], CorrectionRow(c));
    WorkWithoutAppend(log, row, scope, gone);
    WorkWithoutAppend(log + [row], CorrectionRow(c), scope, gone);
    CorrectionsHaveTargets(log, s.id);
  }

  // Any transaction

  lemma Commits(log: Log, tx: Tx)
    requires GoodLog(log) && Closed(log) && TxOk(log, tx) && tx.pc == CommitPc(tx.req)
    ensures CommitOk(log, tx)
  {
    match tx.req
    case CreatePayment(_) => CommitPayment(log, tx);
    case ReversePayment(_) => CommitReversal(log, tx);
    case VoidAgreement(_) => CommitVoid(log, tx);
    case CreateShift(_) => CommitShift(log, tx);
    case CorrectShift(_) => CommitCorrection(log, tx);
  }

  lemma Steps(log: Log, clock: Instant, foreign: set<Id>, tx: Tx)
    requires GoodLog(log) && Closed(log) && TxOk(log, tx)
    ensures FactsKept(log, tx, Next(log, clock, foreign, tx)) && HeldKept(tx, Next(log, clock, foreign, tx))
  {
    match tx.req
    case CreatePayment(_) =>
      if 9 <= tx.pc <= 10 { CommitPayment(log, tx); }
      PaymentFacts(log, clock, foreign, tx);
      PaymentHeld(log, clock, foreign, tx);
    case ReversePayment(_) =>
      if 8 <= tx.pc <= 9 { CommitReversal(log, tx); }
      ReversalFacts(log, clock, foreign, tx);
      ReversalHeld(log, clock, foreign, tx);
    case VoidAgreement(_) =>
      VoidFacts(log, clock, foreign, tx);
      VoidHeld(log, clock, foreign, tx);
    case CreateShift(_) =>
      ShiftFacts(log, clock, foreign, tx);
      ShiftHeld(log, clock, foreign, tx);
    case CorrectShift(_) =>
      CorrectionFacts(log, clock, foreign, tx);
      CorrectionHeld(log, clock, foreign, tx);
  }
}
