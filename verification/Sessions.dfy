/**
 * The finance transactions as interleaved statements over the shared ledger:
 * payment creation and reversal, agreement voiding, shift creation and correction.
 *
 * Every SQL statement is one step. Reads see the rows committed so far (READ
 * COMMITTED), inserts stay private until the commit, and locks are held until the
 * transaction ends. A transaction waits while another holds a conflicting lock.
 */
module Sessions {
  import opened Basics
  import opened Ledger
  import opened Locks
  import PaymentSummary

  datatype Request =
    | CreatePayment(pay: Payment)
    | ReversePayment(rev: Reversal)
    | VoidAgreement(void: Void)
    | CreateShift(shift: Shift)
    | CorrectShift(cor: Correction)

  datatype Outcome =
    | Created
    | Replayed
    | IdConflict
    | NotFound
    | AgreementIsVoided
    | NothingAgreed
    | TimeInvalid
    | ExceedsPending
    | AlreadyReversed
    | CheckFailed
    | SummaryFailed(failure: PaymentSummary.Failure)
    | Aborted

  /** What a transaction remembers of its earlier reads. */
  datatype Known = Known(since: Instant, agreed: nat, payment: Option<Payment>, original: Option<Shift>, others: nat)

  /**
   * A transaction between two statements: its program counter, the keys it still has to
   * lock in its current list, the locks it holds, its reads and its private inserts.
   */
  datatype Tx = Tx(req: Request, pc: nat, queue: seq<Resource>, held: set<Lock>, known: Known, pending: Log)

  /** What the next statement does. */
  datatype Effect =
    | Goto(next: Tx)
    | Take(lock: Lock, next: Tx)
    | Finish(outcome: Outcome)
    | Commit(rows: Log)

  /** What is refused before any transaction starts. */
  predicate Accepted(req: Request) {
    match req
    case CreatePayment(p) => p.amount > 0
    case VoidAgreement(v) => v.id != v.agreement
    case CorrectShift(c) =>
      && c.id != c.shift
      && (c.replacement.Some? ==> c.replacement.value.id != c.id && c.replacement.value.id != c.shift)
    case _ => true
  }

  /** The identities a request creates or refers to by identity. */
  predicate Identifies(req: Request, key: Resource) {
    match req
    case CreatePayment(p) => key == PaymentIdentity(p.id)
    case ReversePayment(r) => key == ReversalIdentity(r.id)
    case VoidAgreement(v) => key == AgreementIdentity(v.id) || key == AgreementIdentity(v.agreement)
    case CreateShift(s) => key == ShiftIdentity(s.id)
    case CorrectShift(c) =>
      key == ShiftIdentity(c.id) || key == ShiftIdentity(c.shift)
      || (c.replacement.Some? && key == ShiftIdentity(c.replacement.value.id))
  }

  /** The advisory keys a transaction locks first, in their locking order. */
  function IdentityKeys(req: Request): (keys: seq<Resource>)
    ensures InOrder(keys)
    ensures forall key :: key in keys <==> Identifies(req, key)
  {
    match req
    case CreatePayment(p) => [PaymentIdentity(p.id)]
    case ReversePayment(r) => [ReversalIdentity(r.id)]
    case VoidAgreement(v) => LockList([AgreementIdentity(v.id), AgreementIdentity(v.agreement)])
    case CreateShift(s) => [ShiftIdentity(s.id)]
    case CorrectShift(c) =>
      LockList([ShiftIdentity(c.id), ShiftIdentity(c.shift)]
               + if c.replacement.Some? then [ShiftIdentity(c.replacement.value.id)] else [])
  }

  function DayKey(s: Shift): Resource { ShiftDay(s.member, s.day) }

  /** The days a correction touches: the original's and the replacement's. */
  function DayKeys(original: Shift, c: Correction): (keys: seq<Resource>)
    ensures InOrder(keys) && |keys| <= 2
    ensures forall key :: key in keys <==>
              key == ShiftDay(original.member, original.day)
              || (c.replacement.Some? && key == ShiftDay(c.replacement.value.member, c.replacement.value.day))
  {
    LockList([DayKey(original)] + if c.replacement.Some? then [DayKey(c.replacement.value)] else [])
  }

  function Start(req: Request): Tx {
    Tx(req, 0, IdentityKeys(req), {}, Known(0, 0, None, None, 0), [])
  }

  function At(tx: Tx, pc: nat): Effect { Goto(tx.(pc := pc)) }

  /** Takes the keys of the current list one statement at a time, then moves on. */
  function TakeKeys(tx: Tx, pc: nat): Effect {
    if tx.queue == [] then At(tx, pc) else Take(Exclusive(tx.queue[0]), tx.(queue := tx.queue[1..]))
  }

  function Receipt(view: Log, agreement: Id, ok: Effect): Effect {
    match SummaryOf(view, agreement)
    case Ok(_) => ok
    case Err(e) => Finish(SummaryFailed(e))
  }

  /** Payment creation: identity, agreement FOR SHARE, participant FOR UPDATE, balance, insert. */
  function NextPayment(log: Log, clock: Instant, foreign: set<Id>, tx: Tx, p: Payment): Effect {
    match tx.pc
    case 0 => TakeKeys(tx, 1)
    case 1 =>
      (match FindPayment(log, p.id)
       case Some(row) => if row.pay == p then At(tx, 11) else Finish(IdConflict)
       case None => At(tx, 2))
    case 2 =>
      (match FindAgreement(log, p.agreement)
       case Some(a) => Take(Shared(RowOfAgreement(p.agreement)), tx.(pc := 3, known := tx.known.(since := a.occurredAt)))
       case None => Finish(NotFound))
    case 3 => if FindVoidOf(log, p.agreement).Some? then Finish(AgreementIsVoided) else At(tx, 4)
    case 4 =>
      (match FindAgreement(log, p.agreement)
       case Some(a) =>
         (match FindParticipant(a.participants, p.member)
          case Some(q) => if q.total == 0 then Finish(NothingAgreed) else Goto(tx.(pc := 5, known := tx.known.(agreed := q.total)))
          case None => Finish(NotFound))
       case None => Finish(NotFound))
    case 5 => Take(Exclusive(RowOfParticipant(p.agreement, p.member)), tx.(pc := 6))
    case 6 => if p.occurredAt < tx.known.since || p.occurredAt > clock then Finish(TimeInvalid) else At(tx, 7)
    case 7 => if Paid(log, p.agreement, p.member) + p.amount > tx.known.agreed then Finish(ExceedsPending) else At(tx, 8)
    case 8 =>
      if p.id in foreign || FindPayment(log, p.id).Some? then Finish(IdConflict)
      else Goto(tx.(pc := 9, pending := [PaymentRow(p)]))
    case 9 => Receipt(log + tx.pending, p.agreement, At(tx, 10))
    case 10 => Commit(tx.pending)
    case _ => Receipt(log, p.agreement, Finish(Replayed))
  }

  /** Payment reversal: identity, participant FOR UPDATE, payment FOR UPDATE, insert. */
  function NextReversal(log: Log, clock: Instant, foreign: set<Id>, tx: Tx, r: Reversal): Effect {
    match tx.pc
    case 0 => TakeKeys(tx, 1)
    case 1 =>
      (match FindReversal(log, r.id)
       case Some(row) => if row.rev == r then At(tx, 10) else Finish(IdConflict)
       case None => At(tx, 2))
    case 2 =>
      (match FindPayment(log, r.payment)
       case Some(row) => Goto(tx.(pc := 3, known := tx.known.(payment := Some(row.pay))))
       case None => Finish(NotFound))
    case 3 =>
      (match tx.known.payment
       case Some(p) => Take(Exclusive(RowOfParticipant(p.agreement, p.member)), tx.(pc := 4))
       case None => Finish(NotFound))
    case 4 => Take(Exclusive(RowOfPayment(r.payment)), tx.(pc := 5))
    case 5 => if FindReversalOf(log, r.payment).Some? then Finish(AlreadyReversed) else At(tx, 6)
    case 6 =>
      (match tx.known.payment
       case Some(p) => if r.occurredAt < p.occurredAt || r.occurredAt > clock then Finish(TimeInvalid) else At(tx, 7)
       case None => Finish(NotFound))
    case 7 =>
      if r.id == r.payment then Finish(CheckFailed)
      else if r.id in foreign || FindReversal(log, r.id).Some? || FindReversalOf(log, r.payment).Some? then Finish(IdConflict)
      else Goto(tx.(pc := 8, pending := [ReversalRow(r)]))
    case 8 =>
      (match tx.known.payment
       case Some(p) => Receipt(log + tx.pending, p.agreement, At(tx, 9))
       case None => Finish(NotFound))
    case 9 => Commit(tx.pending)
    case _ =>
      (match FindPayment(log, r.payment)
       case Some(row) => Receipt(log, row.pay.agreement, Finish(Replayed))
       case None => Finish(NotFound))
  }

  /** Agreement voiding: both identities in order, agreement FOR UPDATE, insert. */
  function NextVoid(log: Log, clock: Instant, foreign: set<Id>, tx: Tx, v: Void): Effect {
    match tx.pc
    case 0 => TakeKeys(tx, 1)
    case 1 =>
      (match FindVoid(log, v.id)
       case Some(row) => Finish(if row.void == v then Replayed else IdConflict)
       case None => At(tx, 2))
    case 2 =>
      (match FindAgreement(log, v.agreement)
       case Some(a) => Take(Exclusive(RowOfAgreement(v.agreement)), tx.(pc := 3, known := tx.known.(since := a.occurredAt)))
       case None => Finish(NotFound))
    case 3 => if FindVoidOf(log, v.agreement).Some? then Finish(AlreadyReversed) else At(tx, 4)
    case 4 => if v.occurredAt < tx.known.since || v.occurredAt > clock then Finish(TimeInvalid) else At(tx, 5)
    case 5 =>
      if v.id in foreign || FindVoid(log, v.id).Some? || FindVoidOf(log, v.agreement).Some? then Finish(NotFound)
      else Goto(tx.(pc := 6, pending := [VoidRow(v)]))
    case _ => Commit(tx.pending)
  }

  /** Shift creation: identity, day, count of the day's active shifts, insert. */
  function NextShift(log: Log, foreign: set<Id>, tx: Tx, s: Shift): Effect {
    match tx.pc
    case 0 => TakeKeys(tx, 1)
    case 1 =>
      (match FindShift(log, s.id)
       case Some(row) => Finish(if row.shift == s && row.source == Direct then Replayed else IdConflict)
       case None => At(tx, 2))
    case 2 => if FindCorrection(log, s.id).Some? then Finish(IdConflict) else At(tx, 3)
    case 3 => Take(Exclusive(DayKey(s)), tx.(pc := 4))
    case 4 => CountOthers(tx, Work(log, DayOf(s.member, s.day)), 5)
    case 5 =>
      if s.id in foreign || FindShift(log, s.id).Some? then Finish(IdConflict)
      else Goto(tx.(pc := 6, pending := [ShiftRow(s, Direct, tx.known.others)]))
    case _ => Commit(tx.pending)
  }

  function CountOthers(tx: Tx, day: Totals, pc: nat): Effect {
    Goto(tx.(pc := pc, known := tx.known.(others := day.Count())))
  }

  /** Shift correction: all identities in order, all days in order, replacement, correction. */
  function NextCorrection(log: Log, foreign: set<Id>, tx: Tx, c: Correction): Effect {
    match tx.pc
    case 0 => TakeKeys(tx, 1)
    case 1 =>
      (match FindCorrection(log, c.id)
       case Some(row) => Finish(if row.cor == c then Replayed else IdConflict)
       case None => At(tx, 2))
    case 2 => if FindShift(log, c.id).Some? then Finish(IdConflict) else At(tx, 3)
    case 3 =>
      (match FindShift(log, c.shift)
       case Some(row) =>
         if FindCorrectionOf(log, c.shift).Some? then Finish(AlreadyReversed)
         else Goto(tx.(pc := 4, queue := DayKeys(row.shift, c), known := tx.known.(original := Some(row.shift))))
       case None => Finish(NotFound))
    case 4 => TakeKeys(tx, 5)
    case 5 =>
      (match c.replacement
       case Some(s) => if FindShift(log, s.id).Some? then Finish(IdConflict) else At(tx, 6)
       case None => At(tx, 9))
    case 6 =>
      (match c.replacement
       case Some(s) => if FindCorrection(log, s.id).Some? then Finish(IdConflict) else At(tx, 7)
       case None => At(tx, 9))
    case 7 =>
      (match c.replacement
       case Some(s) => CountOthers(tx, WorkWithout(log, DayOf(s.member, s.day), CorrectedIn(log) + {c.shift}), 8)
       case None => At(tx, 9))
    case 8 =>
      (match c.replacement
       case Some(s) =>
         if s.id in foreign || FindShift(log, s.id).Some? then Finish(IdConflict)
         else Goto(tx.(pc := 9, pending := [ShiftRow(s, ReplacementOf(c.id), tx.known.others)]))
       case None => At(tx, 9))
    case 9 =>
      if c.id in foreign || FindCorrection(log, c.id).Some? || FindCorrectionOf(log, c.shift).Some? then Finish(IdConflict)
      else Goto(tx.(pc := 10, pending := tx.pending + [CorrectionRow(c)]))
    case _ => Commit(tx.pending)
  }

  function Next(log: Log, clock: Instant, foreign: set<Id>, tx: Tx): Effect {
    match tx.req
    case CreatePayment(p) => NextPayment(log, clock, foreign, tx, p)
    case ReversePayment(r) => NextReversal(log, clock, foreign, tx, r)
    case VoidAgreement(v) => NextVoid(log, clock, foreign, tx, v)
    case CreateShift(s) => NextShift(log, foreign, tx, s)
    case CorrectShift(c) => NextCorrection(log, foreign, tx, c)
  }

  // ----- the whole system ------------------------------------------------------------------

  datatype Done = Done(req: Request, outcome: Outcome)

  /** Committed rows, server clock, ids taken by other tenants, running and finished transactions. */
  datatype State = State(log: Log, clock: Instant, foreign: set<Id>, txs: map<TxId, Tx>, done: map<TxId, Done>)

  datatype Action =
    | Begin(t: TxId, req: Request)
    | Run(t: TxId)
    | Abort(t: TxId)
    | Tick(elapsed: nat)
    | ForeignInsert(id: Id)
    | CommitAgreement(row: Row)

  /** Nobody else holds a conflicting lock. */
  predicate Grantable(txs: map<TxId, Tx>, t: TxId, lock: Lock) {
    forall u :: u in txs && u != t ==> Unlocked(txs[u], lock)
  }

  predicate Unlocked(tx: Tx, lock: Lock) {
    forall h :: h in tx.held ==> Compatible(lock, h)
  }

  function End(s: State, t: TxId, outcome: Outcome): State
    requires t in s.txs
  {
    s.(txs := s.txs - {t}, done := s.done[t := Done(s.txs[t].req, outcome)])
  }

  /** The next statement of one transaction; nothing happens while its lock is not grantable. */
  function RunOne(s: State, t: TxId): State
    requires t in s.txs
  {
    match Next(s.log, s.clock, s.foreign, s.txs[t])
    case Goto(tx) => s.(txs := s.txs[t := tx])
    case Take(lock, tx) =>
      if Grantable(s.txs, t, lock) then s.(txs := s.txs[t := tx.(held := tx.held + {lock})]) else s
    case Finish(outcome) => End(s, t, outcome)
    case Commit(rows) => End(s, t, Created).(log := s.log + rows)
  }

  /** One action; an action that is not enabled changes nothing. */
  function Apply(s: State, a: Action): State {
    match a
    case Begin(t, req) =>
      if t in s.txs || t in s.done || !Accepted(req) then s else s.(txs := s.txs[t := Start(req)])
    case Run(t) => if t in s.txs then RunOne(s, t) else s
    case Abort(t) => if t in s.txs then End(s, t, Aborted) else s
    case Tick(elapsed) => s.(clock := s.clock + elapsed)
    case ForeignInsert(id) => s.(foreign := s.foreign + {id})
    case CommitAgreement(row) =>
      if row.AgreementRow? && FindAgreement(s.log, row.id).None? && DistinctMembers(row.participants)
         && (forall t :: t in s.txs ==> Unlocked(s.txs[t], Exclusive(AgreementIdentity(row.id))))
      then s.(log := s.log + [row]) else s
  }

  function Initial(clock: Instant): State { State([], clock, {}, map[], map[]) }

  /** A run from the empty database: any interleaving, with aborts and clock ticks anywhere. */
  function Execute(clock: Instant, actions: seq<Action>): State {
    if actions == [] then Initial(clock)
    else Apply(Execute(clock, actions[..|actions| - 1]), actions[|actions| - 1])
  }
}
