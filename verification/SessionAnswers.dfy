/**
 * What a finance call is answered when no other transaction runs beside it, exactly: for
 * every answer the reason in the ledger that brings it, and nothing else does. It is
 * created if and only if the ledger admits its rows, its ids are free, its time has come
 * and its receipt can be read.
 */
module SessionAnswers {
  import opened Basics
  import opened Ledger
  import opened LedgerFacts
  import opened Locks
  import opened Sessions
  import opened SessionInvariants
  import opened SessionTheorems

  /** The statements of one transaction with nobody beside it, until it ends. */
  function Alone(s: State, tx: Tx, steps: nat): Option<Effect>
    decreases steps
  {
    if steps == 0 then None else
      match Next(s.log, s.clock, s.foreign, tx)
      case Goto(n) => Alone(s, n, steps - 1)
      case Take(lock, n) => Alone(s, n.(held := n.held + {lock}), steps - 1)
      case e => Some(e)
  }

  /** No kind of call takes more statements than this. */
  const ENOUGH: nat := 24

  // ----- the rules -------------------------------------------------------------------------

  /** The other active shifts of the replacement's day once its original is corrected. */
  function OthersOf(log: Log, scope: Scope, gone: set<Id>): nat {
    WorkWithout(log, scope, gone).Count()
  }

  /** The rows a request asks for. */
  function RowsFor(log: Log, req: Request): Log {
    match req
    case CreatePayment(p) => [PaymentRow(p)]
    case ReversePayment(r) => [ReversalRow(r)]
    case VoidAgreement(v) => [VoidRow(v)]
    case CreateShift(s) => [ShiftRow(s, Direct, OthersOf(log, DayOf(s.member, s.day), CorrectedIn(log)))]
    case CorrectShift(c) =>
      match c.replacement
      case None => [CorrectionRow(c)]
      case Some(s) =>
        [ShiftRow(s, ReplacementOf(c.id), OthersOf(log, DayOf(s.member, s.day), CorrectedIn(log) + {c.shift})), CorrectionRow(c)]
  }

  ghost predicate Admits(log: Log, rows: Log)
    decreases |rows|
  {
    rows == [] || (Admissible(log, rows[0]) && Admits(log + [rows[0]], rows[1..]))
  }

  function IdsOf(req: Request): set<Id> {
    match req
    case CreatePayment(p) => {p.id}
    case ReversePayment(r) => {r.id}
    case VoidAgreement(v) => {v.id}
    case CreateShift(s) => {s.id}
    case CorrectShift(c) => {c.id} + if c.replacement.Some? then {c.replacement.value.id} else {}
  }

  predicate NotAhead(req: Request, clock: Instant) {
    match req
    case CreatePayment(p) => p.occurredAt <= clock
    case ReversePayment(r) => r.occurredAt <= clock
    case VoidAgreement(v) => v.occurredAt <= clock
    case _ => true
  }

  predicate SelfReversal(req: Request) { req.ReversePayment? && req.rev.id == req.rev.payment }

  /** The receipt of a payment or a reversal fits the safe-integer range. */
  predicate Readable(log: Log, req: Request) {
    match req
    case CreatePayment(p) => SummaryOf(log, p.agreement).Ok?
    case ReversePayment(r) => var row := FindPayment(log, r.payment); row.Some? && SummaryOf(log, row.value.pay.agreement).Ok?
    case _ => true
  }

  ghost predicate Welcome(s: State, req: Request) {
    var rows := RowsFor(s.log, req);
    && Admits(s.log, rows) && IdsOf(req) !! s.foreign
    && NotAhead(req, s.clock) && !SelfReversal(req) && Readable(s.log + rows, req)
  }

  ghost predicate Repeats(s: State, req: Request) { Recorded(s.log, req) && Readable(s.log, req) }

  // ----- the reason of every answer ---------------------------------------------------------

  /** No agreement of this id gives the member a share. */
  ghost predicate NoShare(log: Log, agreement: Id, member: Id) {
    forall a, q :: a in log && a.AgreementRow? && a.id == agreement && q in a.participants ==> q.member != member
  }

  ghost predicate PaymentReason(s: State, p: Payment, o: Outcome) {
    var log, row := s.log, PaymentRow(p);
    var open := NoPayment(log, p.id) && NotVoided(log, p.agreement);
    match o
    case Created => Welcome(s, CreatePayment(p))
    case Replayed => Repeats(s, CreatePayment(p))
    case NotFound => NoPayment(log, p.id) && (NoAgreement(log, p.agreement) || (NotVoided(log, p.agreement) && NoShare(log, p.agreement, p.member)))
    case AgreementIsVoided => NoPayment(log, p.id) && !NoAgreement(log, p.agreement) && !NotVoided(log, p.agreement)
    case NothingAgreed => open && exists since :: Agreed(log, p.agreement, since, p.member, 0)
    case TimeInvalid =>
      open && exists since, total: nat :: Agreed(log, p.agreement, since, p.member, total) && total > 0 && !(since <= p.occurredAt <= s.clock)
    case ExceedsPending =>
      open && exists since, total: nat :: Agreed(log, p.agreement, since, p.member, total) && total > 0 && since <= p.occurredAt <= s.clock
                                     && Paid(log, p.agreement, p.member) + p.amount > total
    case IdConflict =>
      || (exists q :: PaymentRow(q) in log && q.id == p.id && q != p)
      || (Admissible(log, row) && p.occurredAt <= s.clock && p.id in s.foreign)
    case SummaryFailed(e) =>
      || (row in log && SummaryOf(log, p.agreement) == Err(e))
      || (Admissible(log, row) && p.occurredAt <= s.clock && p.id !in s.foreign && SummaryOf(log + [row], p.agreement) == Err(e))
    case _ => false
  }

  ghost predicate ReversalReason(s: State, r: Reversal, o: Outcome) {
    var log, row := s.log, ReversalRow(r);
    var open := NoReversal(log, r.id);
    match o
    case Created => Welcome(s, ReversePayment(r))
    case Replayed => Repeats(s, ReversePayment(r))
    case NotFound => open && NoPayment(log, r.payment)
    case AlreadyReversed => open && !NoPayment(log, r.payment) && !NotReversed(log, r.payment)
    case TimeInvalid =>
      open && NotReversed(log, r.payment)
      && exists p :: PaymentRow(p) in log && p.id == r.payment && !(p.occurredAt <= r.occurredAt <= s.clock)
    case CheckFailed => Admissible(log, row) && r.occurredAt <= s.clock && r.id == r.payment
    case IdConflict =>
      || (exists q :: ReversalRow(q) in log && q.id == r.id && q != r)
      || (Admissible(log, row) && r.occurredAt <= s.clock && r.id != r.payment && r.id in s.foreign)
    case SummaryFailed(e) =>
      exists p :: PaymentRow(p) in log && p.id == r.payment
        && ((row in log && SummaryOf(log, p.agreement) == Err(e))
            || (Admissible(log, row) && r.occurredAt <= s.clock && r.id != r.payment && r.id !in s.foreign
                && SummaryOf(log + [row], p.agreement) == Err(e)))
    case _ => false
  }

  ghost predicate VoidReason(s: State, v: Void, o: Outcome) {
    var log, row := s.log, VoidRow(v);
    var open := NoVoid(log, v.id);
    match o
    case Created => Welcome(s, VoidAgreement(v))
    case Replayed => Repeats(s, VoidAgreement(v))
    case NotFound => (open && NoAgreement(log, v.agreement)) || (Admissible(log, row) && v.occurredAt <= s.clock && v.id in s.foreign)
    case AlreadyReversed => open && !NoAgreement(log, v.agreement) && !NotVoided(log, v.agreement)
    case TimeInvalid =>
      open && NotVoided(log, v.agreement)
      && exists since :: AgreementSince(log, v.agreement, since) && !(since <= v.occurredAt <= s.clock)
    case IdConflict => exists w :: VoidRow(w) in log && w.id == v.id && w != v
    case _ => false
  }

  ghost predicate ShiftReason(s: State, shift: Shift, o: Outcome) {
    match o
    case Created => Welcome(s, CreateShift(shift))
    case Replayed => Repeats(s, CreateShift(shift))
    case IdConflict =>
      || (exists row :: row in s.log && row.ShiftRow? && row.shift.id == shift.id && !(row.shift == shift && row.source == Direct))
      || !NoCorrection(s.log, shift.id)
      || (NoShift(s.log, shift.id) && shift.id in s.foreign)
    case _ => false
  }

  /** Somebody else has the identity of a replacement, or of the correction itself. */
  ghost predicate TakenIds(s: State, c: Correction) {
    || c.id in s.foreign
    || (c.replacement.Some?
        && var id := c.replacement.value.id;
           !NoShift(s.log, id) || !NoCorrection(s.log, id) || id in s.foreign)
  }

  /** The correction itself, replacement aside. */
  ghost predicate Correctable(log: Log, c: Correction) {
    NoCorrection(log, c.id) && NoShift(log, c.id) && NotCorrected(log, c.shift) && !NoShift(log, c.shift)
  }

  ghost predicate CorrectionReason(s: State, c: Correction, o: Outcome) {
    var log := s.log;
    var open := NoCorrection(log, c.id) && NoShift(log, c.id);
    match o
    case Created => Welcome(s, CorrectShift(c))
    case Replayed => Repeats(s, CorrectShift(c))
    case NotFound => open && NoShift(log, c.shift)
    case AlreadyReversed => open && !NoShift(log, c.shift) && !NotCorrected(log, c.shift)
    case IdConflict =>
      || (exists d :: CorrectionRow(d) in log && d.id == c.id && d != c)
      || !NoShift(log, c.id)
      || (Correctable(log, c) && TakenIds(s, c))
    case _ => false
  }

  /** Exactly when a call is given an answer, whatever the answer. */
  ghost predicate Reason(s: State, req: Request, o: Outcome) {
    match req
    case CreatePayment(p) => PaymentReason(s, p, o)
    case ReversePayment(r) => ReversalReason(s, r, o)
    case VoidAgreement(v) => VoidReason(s, v, o)
    case CreateShift(shift) => ShiftReason(s, shift, o)
    case CorrectShift(c) => CorrectionReason(s, c, o)
  }

  /** A transaction ends with an answer, and commits these rows if it is created. */
  predicate Ends(e: Option<Effect>, answer: Outcome, rows: Log) {
    e == Some(if answer == Created then Commit(rows) else Finish(answer))
  }

  function Receive(log: Log, agreement: Id, ok: Outcome): Outcome {
    match SummaryOf(log, agreement)
    case Ok(_) => ok
    case Err(e) => SummaryFailed(e)
  }

  // ----- one statement ------------------------------------------------------------------------

  /** The next statement does `e`, and the rest follows from there. */
  predicate Leads(s: State, tx: Tx, n: nat, e: Effect)
    requires n > 0
  {
    match e
    case Goto(next) => Alone(s, tx, n) == Alone(s, next, n - 1)
    case Take(lock, next) => Alone(s, tx, n) == Alone(s, next.(held := next.held + {lock}), n - 1)
    case _ => Alone(s, tx, n) == Some(e)
  }

  lemma PaymentOnward(s: State, tx: Tx, p: Payment, n: nat)
    requires tx.req == CreatePayment(p) && n > 0
    ensures Leads(s, tx, n, NextPayment(s.log, s.clock, s.foreign, tx, p))
  {
  }

  lemma ReversalOnward(s: State, tx: Tx, r: Reversal, n: nat)
    requires tx.req == ReversePayment(r) && n > 0
    ensures Leads(s, tx, n, NextReversal(s.log, s.clock, s.foreign, tx, r))
  {
  }

  lemma VoidOnward(s: State, tx: Tx, v: Void, n: nat)
    requires tx.req == VoidAgreement(v) && n > 0
    ensures Leads(s, tx, n, NextVoid(s.log, s.clock, s.foreign, tx, v))
  {
  }

  lemma ShiftOnward(s: State, tx: Tx, shift: Shift, n: nat)
    requires tx.req == CreateShift(shift) && n > 0
    ensures Leads(s, tx, n, NextShift(s.log, s.foreign, tx, shift))
  {
  }

  lemma CorrectionOnward(s: State, tx: Tx, c: Correction, n: nat)
    requires tx.req == CorrectShift(c) && n > 0
    ensures Leads(s, tx, n, NextCorrection(s.log, s.foreign, tx, c))
  {
  }

  /** A list of advisory keys is taken whole. */
  lemma {:induction false} PassKeys(s: State, tx: Tx, n: nat) returns (after: Tx, left: nat)
    requires tx.pc == 0 || (tx.pc == 4 && tx.req.CorrectShift?)
    requires n > |tx.queue|
    ensures left == n - |tx.queue| - 1
    ensures after == tx.(pc := if tx.pc == 0 then 1 else 5, queue := [], held := after.held)
    ensures Alone(s, tx, n) == Alone(s, after, left)
    decreases |tx.queue|
  {
    assert Next(s.log, s.clock, s.foreign, tx) == TakeKeys(tx, if tx.pc == 0 then 1 else 5);
    hide Next;
    if tx.queue == [] {
      after, left := tx.(pc := if tx.pc == 0 then 1 else 5), n - 1;
    } else {
      var next := tx.(queue := tx.queue[1..], held := tx.held + {Exclusive(tx.queue[0])});
      after, left := PassKeys(s, next, n - 1);
    }
  }

  lemma AdmitsOne(log: Log, row: Row)
    ensures Admits(log, [row]) <==> Admissible(log, row)
  {
    assert [row][1..] == [];
  }

  // ----- payments ------------------------------------------------------------------------------

  function PaymentChecked(s: State, p: Payment, since: Instant, agreed: nat): Outcome {
    if p.occurredAt < since || p.occurredAt > s.clock then TimeInvalid
    else if Paid(s.log, p.agreement, p.member) + p.amount > agreed then ExceedsPending
    else if p.id in s.foreign || FindPayment(s.log, p.id).Some? then IdConflict
    else Receive(s.log + [PaymentRow(p)], p.agreement, Created)
  }

  function PaymentLooked(s: State, p: Payment): Outcome {
    match FindAgreement(s.log, p.agreement)
    case None => NotFound
    case Some(a) =>
      if FindVoidOf(s.log, p.agreement).Some? then AgreementIsVoided
      else
        match FindParticipant(a.participants, p.member)
        case None => NotFound
        case Some(q) => if q.total == 0 then NothingAgreed else PaymentChecked(s, p, a.occurredAt, q.total)
  }

  function PaymentAnswer(s: State, p: Payment): Outcome {
    match FindPayment(s.log, p.id)
    case Some(row) => if row.pay == p then Receive(s.log, p.agreement, Replayed) else IdConflict
    case None => PaymentLooked(s, p)
  }

  lemma PaymentInserts(s: State, tx: Tx, p: Payment, n: nat)
    requires tx.req == CreatePayment(p) && tx.pc == 8 && n >= 3
    ensures Ends(Alone(s, tx, n),
                 if p.id in s.foreign || FindPayment(s.log, p.id).Some? then IdConflict else Receive(s.log + [PaymentRow(p)], p.agreement, Created),
                 [PaymentRow(p)])
  {
    hide Alone, Next, SummaryOf, FindPayment;
    PaymentOnward(s, tx, p, n);
    var inserted := tx.(pc := 9, pending := [PaymentRow(p)]);
    PaymentOnward(s, inserted, p, n - 1);
    PaymentOnward(s, inserted.(pc := 10), p, n - 2);
  }

  lemma PaymentChecks(s: State, tx: Tx, p: Payment, n: nat)
    requires tx.req == CreatePayment(p) && tx.pc == 5 && n >= 6
    ensures Ends(Alone(s, tx, n), PaymentChecked(s, p, tx.known.since, tx.known.agreed), [PaymentRow(p)])
  {
    hide Alone, Next, SummaryOf, Paid, FindPayment, Receive;
    PaymentOnward(s, tx, p, n);
    var locked := tx.(pc := 6, held := tx.held + {Exclusive(RowOfParticipant(p.agreement, p.member))});
    PaymentOnward(s, locked, p, n - 1);
    PaymentOnward(s, locked.(pc := 7), p, n - 2);
    PaymentInserts(s, locked.(pc := 8), p, n - 3);
  }

  lemma PaymentReads(s: State, tx: Tx, p: Payment, n: nat)
    requires tx.req == CreatePayment(p) && tx.pc == 2 && n >= 9
    ensures Ends(Alone(s, tx, n), PaymentLooked(s, p), [PaymentRow(p)])
  {
    hide Alone, Next, PaymentChecked, FindAgreement, FindParticipant, FindPayment, FindVoidOf;
    PaymentOnward(s, tx, p, n);
    var a := FindAgreement(s.log, p.agreement);
    if a.Some? {
      var shared := tx.(pc := 3, known := tx.known.(since := a.value.occurredAt), held := tx.held + {Shared(RowOfAgreement(p.agreement))});
      PaymentOnward(s, shared, p, n - 1);
      PaymentOnward(s, shared.(pc := 4), p, n - 2);
      var q := FindParticipant(a.value.participants, p.member);
      if q.Some? { PaymentChecks(s, shared.(pc := 5, known := shared.known.(agreed := q.value.total)), p, n - 3); }
    }
  }

  lemma AnswerToPayment(s: State, tx: Tx, p: Payment, n: nat)
    requires tx.req == CreatePayment(p) && tx.pc == 1 && n >= 10
    ensures Ends(Alone(s, tx, n), PaymentAnswer(s, p), [PaymentRow(p)])
  {
    hide Alone, Next, SummaryOf, FindPayment, PaymentLooked;
    PaymentOnward(s, tx, p, n);
    PaymentOnward(s, tx.(pc := 11), p, n - 1);
    if FindPayment(s.log, p.id).None? { PaymentReads(s, tx.(pc := 2), p, n - 1); }
  }

  /** In a good log the agreement and the participant line found are the only ones. */
  lemma OnlyShare(log: Log, agreement: Id, member: Id, since: Instant, total: nat)
    requires GoodLog(log)
    ensures var a := FindAgreement(log, agreement);
            var q := if a.Some? then FindParticipant(a.value.participants, member) else None;
            && (Agreed(log, agreement, since, member, total) <==> q.Some? && q.value.total == total && a.value.occurredAt == since)
            && (NoShare(log, agreement, member) <==> q.None?)
  {
    var a := FindAgreement(log, agreement);
    forall b | b in log && b.AgreementRow? && b.id == agreement ensures a == Some(b) { AgreementIsFixed(log, a.value, b); }
    if a.Some? {
      var q := FindParticipant(a.value.participants, member);
      if q.Some? {
        forall t | Participant(member, t) in a.value.participants ensures t == q.value.total {
          OneParticipant(log, a.value, Participant(member, t), q.value);
        }
        assert Participant(member, q.value.total) == q.value;
      }
    }
  }

  lemma PaymentLine(log: Log, p: Payment)
    requires GoodLog(log) && p.amount > 0
    ensures var a := FindAgreement(log, p.agreement);
            var q := if a.Some? then FindParticipant(a.value.participants, p.member) else None;
            Admissible(log, PaymentRow(p)) <==>
              && NoPayment(log, p.id) && NotVoided(log, p.agreement) && q.Some? && q.value.total > 0
              && a.value.occurredAt <= p.occurredAt && Paid(log, p.agreement, p.member) + p.amount <= q.value.total
  {
    var a := FindAgreement(log, p.agreement);
    if Admissible(log, PaymentRow(p)) {
      var b, t :| b in log && b.AgreementRow? && b.id == p.agreement
          && Participant(p.member, t) in b.participants && b.occurredAt <= p.occurredAt
          && Paid(log, p.agreement, p.member) + p.amount <= t;
      AgreementIsFixed(log, a.value, b);
      var q := FindParticipant(b.participants, p.member);
      assert q.Some?;
      OneParticipant(log, b, Participant(p.member, t), q.value);
    } else if a.Some? {
      var q := FindParticipant(a.value.participants, p.member);
      if q.Some? { assert Participant(p.member, q.value.total) == q.value; }
    }
  }

  /** The answer of a known payment, from the ledger alone. */
  lemma KnownPayment(s: State, p: Payment, o: Outcome)
    requires GoodLog(s.log) && p.amount > 0 && FindPayment(s.log, p.id).Some?
    ensures PaymentAnswer(s, p) == o <==> PaymentReason(s, p, o)
  {
    hide GoodLog, SummaryOf, FindPayment, Paid, Admits;
    var row := FindPayment(s.log, p.id).value;
    AdmitsOne(s.log, PaymentRow(p));
    OnlyPayment(s.log, p.id);
    assert row == PaymentRow(row.pay) && PaymentRow(row.pay) in s.log && row.pay.id == p.id;
    assert !NoPayment(s.log, p.id);
  }

  /** The answer of a new payment, from the ledger alone. */
  lemma NewPayment(s: State, p: Payment, o: Outcome)
    requires GoodLog(s.log) && p.amount > 0 && FindPayment(s.log, p.id).None?
    ensures PaymentAnswer(s, p) == o <==> PaymentReason(s, p, o)
  {
    hide GoodLog, SummaryOf, FindPayment, FindAgreement, FindVoidOf, FindParticipant, Paid, Admits, Admissible, Agreed, NoShare;
    AdmitsOne(s.log, PaymentRow(p));
    PaymentLine(s.log, p);
    OnlyShare(s.log, p.agreement, p.member, 0, 0);
    forall since, total: nat ensures Agreed(s.log, p.agreement, since, p.member, total) <==>
      var a := FindAgreement(s.log, p.agreement);
      var q := if a.Some? then FindParticipant(a.value.participants, p.member) else None;
      q.Some? && q.value.total == total && a.value.occurredAt == since
    {
      OnlyShare(s.log, p.agreement, p.member, since, total);
    }
    var a := FindAgreement(s.log, p.agreement);
    if a.Some? {
      var q := FindParticipant(a.value.participants, p.member);
      if q.Some? { assert Agreed(s.log, p.agreement, a.value.occurredAt, p.member, q.value.total); }
    }
  }

  // ----- payment reversals ----------------------------------------------------------------------

  function ReversalChecked(s: State, r: Reversal, p: Payment): Outcome {
    if FindReversalOf(s.log, r.payment).Some? then AlreadyReversed
    else if r.occurredAt < p.occurredAt || r.occurredAt > s.clock then TimeInvalid
    else if r.id == r.payment then CheckFailed
    else if r.id in s.foreign || FindReversal(s.log, r.id).Some? then IdConflict
    else Receive(s.log + [ReversalRow(r)], p.agreement, Created)
  }

  function ReversalAnswer(s: State, r: Reversal): Outcome {
    match (FindReversal(s.log, r.id), FindPayment(s.log, r.payment))
    case (Some(row), found) =>
      if row.rev != r then IdConflict
      else (match found
            case Some(payment) => Receive(s.log, payment.pay.agreement, Replayed)
            case None => NotFound)
    case (None, Some(payment)) => ReversalChecked(s, r, payment.pay)
    case (None, None) => NotFound
  }

  lemma ReversalInserts(s: State, tx: Tx, r: Reversal, p: Payment, n: nat)
    requires tx.req == ReversePayment(r) && tx.known.payment == Some(p) && tx.pc == 5 && n >= 5
    ensures Ends(Alone(s, tx, n), ReversalChecked(s, r, p), [ReversalRow(r)])
  {
    hide Alone, Next, SummaryOf, FindReversal, FindReversalOf;
    ReversalOnward(s, tx, r, n);
    ReversalOnward(s, tx.(pc := 6), r, n - 1);
    ReversalOnward(s, tx.(pc := 7), r, n - 2);
    var inserted := tx.(pc := 8, pending := [ReversalRow(r)]);
    ReversalOnward(s, inserted, r, n - 3);
    ReversalOnward(s, inserted.(pc := 9), r, n - 4);
  }

  lemma ReversalLocksBoth(s: State, tx: Tx, r: Reversal, p: Payment, n: nat)
    requires tx.req == ReversePayment(r) && tx.known.payment == Some(p) && tx.pc == 3 && n >= 7
    ensures Ends(Alone(s, tx, n), ReversalChecked(s, r, p), [ReversalRow(r)])
  {
    hide Alone, Next, ReversalChecked;
    ReversalOnward(s, tx, r, n);
    var one := tx.(pc := 4, held := tx.held + {Exclusive(RowOfParticipant(p.agreement, p.member))});
    ReversalOnward(s, one, r, n - 1);
    ReversalInserts(s, one.(pc := 5, held := one.held + {Exclusive(RowOfPayment(r.payment))}), r, p, n - 2);
  }

  lemma AnswerToReversal(s: State, tx: Tx, r: Reversal, n: nat)
    requires tx.req == ReversePayment(r) && tx.pc == 1 && n >= 9
    ensures Ends(Alone(s, tx, n), ReversalAnswer(s, r), [ReversalRow(r)])
  {
    hide Alone, Next, SummaryOf, FindPayment, FindReversal, ReversalChecked;
    ReversalOnward(s, tx, r, n);
    if FindReversal(s.log, r.id).Some? {
      ReversalOnward(s, tx.(pc := 10), r, n - 1);
    } else {
      ReversalOnward(s, tx.(pc := 2), r, n - 1);
      var payment := FindPayment(s.log, r.payment);
      if payment.Some? {
        ReversalLocksBoth(s, tx.(pc := 3, known := tx.known.(payment := Some(payment.value.pay))), r, payment.value.pay, n - 2);
      }
    }
  }

  lemma SamePayment(log: Log, row: Row, id: Id)
    requires GoodLog(log) && FindPayment(log, id).Some? && !row.PaymentRow?
    ensures FindPayment(log + [row], id) == FindPayment(log, id)
  {
    var was, now := FindPayment(log, id), FindPayment(log + [row], id);
    assert was.value in log + [row];
    PaymentIsFixed(log, was.value.pay, now.value.pay);
  }

  lemma ReversalIsFixed(log: Log, a: Reversal, b: Reversal)
    requires GoodLog(log) && ReversalRow(a) in log && ReversalRow(b) in log && a.id == b.id
    ensures a == b
  {
    var i :| 0 <= i < |log| && log[i] == ReversalRow(a);
    var j :| 0 <= j < |log| && log[j] == ReversalRow(b);
    if i < j { RowsAreUnique(log, i, j); }
    if j < i { RowsAreUnique(log, j, i); }
  }

  lemma OnlyPayment(log: Log, id: Id)
    requires GoodLog(log)
    ensures forall p :: PaymentRow(p) in log && p.id == id <==> FindPayment(log, id) == Some(PaymentRow(p))
  {
    forall p ensures PaymentRow(p) in log && p.id == id <==> FindPayment(log, id) == Some(PaymentRow(p)) {
      if PaymentRow(p) in log && p.id == id { PaymentIsFixed(log, p, FindPayment(log, id).value.pay); }
    }
  }

  lemma OnlyReversal(log: Log, id: Id)
    requires GoodLog(log)
    ensures forall r :: ReversalRow(r) in log && r.id == id <==> FindReversal(log, id) == Some(ReversalRow(r))
  {
    forall r ensures ReversalRow(r) in log && r.id == id <==> FindReversal(log, id) == Some(ReversalRow(r)) {
      if ReversalRow(r) in log && r.id == id { ReversalIsFixed(log, r, FindReversal(log, id).value.rev); }
    }
  }

  lemma ReversalAdmitted(log: Log, r: Reversal)
    requires GoodLog(log)
    ensures var found := FindPayment(log, r.payment);
            Admissible(log, ReversalRow(r)) <==>
              NoReversal(log, r.id) && NotReversed(log, r.payment) && found.Some? && found.value.pay.occurredAt <= r.occurredAt
  {
    if Admissible(log, ReversalRow(r)) {
      var p :| p in log && p.PaymentRow? && p.pay.id == r.payment && p.pay.occurredAt <= r.occurredAt;
      PaymentIsFixed(log, p.pay, FindPayment(log, r.payment).value.pay);
    }
  }

  /** A recorded reversal has its payment. */
  lemma {:induction false} ReversalHasTarget(log: Log, r: Reversal)
    requires GoodLog(log) && ReversalRow(r) in log
    ensures FindPayment(log, r.payment).Some? && !NotReversed(log, r.payment)
  {
    var i :| 0 <= i < |log| && log[i] == ReversalRow(r);
    PrefixGood(log, i);
    var p :| p in log[..i] && p.PaymentRow? && p.pay.id == r.payment && p.pay.occurredAt <= r.occurredAt;
    assert p in log;
  }

  lemma KnownReversal(s: State, r: Reversal, o: Outcome)
    requires GoodLog(s.log) && FindReversal(s.log, r.id).Some?
    ensures ReversalAnswer(s, r) == o <==> ReversalReason(s, r, o)
  {
    hide GoodLog, SummaryOf, FindReversal, FindPayment, Admits;
    var row := FindReversal(s.log, r.id).value;
    AdmitsOne(s.log, ReversalRow(r));
    OnlyPayment(s.log, r.payment);
    OnlyReversal(s.log, r.id);
    assert row == ReversalRow(row.rev) && ReversalRow(row.rev) in s.log && row.rev.id == r.id;
    assert !NoReversal(s.log, r.id);
    if ReversalRow(r) in s.log {
      ReversalHasTarget(s.log, r);
      var p := FindPayment(s.log, r.payment).value.pay;
      assert PaymentRow(p) in s.log && p.id == r.payment;
    }
  }

  lemma NewReversal(s: State, r: Reversal, o: Outcome)
    requires GoodLog(s.log) && FindReversal(s.log, r.id).None?
    ensures ReversalAnswer(s, r) == o <==> ReversalReason(s, r, o)
  {
    hide GoodLog, SummaryOf, FindReversal, FindReversalOf, FindPayment, Admits, Admissible;
    AdmitsOne(s.log, ReversalRow(r));
    ReversalAdmitted(s.log, r);
    OnlyPayment(s.log, r.payment);
    var found := FindPayment(s.log, r.payment);
    if found.Some? {
      SamePayment(s.log, ReversalRow(r), r.payment);
      assert found == Some(PaymentRow(found.value.pay));
      assert PaymentRow(found.value.pay) in s.log && found.value.pay.id == r.payment;
    }
  }

  // ----- agreement voids --------------------------------------------------------------------------

  function VoidChecked(s: State, v: Void, since: Instant): Outcome {
    if FindVoidOf(s.log, v.agreement).Some? then AlreadyReversed
    else if v.occurredAt < since || v.occurredAt > s.clock then TimeInvalid
    else if v.id in s.foreign || FindVoid(s.log, v.id).Some? then NotFound
    else Created
  }

  function VoidAnswer(s: State, v: Void): Outcome {
    match (FindVoid(s.log, v.id), FindAgreement(s.log, v.agreement))
    case (Some(row), _) => if row.void == v then Replayed else IdConflict
    case (None, Some(a)) => VoidChecked(s, v, a.occurredAt)
    case (None, None) => NotFound
  }

  lemma VoidIsFixed(log: Log, a: Void, b: Void)
    requires GoodLog(log) && VoidRow(a) in log && VoidRow(b) in log && a.id == b.id
    ensures a == b
  {
    var i :| 0 <= i < |log| && log[i] == VoidRow(a);
    var j :| 0 <= j < |log| && log[j] == VoidRow(b);
    if i < j { RowsAreUnique(log, i, j); }
    if j < i { RowsAreUnique(log, j, i); }
  }

  lemma OnlyAgreement(log: Log, id: Id, since: Instant)
    requires GoodLog(log)
    ensures AgreementSince(log, id, since) <==> FindAgreement(log, id).Some? && FindAgreement(log, id).value.occurredAt == since
  {
    if AgreementSince(log, id, since) {
      var a :| a in log && a.AgreementRow? && a.id == id && a.occurredAt == since;
      AgreementIsFixed(log, a, FindAgreement(log, id).value);
    }
  }

  lemma VoidAdmitted(log: Log, v: Void)
    requires GoodLog(log)
    ensures var a := FindAgreement(log, v.agreement);
            Admissible(log, VoidRow(v)) <==>
              NoVoid(log, v.id) && NotVoided(log, v.agreement) && a.Some? && a.value.occurredAt <= v.occurredAt
  {
    if Admissible(log, VoidRow(v)) {
      var a :| a in log && a.AgreementRow? && a.id == v.agreement && a.occurredAt <= v.occurredAt;
      AgreementIsFixed(log, a, FindAgreement(log, v.agreement).value);
    }
  }

  lemma VoidChecks(s: State, tx: Tx, v: Void, n: nat)
    requires tx.req == VoidAgreement(v) && tx.pc == 3 && n >= 4
    ensures Ends(Alone(s, tx, n), VoidChecked(s, v, tx.known.since), [VoidRow(v)])
  {
    hide Alone, Next, FindVoid, FindVoidOf, FindAgreement;
    VoidOnward(s, tx, v, n);
    VoidOnward(s, tx.(pc := 4), v, n - 1);
    VoidOnward(s, tx.(pc := 5), v, n - 2);
    VoidOnward(s, tx.(pc := 6, pending := [VoidRow(v)]), v, n - 3);
  }

  lemma AnswerToVoid(s: State, tx: Tx, v: Void, n: nat)
    requires tx.req == VoidAgreement(v) && tx.pc == 1 && n >= 6
    ensures Ends(Alone(s, tx, n), VoidAnswer(s, v), [VoidRow(v)])
  {
    hide Alone, Next, FindVoid, FindVoidOf, FindAgreement, VoidChecked;
    VoidOnward(s, tx, v, n);
    if FindVoid(s.log, v.id).None? {
      VoidOnward(s, tx.(pc := 2), v, n - 1);
      var a := FindAgreement(s.log, v.agreement);
      if a.Some? {
        VoidChecks(s, tx.(pc := 3, known := tx.known.(since := a.value.occurredAt), held := tx.held + {Exclusive(RowOfAgreement(v.agreement))}), v, n - 2);
      }
    }
  }

  lemma VoidReasons(s: State, v: Void, o: Outcome)
    requires GoodLog(s.log)
    ensures VoidAnswer(s, v) == o <==> VoidReason(s, v, o)
  {
    hide GoodLog, FindVoid, FindVoidOf, FindAgreement, Admits, Admissible, AgreementSince;
    AdmitsOne(s.log, VoidRow(v));
    VoidAdmitted(s.log, v);
    forall since ensures AgreementSince(s.log, v.agreement, since)
      <==> FindAgreement(s.log, v.agreement).Some? && FindAgreement(s.log, v.agreement).value.occurredAt == since
    {
      OnlyAgreement(s.log, v.agreement, since);
    }
    var found, a := FindVoid(s.log, v.id), FindAgreement(s.log, v.agreement);
    if a.Some? { assert AgreementSince(s.log, v.agreement, a.value.occurredAt); }
    if found.Some? {
      assert found == Some(VoidRow(found.value.void)) && VoidRow(found.value.void) in s.log;
      forall w | VoidRow(w) in s.log && w.id == v.id ensures w == found.value.void { VoidIsFixed(s.log, w, found.value.void); }
      assert !NoVoid(s.log, v.id);
    }
  }

  // ----- work shifts ------------------------------------------------------------------------------

  function ShiftAnswer(s: State, shift: Shift): Outcome {
    match FindShift(s.log, shift.id)
    case Some(row) => if row.shift == shift && row.source == Direct then Replayed else IdConflict
    case None => if FindCorrection(s.log, shift.id).Some? || shift.id in s.foreign then IdConflict else Created
  }

  lemma OthersIsCount(log: Log, scope: Scope, gone: set<Id>)
    ensures OthersOf(log, scope, gone) == WorkWithout(log, scope, gone).shifts
  {
    WorkNotNegative(log, scope, gone);
  }

  lemma AnswerToShift(s: State, tx: Tx, shift: Shift, n: nat)
    requires tx.req == CreateShift(shift) && tx.pc == 1 && n >= 6
    ensures Ends(Alone(s, tx, n), ShiftAnswer(s, shift), RowsFor(s.log, tx.req))
  {
    hide Alone, Next, WorkWithout, CorrectedIn, FindShift, FindCorrection;
    var rows := RowsFor(s.log, tx.req);
    ShiftOnward(s, tx, shift, n);
    if FindShift(s.log, shift.id).None? {
      ShiftOnward(s, tx.(pc := 2), shift, n - 1);
      ShiftOnward(s, tx.(pc := 3), shift, n - 2);
      var locked := tx.(pc := 4, held := tx.held + {Exclusive(DayKey(shift))});
      ShiftOnward(s, locked, shift, n - 3);
      var counted := locked.(pc := 5, known := tx.known.(others := rows[0].others));
      ShiftOnward(s, counted, shift, n - 4);
      ShiftOnward(s, counted.(pc := 6, pending := rows), shift, n - 5);
    }
  }

  /** A shift and a correction never share an identity. */
  lemma ShiftOrCorrection(log: Log, id: Id)
    requires GoodLog(log)
    ensures NoShift(log, id) || NoCorrection(log, id)
  {
    if exists a, b :: a in log && b in log && a.ShiftRow? && b.CorrectionRow? && a.shift.id == b.cor.id == id {
      var a :| a in log && a.ShiftRow? && a.shift.id == id;
      var b :| b in log && b.CorrectionRow? && b.cor.id == id;
      var i :| 0 <= i < |log| && log[i] == a;
      var j :| 0 <= j < |log| && log[j] == b;
      if i < j { ShiftIdentities(log, i, j); }
      if j < i { ShiftIdentities(log, j, i); }
    }
  }

  lemma ShiftReasons(s: State, shift: Shift, o: Outcome)
    requires GoodLog(s.log)
    ensures ShiftAnswer(s, shift) == o <==> ShiftReason(s, shift, o)
  {
    hide GoodLog, WorkWithout, CorrectedIn, FindShift, FindCorrection, Admits;
    var rows := RowsFor(s.log, CreateShift(shift));
    AdmitsOne(s.log, rows[0]);
    OthersIsCount(s.log, DayOf(shift.member, shift.day), CorrectedIn(s.log));
    ShiftOrCorrection(s.log, shift.id);
    var found := FindShift(s.log, shift.id);
    if found.Some? {
      assert found.value == ShiftRow(found.value.shift, found.value.source, found.value.others);
      forall row | row in s.log && row.ShiftRow? && row.shift.id == shift.id ensures row == found.value { ShiftIsFixed(s.log, row, found.value); }
    }
  }

  // ----- shift corrections ------------------------------------------------------------------------

  function CorrectionChecked(s: State, c: Correction): Outcome {
    if c.replacement.Some? && (FindShift(s.log, c.replacement.value.id).Some? || FindCorrection(s.log, c.replacement.value.id).Some?
                               || c.replacement.value.id in s.foreign) then IdConflict
    else if c.id in s.foreign || FindCorrection(s.log, c.id).Some? || FindCorrectionOf(s.log, c.shift).Some? then IdConflict
    else Created
  }

  function CorrectionAnswer(s: State, c: Correction): Outcome {
    match FindCorrection(s.log, c.id)
    case Some(row) => if row.cor == c then Replayed else IdConflict
    case None =>
      if FindShift(s.log, c.id).Some? then IdConflict
      else if FindShift(s.log, c.shift).None? then NotFound
      else if FindCorrectionOf(s.log, c.shift).Some? then AlreadyReversed
      else CorrectionChecked(s, c)
  }

  lemma ReplacementAdmitted(log: Log, c: Correction, s: Shift)
    requires GoodLog(log) && Accepted(CorrectShift(c)) && c.replacement == Some(s)
    ensures Admits(log, RowsFor(log, CorrectShift(c))) <==> Correctable(log, c) && NoShift(log, s.id) && NoCorrection(log, s.id)
  {
    var rows := RowsFor(log, CorrectShift(c));
    var mid := log + [rows[0]];
    assert rows[1..] == [CorrectionRow(c)];
    AdmitsOne(mid, CorrectionRow(c));
    OthersIsCount(log, DayOf(s.member, s.day), CorrectedIn(log) + {c.shift});
    assert rows[0] in mid && forall r :: r in mid <==> r in log || r == rows[0];
    SameShiftsAround(log, rows[0], c.shift);
    if NoShift(log, s.id) { ReplacementCount(log, c, s, rows[0].others); }
    hide GoodLog, Work, WorkWithout, CorrectedIn;
  }

  lemma SameShiftsAround(log: Log, row: Row, id: Id)
    requires row.ShiftRow? && row.shift.id != id
    ensures NoShift(log + [row], id) <==> NoShift(log, id)
  {
    if NoShift(log + [row], id) {
      forall r | r in log && r.ShiftRow? ensures r.shift.id != id { assert r in log + [row]; }
    }
  }

  lemma CorrectionInserts(s: State, tx: Tx, c: Correction, n: nat)
    requires tx.req == CorrectShift(c) && tx.pc == 9 && n >= 2
    ensures Ends(Alone(s, tx, n),
                 if c.id in s.foreign || FindCorrection(s.log, c.id).Some? || FindCorrectionOf(s.log, c.shift).Some? then IdConflict else Created,
                 tx.pending + [CorrectionRow(c)])
  {
    hide Alone, Next, FindCorrection, FindCorrectionOf;
    CorrectionOnward(s, tx, c, n);
    CorrectionOnward(s, tx.(pc := 10, pending := tx.pending + [CorrectionRow(c)]), c, n - 1);
  }

  lemma ReplacementInserts(s: State, tx: Tx, c: Correction, shift: Shift, n: nat)
    requires tx.req == CorrectShift(c) && c.replacement == Some(shift) && tx.pc == 5 && tx.pending == [] && n >= 6
    ensures Ends(Alone(s, tx, n), CorrectionChecked(s, c), RowsFor(s.log, tx.req))
  {
    hide Alone, Next, WorkWithout, CorrectedIn, FindShift, FindCorrection, FindCorrectionOf;
    var row := RowsFor(s.log, tx.req)[0];
    CorrectionOnward(s, tx, c, n);
    CorrectionOnward(s, tx.(pc := 6), c, n - 1);
    CorrectionOnward(s, tx.(pc := 7), c, n - 2);
    var counted := tx.(pc := 8, known := tx.known.(others := row.others));
    CorrectionOnward(s, counted, c, n - 3);
    var inserted := counted.(pc := 9, pending := [row]);
    CorrectionInserts(s, inserted, c, n - 4);
    assert inserted.pending + [CorrectionRow(c)] == RowsFor(s.log, tx.req);
  }

  lemma PlainInserts(s: State, tx: Tx, c: Correction, n: nat)
    requires tx.req == CorrectShift(c) && c.replacement.None? && tx.pc == 5 && tx.pending == [] && n >= 3
    ensures Ends(Alone(s, tx, n), CorrectionChecked(s, c), RowsFor(s.log, tx.req))
  {
    hide Alone, Next, FindCorrection, FindCorrectionOf;
    CorrectionOnward(s, tx, c, n);
    CorrectionInserts(s, tx.(pc := 9), c, n - 1);
    assert tx.pending + [CorrectionRow(c)] == RowsFor(s.log, tx.req);
  }

  /** From the first key of a day on. */
  lemma CorrectionLocksDays(s: State, tx: Tx, c: Correction, n: nat)
    requires tx.req == CorrectShift(c) && tx.pc == 4 && tx.pending == [] && |tx.queue| <= 2 && n >= 9
    ensures Ends(Alone(s, tx, n), CorrectionChecked(s, c), RowsFor(s.log, tx.req))
  {
    hide Alone, Next, CorrectionChecked, RowsFor;
    var after, left := PassKeys(s, tx, n);
    match c.replacement
    case Some(shift) => ReplacementInserts(s, after, c, shift, left);
    case None => PlainInserts(s, after, c, left);
  }

  lemma CorrectionIsFixed(log: Log, a: Correction, b: Correction)
    requires GoodLog(log) && CorrectionRow(a) in log && CorrectionRow(b) in log && a.id == b.id
    ensures a == b
  {
    var i :| 0 <= i < |log| && log[i] == CorrectionRow(a);
    var j :| 0 <= j < |log| && log[j] == CorrectionRow(b);
    if i < j { ShiftIdentities(log, i, j); }
    if j < i { ShiftIdentities(log, j, i); }
  }

  lemma CorrectionAdmitted(log: Log, c: Correction)
    requires GoodLog(log) && Accepted(CorrectShift(c))
    ensures Admits(log, RowsFor(log, CorrectShift(c))) <==>
              Correctable(log, c) && (c.replacement.Some? ==> NoShift(log, c.replacement.value.id) && NoCorrection(log, c.replacement.value.id))
  {
    hide GoodLog;
    match c.replacement
    case Some(s) => ReplacementAdmitted(log, c, s);
    case None => AdmitsOne(log, CorrectionRow(c));
  }

  lemma AnswerToCorrection(s: State, tx: Tx, c: Correction, n: nat)
    requires tx.req == CorrectShift(c) && tx.pc == 1 && tx.pending == [] && n >= 12
    ensures Ends(Alone(s, tx, n), CorrectionAnswer(s, c), RowsFor(s.log, tx.req))
  {
    hide Alone, Next, RowsFor, DayKeys, CorrectionChecked, FindShift, FindCorrection, FindCorrectionOf;
    CorrectionOnward(s, tx, c, n);
    if FindCorrection(s.log, c.id).None? {
      CorrectionOnward(s, tx.(pc := 2), c, n - 1);
      CorrectionOnward(s, tx.(pc := 3), c, n - 2);
      var original := FindShift(s.log, c.shift);
      if FindShift(s.log, c.id).None? && original.Some? && FindCorrectionOf(s.log, c.shift).None? {
        var o := original.value.shift;
        CorrectionLocksDays(s, tx.(pc := 4, queue := DayKeys(o, c), known := tx.known.(original := Some(o))), c, n - 3);
      }
    }
  }

  lemma CorrectionReasons(s: State, c: Correction, o: Outcome)
    requires GoodLog(s.log) && Accepted(CorrectShift(c))
    ensures CorrectionAnswer(s, c) == o <==> CorrectionReason(s, c, o)
  {
    hide GoodLog, FindShift, FindCorrection, FindCorrectionOf, Admits, RowsFor;
    CorrectionAdmitted(s.log, c);
    ShiftOrCorrection(s.log, c.id);
    var found := FindCorrection(s.log, c.id);
    if found.Some? {
      assert found == Some(CorrectionRow(found.value.cor)) && CorrectionRow(found.value.cor) in s.log;
      forall d | CorrectionRow(d) in s.log && d.id == c.id ensures d == found.value.cor { CorrectionIsFixed(s.log, d, found.value.cor); }
      assert !NoCorrection(s.log, c.id);
    }
  }

  // ----- every kind of call -------------------------------------------------------------------------

  function AnswerOf(s: State, req: Request): Outcome {
    match req
    case CreatePayment(p) => PaymentAnswer(s, p)
    case ReversePayment(r) => ReversalAnswer(s, r)
    case VoidAgreement(v) => VoidAnswer(s, v)
    case CreateShift(shift) => ShiftAnswer(s, shift)
    case CorrectShift(c) => CorrectionAnswer(s, c)
  }

  lemma AnswerFrom(s: State, tx: Tx, n: nat)
    requires tx.pc == 1 && tx.pending == [] && n >= 12
    ensures Ends(Alone(s, tx, n), AnswerOf(s, tx.req), RowsFor(s.log, tx.req))
  {
    hide Alone, PaymentAnswer, ReversalAnswer, VoidAnswer, ShiftAnswer, CorrectionAnswer;
    match tx.req
    case CreatePayment(p) => AnswerToPayment(s, tx, p, n);
    case ReversePayment(r) => AnswerToReversal(s, tx, r, n);
    case VoidAgreement(v) => AnswerToVoid(s, tx, v, n);
    case CreateShift(shift) => AnswerToShift(s, tx, shift, n);
    case CorrectShift(c) => AnswerToCorrection(s, tx, c, n);
  }

  lemma AnswerIsGiven(s: State, req: Request)
    ensures Ends(Alone(s, Start(req), ENOUGH), AnswerOf(s, req), RowsFor(s.log, req))
  {
    hide Alone, Ends, AnswerOf, RowsFor;
    FewKeys(req);
    var after, left := PassKeys(s, Start(req), ENOUGH);
    AnswerFrom(s, after, left);
  }

  lemma FewKeys(req: Request)
    ensures |IdentityKeys(req)| <= 3
  {
  }

  /** The answer given is the one the ledger gives a reason for, and no other answer has a reason. */
  lemma AnswerHasItsReason(s: State, req: Request, o: Outcome)
    requires GoodLog(s.log) && Accepted(req)
    ensures AnswerOf(s, req) == o <==> Reason(s, req, o)
  {
    hide GoodLog, PaymentAnswer, PaymentReason, ReversalAnswer, ReversalReason, VoidAnswer, VoidReason, ShiftAnswer, ShiftReason, CorrectionAnswer, CorrectionReason;
    match req
    case CreatePayment(p) => if FindPayment(s.log, p.id).Some? { KnownPayment(s, p, o); } else { NewPayment(s, p, o); }
    case ReversePayment(r) => if FindReversal(s.log, r.id).Some? { KnownReversal(s, r, o); } else { NewReversal(s, r, o); }
    case VoidAgreement(v) => VoidReasons(s, v, o);
    case CreateShift(shift) => ShiftReasons(s, shift, o);
    case CorrectShift(c) => CorrectionReasons(s, c, o);
  }

  // ----- the same, in the system ------------------------------------------------------------------

  function Times(t: TxId, n: nat): seq<TxId> {
    if n == 0 then [] else [t] + Times(t, n - 1)
  }

  lemma RunAllSteps(s: State, t: TxId, n: nat)
    ensures n > 0 ==> RunAll(s, Times(t, n)) == RunAll(Apply(s, Run(t)), Times(t, n - 1))
  {
    if n > 0 { assert Times(t, n)[1..] == Times(t, n - 1); }
  }

  lemma {:induction false} GoneStays(s: State, t: TxId, n: nat)
    requires t !in s.txs
    ensures RunAll(s, Times(t, n)) == s
  {
    if n > 0 {
      RunAllSteps(s, t, n);
      GoneStays(s, t, n - 1);
    }
  }

  /** The system once its only transaction has ended. */
  function Ended(s: State, t: TxId, req: Request, e: Effect): State {
    match e
    case Finish(outcome) => s.(txs := map[], done := s.done[t := Done(req, outcome)])
    case Commit(rows) => s.(txs := map[], done := s.done[t := Done(req, Created)], log := s.log + rows)
    case _ => s.(txs := map[])
  }

  lemma EndedForgets(s: State, txs: map<TxId, Tx>, t: TxId, req: Request, e: Effect)
    ensures Ended(s.(txs := txs), t, req, e) == Ended(s, t, req, e)
  {
  }

  function Continued(e: Effect): Option<Tx> {
    match e
    case Goto(m) => Some(m)
    case Take(lock, m) => Some(m.(held := m.held + {lock}))
    case _ => None
  }

  /** The only running transaction is granted every lock. */
  lemma StepsAlone(s: State, t: TxId, tx: Tx)
    requires s.txs == map[t := tx]
    ensures var e := Next(s.log, s.clock, s.foreign, tx);
            match Continued(e)
            case Some(m) => Apply(s, Run(t)) == s.(txs := map[t := m]) && m.req == tx.req
            case None => Apply(s, Run(t)) == Ended(s, t, tx.req, e)
  {
    SameRequest(s, tx);
    hide Next;
    assert s.txs - {t} == map[];
  }

  lemma AloneSteps(s: State, tx: Tx, n: nat)
    ensures n == 0 ==> Alone(s, tx, n).None?
    ensures n > 0 ==> var e := Next(s.log, s.clock, s.foreign, tx);
                      match Continued(e)
                      case Some(m) => Alone(s, tx, n) == Alone(s, m, n - 1)
                      case None => Alone(s, tx, n) == Some(e)
  {
    hide Next;
  }

  /** So it runs as it does alone. */
  lemma {:induction false} RunsAsAlone(s: State, t: TxId, tx: Tx, n: nat)
    requires s.txs == map[t := tx] && Alone(s, tx, n).Some?
    ensures RunAll(s, Times(t, n)) == Ended(s, t, tx.req, Alone(s, tx, n).value)
    decreases n
  {
    hide *;
    AloneSteps(s, tx, n);
    RunAllSteps(s, t, n);
    StepsAlone(s, t, tx);
    var next := Apply(s, Run(t));
    match Continued(Next(s.log, s.clock, s.foreign, tx))
    case Some(m) =>
      AloneIgnores(s, next, m, n - 1);
      RunsAsAlone(next, t, m, n - 1);
      EndedForgets(s, next.txs, t, tx.req, Alone(s, tx, n).value);
    case None =>
      EndedIsEmpty(s, t, tx.req, Next(s.log, s.clock, s.foreign, tx));
      GoneStays(next, t, n - 1);
  }

  lemma EndedIsEmpty(s: State, t: TxId, req: Request, e: Effect)
    ensures Ended(s, t, req, e).txs == map[]
  {
  }

  lemma SameRequest(s: State, tx: Tx)
    ensures match Next(s.log, s.clock, s.foreign, tx)
            case Goto(n) => n.req == tx.req
            case Take(_, n) => n.req == tx.req
            case _ => true
  {
    hide SummaryOf, Paid, Work, WorkWithout, DayKeys;
  }

  lemma {:induction false} AloneIgnores(a: State, b: State, tx: Tx, n: nat)
    requires a.log == b.log && a.clock == b.clock && a.foreign == b.foreign
    ensures Alone(a, tx, n) == Alone(b, tx, n)
    decreases n
  {
    hide *;
    AloneSteps(a, tx, n);
    AloneSteps(b, tx, n);
    if n > 0 {
      match Continued(Next(a.log, a.clock, a.foreign, tx))
      case Some(m) => AloneIgnores(a, b, m, n - 1);
      case None =>
    }
  }

  /**
   * After any run that left nobody running, a call that nobody disturbs ends, and every
   * answer is given exactly when the ledger holds its reason. Created: exactly the rows
   * asked for are written. Otherwise nothing is.
   */
  lemma UndisturbedCall(clock: Instant, actions: seq<Action>, t: TxId, req: Request)
    requires var s := Execute(clock, actions); s.txs == map[] && t !in s.done && Accepted(req)
    ensures var s := Execute(clock, actions);
            var s' := RunAll(Apply(s, Begin(t, req)), Times(t, ENOUGH));
            && s'.txs == map[] && t in s'.done && s'.done[t].req == req
            && (forall o :: s'.done[t].outcome == o <==> Reason(s, req, o))
            && s'.log == (if Welcome(s, req) then s.log + RowsFor(s.log, req) else s.log)
  {
    hide *;
    Reachable(clock, actions);
    var s := Execute(clock, actions);
    GoodNow(s);
    AnswerIsGiven(s, req);
    forall o ensures AnswerOf(s, req) == o <==> Reason(s, req, o) { AnswerHasItsReason(s, req, o); }
    CreatedIsWelcome(s, req);
    var begun := Apply(s, Begin(t, req));
    Begun(s, t, req);
    AloneIgnores(s, begun, Start(req), ENOUGH);
    EndsClearly(Alone(s, Start(req), ENOUGH), AnswerOf(s, req), RowsFor(s.log, req));
    RunsAsAlone(begun, t, Start(req), ENOUGH);
    EndedClearly(begun, t, req, Alone(s, Start(req), ENOUGH).value);
  }

  lemma GoodNow(s: State)
    requires Invariant(s)
    ensures GoodLog(s.log)
  {
  }

  lemma CreatedIsWelcome(s: State, req: Request)
    ensures Reason(s, req, Created) <==> Welcome(s, req)
  {
    hide Welcome;
  }

  lemma Begun(s: State, t: TxId, req: Request)
    requires s.txs == map[] && t !in s.done && Accepted(req)
    ensures Apply(s, Begin(t, req)) == s.(txs := map[t := Start(req)]) && Start(req).req == req
  {
    hide Accepted, IdentityKeys;
  }

  lemma EndsClearly(e: Option<Effect>, answer: Outcome, rows: Log)
    requires Ends(e, answer, rows)
    ensures e.Some? && e.value == if answer == Created then Commit(rows) else Finish(answer)
  {
  }

  lemma EndedClearly(s: State, t: TxId, req: Request, e: Effect)
    ensures var s' := Ended(s, t, req, e);
            && s'.txs == map[]
            && (e.Finish? ==> s'.log == s.log && s'.done == s.done[t := Done(req, e.outcome)])
            && (e.Commit? ==> s'.log == s.log + e.rows && s'.done == s.done[t := Done(req, Created)])
  {
  }
}
