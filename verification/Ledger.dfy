/**
 * The committed finance tables, as one append-only log: agreements, their voids,
 * payments, payment reversals, work shifts and shift corrections. Rows are immutable,
 * so a table at any instant is the part of the log written so far.
 */
module Ledger {
  import opened Basics
  import PaymentSummary

  type Instant = int
  type Day = int

  datatype Origin = Origin(member: Id, account: Id, device: Id)

  /** Normalized request contents; a fingerprint is modelled by the content it digests. */
  datatype Payment = Payment(id: Id, agreement: Id, member: Id, amount: nat, occurredAt: Instant, note: Option<string>, origin: Origin)
  datatype Reversal = Reversal(id: Id, payment: Id, reason: string, occurredAt: Instant, origin: Origin)
  datatype Void = Void(id: Id, agreement: Id, reason: string, occurredAt: Instant, origin: Origin)
  datatype Shift = Shift(id: Id, member: Id, day: Day, minutes: Option<nat>, note: Option<string>, origin: Origin)
  datatype Correction = Correction(id: Id, shift: Id, replacement: Option<Shift>, reason: string, occurredAt: Instant, origin: Origin)

  datatype Participant = Participant(member: Id, total: nat)

  /** How a shift row came to be; part of its fingerprint. */
  datatype ShiftSource = Direct | ReplacementOf(correction: Id)

  datatype Row =
    | AgreementRow(id: Id, occurredAt: Instant, participants: seq<Participant>)
    | VoidRow(void: Void)
    | PaymentRow(pay: Payment)
    | ReversalRow(rev: Reversal)
    | ShiftRow(shift: Shift, source: ShiftSource, others: nat)
    | CorrectionRow(cor: Correction)

  type Log = seq<Row>

  // ----- lookups ------------------------------------------------------------------------

  ghost predicate NoAgreement(log: Log, id: Id) { forall r :: r in log && r.AgreementRow? ==> r.id != id }
  ghost predicate NoVoid(log: Log, id: Id) { forall r :: r in log && r.VoidRow? ==> r.void.id != id }
  ghost predicate NotVoided(log: Log, agreement: Id) { forall r :: r in log && r.VoidRow? ==> r.void.agreement != agreement }
  ghost predicate NoPayment(log: Log, id: Id) { forall r :: r in log && r.PaymentRow? ==> r.pay.id != id }
  ghost predicate NoReversal(log: Log, id: Id) { forall r :: r in log && r.ReversalRow? ==> r.rev.id != id }
  ghost predicate NotReversed(log: Log, payment: Id) { forall r :: r in log && r.ReversalRow? ==> r.rev.payment != payment }
  ghost predicate NoShift(log: Log, id: Id) { forall r :: r in log && r.ShiftRow? ==> r.shift.id != id }
  ghost predicate NoCorrection(log: Log, id: Id) { forall r :: r in log && r.CorrectionRow? ==> r.cor.id != id }
  ghost predicate NotCorrected(log: Log, shift: Id) { forall r :: r in log && r.CorrectionRow? ==> r.cor.shift != shift }

  function FindAgreement(log: Log, id: Id): (found: Option<Row>)
    ensures found.Some? ==> found.value in log && found.value.AgreementRow? && found.value.id == id
    ensures found.None? <==> NoAgreement(log, id)
  {
    Latest(log, (r: Row) => r.AgreementRow? && r.id == id)
  }

  function FindVoid(log: Log, id: Id): (found: Option<Row>)
    ensures found.Some? ==> found.value in log && found.value.VoidRow? && found.value.void.id == id
    ensures found.None? <==> NoVoid(log, id)
  {
    Latest(log, (r: Row) => r.VoidRow? && r.void.id == id)
  }

  function FindVoidOf(log: Log, agreement: Id): (found: Option<Row>)
    ensures found.Some? ==> found.value in log && found.value.VoidRow? && found.value.void.agreement == agreement
    ensures found.None? <==> NotVoided(log, agreement)
  {
    Latest(log, (r: Row) => r.VoidRow? && r.void.agreement == agreement)
  }

  function FindPayment(log: Log, id: Id): (found: Option<Row>)
    ensures found.Some? ==> found.value in log && found.value.PaymentRow? && found.value.pay.id == id
    ensures found.None? <==> NoPayment(log, id)
  {
    Latest(log, (r: Row) => r.PaymentRow? && r.pay.id == id)
  }

  function FindReversal(log: Log, id: Id): (found: Option<Row>)
    ensures found.Some? ==> found.value in log && found.value.ReversalRow? && found.value.rev.id == id
    ensures found.None? <==> NoReversal(log, id)
  {
    Latest(log, (r: Row) => r.ReversalRow? && r.rev.id == id)
  }

  function FindReversalOf(log: Log, payment: Id): (found: Option<Row>)
    ensures found.Some? ==> found.value in log && found.value.ReversalRow? && found.value.rev.payment == payment
    ensures found.None? <==> NotReversed(log, payment)
  {
    Latest(log, (r: Row) => r.ReversalRow? && r.rev.payment == payment)
  }

  function FindShift(log: Log, id: Id): (found: Option<Row>)
    ensures found.Some? ==> found.value in log && found.value.ShiftRow? && found.value.shift.id == id
    ensures found.None? <==> NoShift(log, id)
  {
    Latest(log, (r: Row) => r.ShiftRow? && r.shift.id == id)
  }

  function FindCorrection(log: Log, id: Id): (found: Option<Row>)
    ensures found.Some? ==> found.value in log && found.value.CorrectionRow? && found.value.cor.id == id
    ensures found.None? <==> NoCorrection(log, id)
  {
    Latest(log, (r: Row) => r.CorrectionRow? && r.cor.id == id)
  }

  function FindCorrectionOf(log: Log, shift: Id): (found: Option<Row>)
    ensures found.Some? ==> found.value in log && found.value.CorrectionRow? && found.value.cor.shift == shift
    ensures found.None? <==> NotCorrected(log, shift)
  {
    Latest(log, (r: Row) => r.CorrectionRow? && r.cor.shift == shift)
  }

  /** The participant line of a member, if the agreement has one. */
  function FindParticipant(ps: seq<Participant>, member: Id): (found: Option<Participant>)
    ensures found.Some? ==> found.value in ps && found.value.member == member
    ensures found.None? ==> forall p :: p in ps ==> p.member != member
  {
    if ps == [] then None
    else if ps[0].member == member then Some(ps[0])
    else FindParticipant(ps[1..], member)
  }

  predicate DistinctMembers(ps: seq<Participant>) {
    forall i, j :: 0 <= i < j < |ps| ==> ps[i].member != ps[j].member
  }

  // ----- sums over the tables -------------------------------------------------------------

  function ReversedIn(log: Log): set<Id> {
    set r | r in log && r.ReversalRow? :: r.rev.payment
  }

  function CorrectedIn(log: Log): set<Id> {
    set r | r in log && r.CorrectionRow? :: r.cor.shift
  }

  predicate PaysTo(r: Row, agreement: Id, member: Id) {
    r.PaymentRow? && r.pay.agreement == agreement && r.pay.member == member
  }

  /** Sum of the payments to one participant, leaving out some payment ids. */
  function PaidWithout(log: Log, agreement: Id, member: Id, gone: set<Id>): nat {
    if log == [] then 0 else
      var r := log[|log| - 1];
      PaidWithout(log[..|log| - 1], agreement, member, gone)
      + if PaysTo(r, agreement, member) && r.pay.id !in gone then r.pay.amount else 0
  }

  /** What a participant has been paid: payments without a reversal. */
  function Paid(log: Log, agreement: Id, member: Id): nat {
    PaidWithout(log, agreement, member, ReversedIn(log))
  }

  /** Shift count, known minutes and shifts of unknown duration. */
  datatype Totals = Totals(shifts: int, minutes: int, unknown: int) {
    function Plus(t: Totals): Totals { Totals(shifts + t.shifts, minutes + t.minutes, unknown + t.unknown) }
    function Minus(t: Totals): Totals { Totals(shifts - t.shifts, minutes - t.minutes, unknown - t.unknown) }

    /** The count a warning carries. */
    function Count(): nat { if shifts < 0 then 0 else shifts }
  }

  const ZERO := Totals(0, 0, 0)

  /** The rows a summary or a count looks at. */
  datatype Scope = Scope(member: Option<Id>, from: Option<Day>, to: Option<Day>)

  predicate InScope(s: Shift, scope: Scope) {
    && (scope.member.Some? ==> s.member == scope.member.value)
    && (scope.from.Some? ==> scope.from.value <= s.day)
    && (scope.to.Some? ==> s.day < scope.to.value)
  }

  function DayOf(member: Id, day: Day): Scope { Scope(Some(member), Some(day), Some(day + 1)) }

  function Weight(s: Shift, scope: Scope): Totals {
    if !InScope(s, scope) then ZERO
    else match s.minutes
      case Some(m) => Totals(1, m, 0)
      case None => Totals(1, 0, 1)
  }

  function WorkWithout(log: Log, scope: Scope, gone: set<Id>): Totals {
    if log == [] then ZERO else
      var r := log[|log| - 1];
      WorkWithout(log[..|log| - 1], scope, gone)
        .Plus(if r.ShiftRow? && r.shift.id !in gone then Weight(r.shift, scope) else ZERO)
  }

  /** Totals of the active shifts in scope: those without a correction. */
  function Work(log: Log, scope: Scope): Totals {
    WorkWithout(log, scope, CorrectedIn(log))
  }

  /** Live payment lines of an agreement, in participant order. */
  function LinesOf(log: Log, agreement: Id, ps: seq<Participant>): (lines: seq<PaymentSummary.Line>)
    ensures |lines| == |ps|
    ensures forall i :: 0 <= i < |ps| ==> lines[i].agreed == ps[i].total && lines[i].paid == Paid(log, agreement, ps[i].member)
  {
    if ps == [] then [] else
      [PaymentSummary.Line(ps[0].member, ps[0].total, Paid(log, agreement, ps[0].member),
                           RowsOf(log, agreement, ps[0].member, {}),
                           RowsOf(log, agreement, ps[0].member, ReversedIn(log)))]
      + LinesOf(log, agreement, ps[1..])
  }

  function RowsOf(log: Log, agreement: Id, member: Id, gone: set<Id>): nat {
    if log == [] then 0 else
      var r := log[|log| - 1];
      RowsOf(log[..|log| - 1], agreement, member, gone)
      + if PaysTo(r, agreement, member) && r.pay.id !in gone then 1 else 0
  }

  /** The payment summary read in a view of the tables. */
  function SummaryOf(log: Log, agreement: Id): Result<PaymentSummary.Summary, PaymentSummary.Failure> {
    match FindAgreement(log, agreement)
    case None => PaymentSummary.BuildSummary([])
    case Some(row) => PaymentSummary.BuildSummary(LinesOf(log, agreement, row.participants))
  }

  // ----- what a good log looks like ---------------------------------------------------------

  /** `row` may be appended to `log`. */
  ghost predicate Admissible(log: Log, row: Row) {
    match row
    case AgreementRow(id, _, ps) => NoAgreement(log, id) && DistinctMembers(ps)
    case VoidRow(v) =>
      && NoVoid(log, v.id) && NotVoided(log, v.agreement)
      && exists a :: a in log && a.AgreementRow? && a.id == v.agreement && a.occurredAt <= v.occurredAt
    case PaymentRow(p) =>
      && p.amount > 0
      && NoPayment(log, p.id) && NotVoided(log, p.agreement)
      && exists a, t :: a in log && a.AgreementRow? && a.id == p.agreement
          && Participant(p.member, t) in a.participants && a.occurredAt <= p.occurredAt
          && Paid(log, p.agreement, p.member) + p.amount <= t
    case ReversalRow(r) =>
      && NoReversal(log, r.id) && NotReversed(log, r.payment)
      && exists p :: p in log && p.PaymentRow? && p.pay.id == r.payment && p.pay.occurredAt <= r.occurredAt
    case ShiftRow(s, source, n) =>
      && NoShift(log, s.id) && NoCorrection(log, s.id)
      && (source.Direct? ==> n == Work(log, DayOf(s.member, s.day)).shifts)
    case CorrectionRow(c) =>
      && NoCorrection(log, c.id) && NoShift(log, c.id)
      && NotCorrected(log, c.shift) && !NoShift(log, c.shift)
      && (c.replacement.Some? ==> ReplacesLast(log, c))
  }

  /** The replacement was inserted just before its correction, with an exact count of the other shifts of its day. */
  ghost predicate ReplacesLast(log: Log, c: Correction)
    requires c.replacement.Some?
  {
    |log| > 0
    && var last := log[|log| - 1];
       && last.ShiftRow? && last.shift == c.replacement.value && last.source == ReplacementOf(c.id)
       && last.shift.id != c.shift
       && last.others + 1 == Work(log + [CorrectionRow(c)], DayOf(last.shift.member, last.shift.day)).shifts
  }

  /** No replacement shift is waiting for its correction row. */
  ghost predicate Closed(log: Log) {
    |log| > 0 ==> !(log[|log| - 1].ShiftRow? && log[|log| - 1].source.ReplacementOf?)
  }

  ghost predicate GoodLog(log: Log) {
    |log| > 0 ==>
      var before, row := log[..|log| - 1], log[|log| - 1];
      && GoodLog(before) && Admissible(before, row)
      && (!Closed(before) ==> row.CorrectionRow? && row.cor.replacement == Some(before[|before| - 1].shift))
  }

  lemma GoodLogGrows(log: Log, row: Row)
    requires GoodLog(log) && Admissible(log, row)
    requires !Closed(log) ==> row.CorrectionRow? && row.cor.replacement == Some(log[|log| - 1].shift)
    ensures GoodLog(log + [row])
  {
    assert (log + [row])[..|log|] == log;
  }
}
