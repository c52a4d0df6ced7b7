/** What every good log guarantees, whoever wrote it and in whatever interleaving. */
module LedgerFacts {
  import opened Basics
  import opened Ledger
  import P = PaymentSummary

  // ----- sums when the log grows -----------------------------------------------------------

  lemma PaidWithoutAppend(log: Log, row: Row, a: Id, m: Id, gone: set<Id>)
    ensures PaidWithout(log + [row], a, m, gone)
         == PaidWithout(log, a, m, gone) + if PaysTo(row, a, m) && row.pay.id !in gone then row.pay.amount else 0
  {
    assert (log + [row])[..|log|] == log;
  }

  lemma WorkWithoutAppend(log: Log, row: Row, scope: Scope, gone: set<Id>)
    ensures WorkWithout(log + [row], scope, gone)
         == WorkWithout(log, scope, gone).Plus(if row.ShiftRow? && row.shift.id !in gone then Weight(row.shift, scope) else ZERO)
  {
    assert (log + [row])[..|log|] == log;
  }

  lemma ReversedAppend(log: Log, row: Row)
    ensures row.ReversalRow? ==> ReversedIn(log + [row]) == ReversedIn(log) + {row.rev.payment}
    ensures !row.ReversalRow? ==> ReversedIn(log + [row]) == ReversedIn(log)
  {
    var next := log + [row];
    forall id ensures id in ReversedIn(next) <==> id in ReversedIn(log) || (row.ReversalRow? && id == row.rev.payment) {
      if id in ReversedIn(log) {
        var r :| r in log && r.ReversalRow? && r.rev.payment == id;
        assert r in next;
      }
      if row.ReversalRow? { assert row in next; }
    }
  }

  lemma CorrectedAppend(log: Log, row: Row)
    ensures row.CorrectionRow? ==> CorrectedIn(log + [row]) == CorrectedIn(log) + {row.cor.shift}
    ensures !row.CorrectionRow? ==> CorrectedIn(log + [row]) == CorrectedIn(log)
  {
    var next := log + [row];
    forall id ensures id in CorrectedIn(next) <==> id in CorrectedIn(log) || (row.CorrectionRow? && id == row.cor.shift) {
      if id in CorrectedIn(log) {
        var r :| r in log && r.CorrectionRow? && r.cor.shift == id;
        assert r in next;
      }
      if row.CorrectionRow? { assert row in next; }
    }
  }

  /** Leaving out a payment id nobody used changes nothing; leaving out a used one frees exactly that payment. */
  lemma {:induction false} PaidWithoutOne(log: Log, a: Id, m: Id, gone: set<Id>, p: Payment)
    requires p.id !in gone
    requires forall r :: r in log && r.PaymentRow? && r.pay.id == p.id ==> r.pay == p
    requires forall i, j :: 0 <= i < j < |log| && log[i].PaymentRow? && log[j].PaymentRow? ==> log[i].pay.id != log[j].pay.id
    ensures PaidWithout(log, a, m, gone)
         == PaidWithout(log, a, m, gone + {p.id}) + if PaymentRow(p) in log && p.agreement == a && p.member == m then p.amount else 0
  {
    if log != [] {
      var before, row := log[..|log| - 1], log[|log| - 1];
      assert log == before + [row];
      PaidWithoutOne(before, a, m, gone, p);
      if row.PaymentRow? && row.pay.id == p.id {
        assert PaymentRow(p) !in before;
      }
    }
  }

  ghost predicate DistinctShifts(log: Log) {
    forall i, j :: 0 <= i < j < |log| && log[i].ShiftRow? && log[j].ShiftRow? ==> log[i].shift.id != log[j].shift.id
  }

  ghost predicate OnlyShift(log: Log, s: Shift) {
    forall r :: r in log && r.ShiftRow? && r.shift.id == s.id ==> r.shift == s
  }

  lemma LastOfItsId(log: Log, s: Shift)
    requires DistinctShifts(log) && log != [] && log[|log| - 1].ShiftRow? && log[|log| - 1].shift.id == s.id
    ensures NoShift(log[..|log| - 1], s.id) && !NoShift(log, s.id)
  {
    var before := log[..|log| - 1];
    forall r | r in before && r.ShiftRow? ensures r.shift.id != s.id {
      var i :| 0 <= i < |before| && before[i] == r;
      assert log[i] == r;
    }
    assert log[|log| - 1] in log;
  }

  lemma {:induction false} WorkWithoutOne(log: Log, scope: Scope, gone: set<Id>, s: Shift)
    requires s.id !in gone
    requires DistinctShifts(log) && OnlyShift(log, s)
    ensures NoShift(log, s.id) ==> WorkWithout(log, scope, gone) == WorkWithout(log, scope, gone + {s.id})
    ensures !NoShift(log, s.id) ==> WorkWithout(log, scope, gone) == WorkWithout(log, scope, gone + {s.id}).Plus(Weight(s, scope))
  {
    if log != [] {
      var before, row := log[..|log| - 1], log[|log| - 1];
      assert log == before + [row];
      WorkWithoutOne(before, scope, gone, s);
      if row.ShiftRow? && row.shift.id == s.id {
        assert row in log && row.shift == s;
        LastOfItsId(log, s);
        hide DistinctShifts, OnlyShift;
      } else {
        assert NoShift(before, s.id) <==> NoShift(log, s.id);
        hide DistinctShifts, OnlyShift, NoShift;
      }
    }
  }

  // ----- a row never reappears -------------------------------------------------------------

  lemma {:induction false} PrefixGood(log: Log, n: nat)
    requires GoodLog(log) && n <= |log|
    ensures GoodLog(log[..n])
    ensures n < |log| ==> Admissible(log[..n], log[n])
    ensures 0 < n < |log| && !Closed(log[..n]) ==> log[n].CorrectionRow? && log[n].cor.replacement == Some(log[n - 1].shift)
    decreases |log|
  {
    if n < |log| {
      var before := log[..|log| - 1];
      PrefixGood(before, n);
      assert before[..n] == log[..n];
    } else {
      assert log[..n] == log;
    }
  }

  /**
   * Identities in a good log: payments, payment reversals, agreements and voids have
   * unique ids; a payment has at most one reversal and an agreement at most one void;
   * no payment is written after its agreement's void.
   */
  lemma RowsAreUnique(log: Log, i: nat, j: nat)
    requires GoodLog(log) && i < j < |log|
    ensures log[i].AgreementRow? && log[j].AgreementRow? ==> log[i].id != log[j].id
    ensures log[i].PaymentRow? && log[j].PaymentRow? ==> log[i].pay.id != log[j].pay.id
    ensures log[i].ReversalRow? && log[j].ReversalRow? ==>
              log[i].rev.id != log[j].rev.id && log[i].rev.payment != log[j].rev.payment
    ensures log[i].VoidRow? && log[j].VoidRow? ==>
              log[i].void.id != log[j].void.id && log[i].void.agreement != log[j].void.agreement
    ensures log[i].VoidRow? && log[j].PaymentRow? ==> log[i].void.agreement != log[j].pay.agreement
  {
    PrefixGood(log, j);
    assert log[i] in log[..j];
  }

  /**
   * Work-shift identities: shifts and corrections share one identity space without
   * collisions, a shift is corrected at most once, and a replacement shift belongs to
   * one correction.
   */
  lemma ShiftIdentities(log: Log, i: nat, j: nat)
    requires GoodLog(log) && i < j < |log|
    ensures log[i].ShiftRow? && log[j].ShiftRow? ==> log[i].shift.id != log[j].shift.id
    ensures log[i].CorrectionRow? && log[j].CorrectionRow? ==>
              log[i].cor.id != log[j].cor.id && log[i].cor.shift != log[j].cor.shift
    ensures log[i].ShiftRow? && log[j].CorrectionRow? ==> log[i].shift.id != log[j].cor.id
    ensures log[i].CorrectionRow? && log[j].ShiftRow? ==> log[i].cor.id != log[j].shift.id
    ensures log[i].CorrectionRow? && log[j].CorrectionRow? && log[i].cor.replacement.Some? && log[j].cor.replacement.Some? ==>
              log[i].cor.replacement.value.id != log[j].cor.replacement.value.id
  {
    PrefixGood(log, j);
    assert log[i] in log[..j];
    if log[i].CorrectionRow? && log[j].CorrectionRow? && log[i].cor.replacement.Some? && log[j].cor.replacement.Some? {
      PrefixGood(log, i);
      assert log[i - 1] == log[..i][i - 1] && log[j - 1] == log[..j][j - 1];
      PrefixGood(log, j - 1);
      assert log[i - 1] in log[..j - 1];
    }
  }

  lemma AgreementIsFixed(log: Log, a: Row, b: Row)
    requires GoodLog(log) && a in log && b in log && a.AgreementRow? && b.AgreementRow? && a.id == b.id
    ensures a == b
  {
    var i :| 0 <= i < |log| && log[i] == a;
    var j :| 0 <= j < |log| && log[j] == b;
    if i < j { RowsAreUnique(log, i, j); }
    if j < i { RowsAreUnique(log, j, i); }
  }

  lemma PaymentIsFixed(log: Log, p: Payment, q: Payment)
    requires GoodLog(log) && PaymentRow(p) in log && PaymentRow(q) in log && p.id == q.id
    ensures p == q
  {
    var i :| 0 <= i < |log| && log[i] == PaymentRow(p);
    var j :| 0 <= j < |log| && log[j] == PaymentRow(q);
    if i < j { RowsAreUnique(log, i, j); }
    if j < i { RowsAreUnique(log, j, i); }
  }

  lemma ShiftIsFixed(log: Log, a: Row, b: Row)
    requires GoodLog(log) && a in log && b in log && a.ShiftRow? && b.ShiftRow? && a.shift.id == b.shift.id
    ensures a == b
  {
    var i :| 0 <= i < |log| && log[i] == a;
    var j :| 0 <= j < |log| && log[j] == b;
    if i < j { ShiftIdentities(log, i, j); }
    if j < i { ShiftIdentities(log, j, i); }
  }

  // ----- money ------------------------------------------------------------------------------

  lemma {:induction false} UnusedIdsPayNothing(log: Log, a: Id, m: Id, gone: set<Id>, more: set<Id>)
    requires gone <= more
    ensures PaidWithout(log, a, m, more) <= PaidWithout(log, a, m, gone)
  {
    if log != [] { UnusedIdsPayNothing(log[..|log| - 1], a, m, gone, more); }
  }

  /** How one more row moves a participant's balance. */
  lemma PaidAppend(log: Log, row: Row, a: Id, m: Id)
    ensures row.ReversalRow? ==> Paid(log + [row], a, m) <= Paid(log, a, m)
    ensures !row.ReversalRow? && !PaysTo(row, a, m) ==> Paid(log + [row], a, m) == Paid(log, a, m)
    ensures PaysTo(row, a, m) ==> Paid(log + [row], a, m) <= Paid(log, a, m) + row.pay.amount
  {
    PaidWithoutAppend(log, row, a, m, ReversedIn(log + [row]));
    ReversedAppend(log, row);
    UnusedIdsPayNothing(log, a, m, ReversedIn(log), ReversedIn(log + [row]));
  }

  lemma {:induction false} NothingPaidYet(log: Log, a: Id, m: Id)
    requires GoodLog(log) && NoAgreement(log, a)
    ensures Paid(log, a, m) == 0
  {
    if log != [] {
      var before, row := log[..|log| - 1], log[|log| - 1];
      assert log == before + [row];
      NothingPaidYet(before, a, m);
      PaidAppend(before, row, a, m);
    }
  }

  /** Nobody is ever overpaid. */
  lemma {:induction false} NobodyOverpaid(log: Log, a: Row, p: Participant)
    requires GoodLog(log) && a in log && a.AgreementRow? && p in a.participants
    ensures Paid(log, a.id, p.member) <= p.total
  {
    var before, row := log[..|log| - 1], log[|log| - 1];
    assert log == before + [row];
    PaidAppend(before, row, a.id, p.member);
    if a in before {
      NobodyOverpaid(before, a, p);
      if PaysTo(row, a.id, p.member) {
        var g, t :| g in before && g.AgreementRow? && g.id == a.id && Participant(p.member, t) in g.participants
                    && Paid(before, a.id, p.member) + row.pay.amount <= t;
        AgreementIsFixed(log, a, g);
        OneParticipant(log, a, p, Participant(p.member, t));
      }
    } else {
      NothingPaidYet(before, a.id, p.member);
    }
  }

  lemma {:induction false} ParticipantsDistinct(log: Log, a: Row)
    requires GoodLog(log) && a in log && a.AgreementRow?
    ensures DistinctMembers(a.participants)
  {
    var before, row := log[..|log| - 1], log[|log| - 1];
    assert log == before + [row];
    if a in before { ParticipantsDistinct(before, a); }
  }

  lemma OneParticipant(log: Log, a: Row, p: Participant, q: Participant)
    requires GoodLog(log) && a in log && a.AgreementRow?
    requires p in a.participants && q in a.participants && p.member == q.member
    ensures p == q
  {
    ParticipantsDistinct(log, a);
  }

  /** So reading a summary never throws "overpaid", and its status tells the amounts. */
  lemma SummaryNeverOverpaid(log: Log, agreement: Id)
    requires GoodLog(log)
    ensures SummaryOf(log, agreement) != Err(P.Overpaid)
    ensures SummaryOf(log, agreement).Ok? ==>
              var s := SummaryOf(log, agreement).value;
              && (s.status == P.NotDue <==> s.agreed == 0)
              && (s.status == P.Paid <==> s.agreed > 0 && s.pending == 0)
              && (s.status == P.Unpaid <==> s.agreed > 0 && s.paid == 0)
              && (s.status == P.PartiallyPaid <==> 0 < s.paid < s.agreed)
  {
    match FindAgreement(log, agreement)
    case None =>
      assert P.WithinAgreed([]);
      P.ThrowsExactlyWhenOverpaid([]);
      if P.BuildSummary([]).Ok? { P.AggregateStatusMeansAmounts([]); }
    case Some(row) =>
      var lines := LinesOf(log, agreement, row.participants);
      forall i | 0 <= i < |lines| ensures 0 <= lines[i].paid <= lines[i].agreed {
        NobodyOverpaid(log, row, row.participants[i]);
      }
      P.ThrowsExactlyWhenOverpaid(lines);
      if P.BuildSummary(lines).Ok? { P.AggregateStatusMeansAmounts(lines); }
  }

  /** Money booked: payments written minus payments reversed. */
  ghost function Booked(log: Log, a: Id, m: Id): int {
    if log == [] then 0 else
      var before, row := log[..|log| - 1], log[|log| - 1];
      Booked(before, a, m)
      + (if PaysTo(row, a, m) then row.pay.amount else 0)
      - (if row.ReversalRow? then
           match FindPayment(before, row.rev.payment)
           case Some(p) => if PaysTo(p, a, m) then p.pay.amount else 0
           case None => 0
         else 0)
  }

  /** Conservation: a reversal returns exactly the amount of its payment, once. */
  lemma {:induction false} PaidIsBooked(log: Log, a: Id, m: Id)
    requires GoodLog(log)
    ensures Paid(log, a, m) == Booked(log, a, m)
  {
    if log != [] {
      var before, row := log[..|log| - 1], log[|log| - 1];
      assert log == before + [row];
      PaidIsBooked(before, a, m);
      PaidWithoutAppend(before, row, a, m, ReversedIn(log));
      ReversedAppend(before, row);
      if row.PaymentRow? {
        assert row.pay.id !in ReversedIn(log) by { ReversalsHaveTargets(before, row.pay.id); }
      }
      if row.ReversalRow? {
        var p := FindPayment(before, row.rev.payment).value.pay;
        forall r | r in before && r.PaymentRow? && r.pay.id == p.id ensures r.pay == p { PaymentIsFixed(before, r.pay, p); }
        forall i, j | 0 <= i < j < |before| && before[i].PaymentRow? && before[j].PaymentRow? ensures before[i].pay.id != before[j].pay.id {
          RowsAreUnique(before, i, j);
        }
        PaidWithoutOne(before, a, m, ReversedIn(before), p);
      }
    }
  }

  /** Payments written, and those of them not reversed since. */
  ghost function Counted(log: Log, a: Id, m: Id): (int, int) {
    if log == [] then (0, 0) else
      var before, row := log[..|log| - 1], log[|log| - 1];
      var (written, active) := Counted(before, a, m);
      if PaysTo(row, a, m) then (written + 1, active + 1)
      else if row.ReversalRow? && exists p :: p in before && PaysTo(p, a, m) && p.pay.id == row.rev.payment then (written, active - 1)
      else (written, active)
  }

  lemma RowsAppend(log: Log, row: Row, a: Id, m: Id, gone: set<Id>)
    ensures RowsOf(log + [row], a, m, gone) == RowsOf(log, a, m, gone) + if PaysTo(row, a, m) && row.pay.id !in gone then 1 else 0
  {
    assert (log + [row])[..|log|] == log;
  }

  lemma {:induction false} RowsWithoutOne(log: Log, a: Id, m: Id, gone: set<Id>, p: Payment)
    requires p.id !in gone
    requires forall r :: r in log && r.PaymentRow? && r.pay.id == p.id ==> r.pay == p
    requires forall i, j :: 0 <= i < j < |log| && log[i].PaymentRow? && log[j].PaymentRow? ==> log[i].pay.id != log[j].pay.id
    ensures RowsOf(log, a, m, gone)
         == RowsOf(log, a, m, gone + {p.id}) + if PaymentRow(p) in log && p.agreement == a && p.member == m then 1 else 0
  {
    if log != [] {
      var before, row := log[..|log| - 1], log[|log| - 1];
      assert log == before + [row];
      RowsWithoutOne(before, a, m, gone, p);
      if row.PaymentRow? && row.pay.id == p.id {
        assert PaymentRow(p) !in before;
      }
    }
  }

  /** A reversal leaves the written payments alone and takes one active payment away. */
  lemma {:induction false} RowsAreCounted(log: Log, a: Id, m: Id)
    requires GoodLog(log)
    ensures (RowsOf(log, a, m, {}), RowsOf(log, a, m, ReversedIn(log))) == Counted(log, a, m)
  {
    if log != [] {
      var before, row := log[..|log| - 1], log[|log| - 1];
      assert log == before + [row];
      RowsAreCounted(before, a, m);
      RowsAppend(before, row, a, m, {});
      RowsAppend(before, row, a, m, ReversedIn(log));
      ReversedAppend(before, row);
      if row.PaymentRow? {
        ReversalsHaveTargets(before, row.pay.id);
      }
      if row.ReversalRow? {
        var p := FindPayment(before, row.rev.payment).value.pay;
        forall r | r in before && r.PaymentRow? && r.pay.id == p.id ensures r.pay == p { PaymentIsFixed(before, r.pay, p); }
        forall i, j | 0 <= i < j < |before| && before[i].PaymentRow? && before[j].PaymentRow? ensures before[i].pay.id != before[j].pay.id {
          RowsAreUnique(before, i, j);
        }
        RowsWithoutOne(before, a, m, ReversedIn(before), p);
      }
    }
  }

  /** The lines a summary is built from: one per participant, with what the log booked and counted for it. */
  lemma {:induction false} LinesAreBooked(log: Log, agreement: Id, ps: seq<Participant>, i: nat)
    requires GoodLog(log) && i < |ps|
    ensures var (written, active) := Counted(log, agreement, ps[i].member);
            var l := LinesOf(log, agreement, ps)[i];
            && l.member == ps[i].member && l.agreed == ps[i].total && l.paid == Booked(log, agreement, ps[i].member)
            && l.payments == written && l.active == active
  {
    if i == 0 {
      PaidIsBooked(log, agreement, ps[0].member);
      RowsAreCounted(log, agreement, ps[0].member);
      hide Booked, Counted, RowsOf, Paid, ReversedIn;
    } else {
      LinesAreBooked(log, agreement, ps[1..], i - 1);
      assert LinesOf(log, agreement, ps)[i] == LinesOf(log, agreement, ps[1..])[i - 1];
    }
  }

  lemma {:induction false} ReversalsHaveTargets(log: Log, payment: Id)
    requires GoodLog(log) && NoPayment(log, payment)
    ensures payment !in ReversedIn(log)
  {
    if log != [] {
      var before, row := log[..|log| - 1], log[|log| - 1];
      assert log == before + [row];
      ReversalsHaveTargets(before, payment);
      ReversedAppend(before, row);
    }
  }

  // ----- work ----------------------------------------------------------------------------------

  lemma {:induction false} CorrectionsHaveTargets(log: Log, shift: Id)
    requires GoodLog(log) && NoShift(log, shift)
    ensures shift !in CorrectedIn(log)
  {
    if log != [] {
      var before, row := log[..|log| - 1], log[|log| - 1];
      assert log == before + [row];
      CorrectionsHaveTargets(before, shift);
      CorrectedAppend(before, row);
    }
  }

  lemma ShiftsAreDistinct(log: Log, s: Row)
    requires GoodLog(log) && s in log && s.ShiftRow?
    ensures DistinctShifts(log) && OnlyShift(log, s.shift)
  {
    forall i, j | 0 <= i < j < |log| && log[i].ShiftRow? && log[j].ShiftRow? ensures log[i].shift.id != log[j].shift.id {
      ShiftIdentities(log, i, j);
    }
    forall r | r in log && r.ShiftRow? && r.shift.id == s.shift.id ensures r.shift == s.shift {
      ShiftIsFixed(log, r, s);
    }
  }

  /** How one more row moves the active totals. */
  lemma WorkAppendShift(log: Log, row: Row, scope: Scope)
    requires GoodLog(log) && !row.CorrectionRow?
    requires row.ShiftRow? ==> NoShift(log, row.shift.id)
    ensures Work(log + [row], scope) == Work(log, scope).Plus(if row.ShiftRow? then Weight(row.shift, scope) else ZERO)
  {
    WorkWithoutAppend(log, row, scope, CorrectedIn(log));
    CorrectedAppend(log, row);
    if row.ShiftRow? { CorrectionsHaveTargets(log, row.shift.id); }
  }

  lemma WorkAppendCorrection(log: Log, row: Row, s: Shift, scope: Scope)
    requires DistinctShifts(log) && OnlyShift(log, s) && !NoShift(log, s.id)
    requires row.CorrectionRow? && row.cor.shift == s.id && NotCorrected(log, s.id)
    ensures Work(log + [row], scope) == Work(log, scope).Minus(Weight(s, scope))
  {
    var gone := CorrectedIn(log);
    assert s.id !in gone;
    CorrectedAppend(log, row);
    WorkWithoutAppend(log, row, scope, gone + {s.id});
    WorkWithoutOne(log, scope, gone, s);
  }

  /** `s` more: one shift inside the scope, its minutes if they are known, or one more unknown duration. */
  ghost predicate OneMore(was: Totals, now: Totals, s: Shift, member: Option<Id>, from: Option<Day>, to: Option<Day>) {
    if (member == None || member == Some(s.member)) && (from == None || from.value <= s.day) && (to == None || s.day < to.value) then
      && now.shifts == was.shifts + 1
      && (s.minutes.Some? ==> now.minutes == was.minutes + s.minutes.value && now.unknown == was.unknown)
      && (s.minutes.None? ==> now.minutes == was.minutes && now.unknown == was.unknown + 1)
    else now == was
  }

  /** Writing a shift counts it once in every scope it lies in, and in no other. */
  lemma ShiftCounts(log: Log, row: Row, member: Option<Id>, from: Option<Day>, to: Option<Day>)
    requires GoodLog(log) && row.ShiftRow? && NoShift(log, row.shift.id)
    ensures OneMore(Work(log, Scope(member, from, to)), Work(log + [row], Scope(member, from, to)), row.shift, member, from, to)
  {
    hide Work, GoodLog, NoShift;
    WorkAppendShift(log, row, Scope(member, from, to));
  }

  /** Correcting a shift takes exactly that back. */
  lemma CorrectionTakesBack(log: Log, row: Row, s: Row, member: Option<Id>, from: Option<Day>, to: Option<Day>)
    requires GoodLog(log) && s in log && s.ShiftRow?
    requires row.CorrectionRow? && row.cor.shift == s.shift.id && NotCorrected(log, s.shift.id)
    ensures OneMore(Work(log + [row], Scope(member, from, to)), Work(log, Scope(member, from, to)), s.shift, member, from, to)
  {
    ShiftsAreDistinct(log, s);
    assert !NoShift(log, s.shift.id);
    hide Work, GoodLog, NoShift, NotCorrected, OnlyShift, DistinctShifts;
    WorkAppendCorrection(log, row, s.shift, Scope(member, from, to));
  }

  /** Shifts written minus shifts corrected. */
  ghost function BookedWork(log: Log, scope: Scope): Totals {
    if log == [] then ZERO else
      var before, row := log[..|log| - 1], log[|log| - 1];
      if row.ShiftRow? then BookedWork(before, scope).Plus(Weight(row.shift, scope))
      else if row.CorrectionRow? then
        match FindShift(before, row.cor.shift)
        case Some(s) => BookedWork(before, scope).Minus(Weight(s.shift, scope))
        case None => BookedWork(before, scope)
      else BookedWork(before, scope)
  }

  /** The active totals are the fold of creations minus corrections, over any scope. */
  lemma {:induction false} WorkIsBooked(log: Log, scope: Scope)
    requires GoodLog(log)
    ensures Work(log, scope) == BookedWork(log, scope)
  {
    if log != [] {
      var before, row := log[..|log| - 1], log[|log| - 1];
      assert log == before + [row];
      WorkIsBooked(before, scope);
      if row.CorrectionRow? {
        var s := FindShift(before, row.cor.shift).value;
        ShiftsAreDistinct(before, s);
        WorkAppendCorrection(before, row, s.shift, scope);
      } else {
        WorkAppendShift(before, row, scope);
      }
    }
  }

  /** The log right after the commit that wrote row i: a replacement commits with its correction. */
  function AfterCommitOf(log: Log, i: nat): Log
    requires i < |log|
  {
    if log[i].ShiftRow? && log[i].source.ReplacementOf? && i + 1 < |log| then log[..i + 2] else log[..i + 1]
  }

  lemma ReplacementWarning(log: Log, i: nat)
    requires GoodLog(log) && Closed(log) && i < |log| && log[i].ShiftRow? && log[i].source.ReplacementOf?
    ensures i + 1 < |log| && log[i].others + 1 == Work(log[..i + 2], DayOf(log[i].shift.member, log[i].shift.day)).shifts
  {
    hide *;
    FollowedByCorrection(log, i);
    CorrectionCounts(log[..i + 1], log[i + 1]);
    assert log[..i + 1] + [log[i + 1]] == log[..i + 2];
  }

  lemma FollowedByCorrection(log: Log, i: nat)
    requires GoodLog(log) && Closed(log) && i < |log| && log[i].ShiftRow? && log[i].source.ReplacementOf?
    ensures i + 1 < |log| && log[i + 1].CorrectionRow? && log[i + 1].cor.replacement == Some(log[i].shift)
    ensures Admissible(log[..i + 1], log[i + 1])
  {
    assert i + 1 < |log|;
    assert log[..i + 1][i] == log[i] && !Closed(log[..i + 1]);
    hide GoodLog, Closed, Admissible;
    PrefixGood(log, i + 1);
  }

  /** The correction right after a replacement checks the count stored with it. */
  lemma CorrectionCounts(mid: Log, cor: Row)
    requires cor.CorrectionRow? && Admissible(mid, cor) && |mid| > 0 && mid[|mid| - 1].ShiftRow?
    requires cor.cor.replacement == Some(mid[|mid| - 1].shift)
    ensures var last := mid[|mid| - 1];
            last.others + 1 == Work(mid + [cor], DayOf(last.shift.member, last.shift.day)).shifts
  {
    hide Work;
    assert ReplacesLast(mid, cor.cor) && cor == CorrectionRow(cor.cor);
  }

  lemma DirectWarning(log: Log, row: Row)
    requires GoodLog(log) && Admissible(log, row) && row.ShiftRow? && row.source.Direct?
    ensures row.others + 1 == Work(log + [row], DayOf(row.shift.member, row.shift.day)).shifts
  {
    WorkAppendShift(log, row, DayOf(row.shift.member, row.shift.day));
    hide GoodLog, WorkWithout, Work;
  }

  /** The warning stored with a shift counts exactly the other active shifts of its member and day at its commit. */
  lemma WarningIsExact(log: Log, i: nat)
    requires GoodLog(log) && Closed(log) && i < |log| && log[i].ShiftRow?
    ensures log[i].others + 1 == Work(AfterCommitOf(log, i), DayOf(log[i].shift.member, log[i].shift.day)).shifts
  {
    hide GoodLog, Admissible, Closed, Work, WorkWithout;
    PrefixGood(log, i);
    if log[i].source.Direct? {
      DirectWarning(log[..i], log[i]);
      assert log[..i] + [log[i]] == log[..i + 1];
    } else {
      ReplacementWarning(log, i);
    }
  }
}
