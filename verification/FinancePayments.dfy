/**
 * Payment creation and reversal as the service runs them: lock, re-read, check, insert,
 * with other sessions free to run before every statement. Each run is a run of the
 * interleaved model, so everything proved of the model holds of it.
 */
module FinancePayments {
  import opened Basics
  import opened Ledger
  import opened Locks
  import opened Sessions
  import opened FinanceDatabase
  import PaymentSummary

  /** The projection a replay answers with, or the failure it reports. */
  method Replay(db: Database, t: TxId, p: Payment) returns (outcome: Outcome)
    requires db.Follows(t) && db.Record(t).req == CreatePayment(p) && db.Record(t).pc == 11
    modifies db
    ensures db.Ended(t, CreatePayment(p), outcome) && db.start == old(db.start) && db.given == old(db.given)
  {
    hide Play, Alike, SummaryOf, OthersOnly, Database.Traced;
    db.Others(t);
    match SummaryOf(db.log, p.agreement) {
      case Ok(_) => outcome := Replayed;
      case Err(e) => outcome := SummaryFailed(e);
    }
    db.Finish(t, outcome);
  }

  /** SELECT ... FOR SHARE of the agreement: it must be found when its lock is granted. */
  method LockAgreement(db: Database, t: TxId, p: Payment) returns (outcome: Option<Outcome>, since: Instant, granted: bool)
    requires db.Follows(t) && db.Record(t).req == CreatePayment(p) && db.Record(t).pc == 2
    modifies db
    ensures granted ==> outcome.None? && db.Follows(t)
    ensures granted ==> db.Record(t).req == CreatePayment(p) && db.Record(t).pc == 3 && db.Record(t).known.since == since
    ensures db.start == old(db.start) && db.given == old(db.given)
    ensures outcome.Some? ==> db.Ended(t, CreatePayment(p), outcome.value)
    ensures !granted && outcome.None? ==> db.Stuck(t, CreatePayment(p))
  {
    outcome, since, granted := None, 0, false;
    var lock := Shared(RowOfAgreement(p.agreement));
    db.Others(t);
    while true
      invariant db.Follows(t) && db.Record(t) == old(db.Record(t)) && db.start == old(db.start) && db.given == old(db.given) && outcome.None? && !granted
      decreases |db.schedule|
    {
      var found := FindAgreement(db.log, p.agreement);
      if found.None? {
        outcome := Some(NotFound);
        db.Finish(t, NotFound);
        return;
      }
      if Grantable(db.txs, t, lock) {
        since, granted := found.value.occurredAt, true;
        ghost var tx := db.Record(t);
        db.Grant(t, lock, tx.(pc := 3, known := tx.known.(since := since)));
        return;
      }
      if |db.schedule| == 0 { return; }
      db.Others(t);
    }
  }

  /** The insert, the summary answered with it, and the commit. */
  method InsertPayment(db: Database, t: TxId, p: Payment) returns (outcome: Outcome)
    requires db.Follows(t) && db.Record(t).req == CreatePayment(p) && db.Record(t).pc == 8
    modifies db
    ensures db.Ended(t, CreatePayment(p), outcome) && db.start == old(db.start) && db.given == old(db.given)
  {
    hide Play, Alike, SummaryOf, FindPayment, FindReversal, FindReversalOf, Grantable, OthersOnly, Database.Traced;
    db.Others(t);
    if p.id in db.foreign || FindPayment(db.log, p.id).Some? {
      db.Finish(t, IdConflict);
      return IdConflict;
    }
    var inserted := [PaymentRow(p)];
    db.Advance(t, db.Record(t).(pc := 9, pending := inserted));
    db.Others(t);
    match SummaryOf(db.log + inserted, p.agreement) {
      case Err(e) =>
        db.Finish(t, SummaryFailed(e));
        return SummaryFailed(e);
      case Ok(_) =>
    }
    db.Advance(t, db.Record(t).(pc := 10));
    db.Others(t);
    db.Commit(t, inserted);
    return Created;
  }

  /** Time window and balance, under the participant's lock. */
  method CheckBalance(db: Database, t: TxId, p: Payment, since: Instant, agreed: nat) returns (outcome: Outcome)
    requires db.Follows(t) && db.Record(t).req == CreatePayment(p) && db.Record(t).pc == 6
    requires db.Record(t).known.since == since && db.Record(t).known.agreed == agreed
    modifies db
    ensures db.Ended(t, CreatePayment(p), outcome) && db.start == old(db.start) && db.given == old(db.given)
  {
    hide Play, Alike, SummaryOf, FindPayment, FindVoidOf, Grantable, OthersOnly, Database.Traced;
    db.Others(t);
    if p.occurredAt < since || p.occurredAt > db.clock {
      db.Finish(t, TimeInvalid);
      return TimeInvalid;
    }
    db.Advance(t, db.Record(t).(pc := 7));
    db.Others(t);
    var paid := Paid(db.log, p.agreement, p.member);
    if paid + p.amount > agreed {
      db.Finish(t, ExceedsPending);
      return ExceedsPending;
    }
    db.Advance(t, db.Record(t).(pc := 8));
    outcome := InsertPayment(db, t, p);
  }

  /** From the void check to the participant's lock. */
  method Participant(db: Database, t: TxId, p: Payment, since: Instant) returns (outcome: Option<Outcome>)
    requires db.Follows(t) && db.Record(t).req == CreatePayment(p) && db.Record(t).pc == 3 && db.Record(t).known.since == since
    modifies db
    ensures db.start == old(db.start) && db.given == old(db.given)
    ensures outcome.Some? ==> db.Ended(t, CreatePayment(p), outcome.value)
    ensures outcome.None? ==> db.Stuck(t, CreatePayment(p))
  {
    hide Play, Alike, SummaryOf, FindPayment, FindVoidOf, Grantable, OthersOnly, Database.Traced;
    db.Others(t);
    if FindVoidOf(db.log, p.agreement).Some? {
      db.Finish(t, AgreementIsVoided);
      return Some(AgreementIsVoided);
    }
    db.Advance(t, db.Record(t).(pc := 4));
    db.Others(t);
    var agreement := FindAgreement(db.log, p.agreement);
    var participant := if agreement.Some? then FindParticipant(agreement.value.participants, p.member) else None;
    if participant.None? {
      db.Finish(t, NotFound);
      return Some(NotFound);
    }
    var agreed := participant.value.total;
    if agreed == 0 {
      db.Finish(t, NothingAgreed);
      return Some(NothingAgreed);
    }
    db.Advance(t, db.Record(t).(pc := 5, known := db.Record(t).known.(agreed := agreed)));
    db.Others(t);
    var granted := db.TakeLock(t, Exclusive(RowOfParticipant(p.agreement, p.member)), db.Record(t).(pc := 6));
    if !granted { return None; }
    var r := CheckBalance(db, t, p, since, agreed);
    return Some(r);
  }

  /**
   * The whole creation, from BEGIN. It ends with the outcome the model gives after the
   * same interleaving, or is still waiting for a lock when the schedule runs out.
   */
  method Create(db: Database, t: TxId, p: Payment) returns (outcome: Option<Outcome>)
    requires t !in db.txs && t !in db.done && p.amount > 0
    requires forall i :: 0 <= i < |db.schedule| ==> OthersOnly(db.schedule[i], t)
    modifies db
    ensures db.start == old(db.View()) && db.given == Flat(old(db.schedule))
    ensures outcome.Some? ==> db.Ended(t, CreatePayment(p), outcome.value)
    ensures outcome.None? ==> db.Stuck(t, CreatePayment(p))
  {
    hide Play, Alike, Grantable, Database.Traced, Flat, SummaryOf, FindPayment;
    var req := CreatePayment(p);
    db.Begin(t, req);
    var granted := db.TakeAll(t, [PaymentIdentity(p.id)], 1);
    if !granted { return None; }
    db.Others(t);
    var existing := FindPayment(db.log, p.id);
    if existing.Some? {
      if existing.value.pay != p {
        db.Finish(t, IdConflict);
        return Some(IdConflict);
      }
      db.Advance(t, db.Record(t).(pc := 11));
      var r := Replay(db, t, p);
      return Some(r);
    }
    db.Advance(t, db.Record(t).(pc := 2));
    var since;
    outcome, since, granted := LockAgreement(db, t, p);
    if granted { outcome := Participant(db, t, p, since); }
  }

  // ----- reversal ----------------------------------------------------------------------------------

  method ReplayReversal(db: Database, t: TxId, r: Reversal) returns (outcome: Outcome)
    requires db.Follows(t) && db.Record(t).req == ReversePayment(r) && db.Record(t).pc == 10
    modifies db
    ensures db.Ended(t, ReversePayment(r), outcome) && db.start == old(db.start) && db.given == old(db.given)
  {
    hide Play, Alike, SummaryOf, FindPayment, OthersOnly, Database.Traced;
    db.Others(t);
    var payment := FindPayment(db.log, r.payment);
    outcome := NotFound;
    if payment.Some? {
      match SummaryOf(db.log, payment.value.pay.agreement) {
        case Ok(_) => outcome := Replayed;
        case Err(e) => outcome := SummaryFailed(e);
      }
    }
    db.Finish(t, outcome);
  }

  method InsertReversal(db: Database, t: TxId, r: Reversal, p: Payment) returns (outcome: Outcome)
    requires db.Follows(t) && db.Record(t).req == ReversePayment(r) && db.Record(t).pc == 7 && db.Record(t).known.payment == Some(p)
    modifies db
    ensures db.Ended(t, ReversePayment(r), outcome) && db.start == old(db.start) && db.given == old(db.given)
  {
    hide Play, Alike, SummaryOf, FindPayment, FindReversal, FindReversalOf, Grantable, OthersOnly, Database.Traced;
    db.Others(t);
    if r.id == r.payment {
      db.Finish(t, CheckFailed);
      return CheckFailed;
    }
    if r.id in db.foreign || FindReversal(db.log, r.id).Some? || FindReversalOf(db.log, r.payment).Some? {
      db.Finish(t, IdConflict);
      return IdConflict;
    }
    var inserted := [ReversalRow(r)];
    db.Advance(t, db.Record(t).(pc := 8, pending := inserted));
    db.Others(t);
    match SummaryOf(db.log + inserted, p.agreement) {
      case Err(e) =>
        db.Finish(t, SummaryFailed(e));
        return SummaryFailed(e);
      case Ok(_) =>
    }
    db.Advance(t, db.Record(t).(pc := 9));
    db.Others(t);
    db.Commit(t, inserted);
    return Created;
  }

  /** The participant first, then the payment: the same order as a creation. */
  method LockAndReverse(db: Database, t: TxId, r: Reversal, p: Payment) returns (outcome: Option<Outcome>)
    requires db.Follows(t) && db.Record(t).req == ReversePayment(r) && db.Record(t).pc == 3 && db.Record(t).known.payment == Some(p)
    modifies db
    ensures db.start == old(db.start) && db.given == old(db.given)
    ensures outcome.Some? ==> db.Ended(t, ReversePayment(r), outcome.value)
    ensures outcome.None? ==> db.Stuck(t, ReversePayment(r))
  {
    hide Play, Alike, SummaryOf, FindPayment, FindReversal, FindReversalOf, Grantable, OthersOnly, Database.Traced;
    db.Others(t);
    var granted := db.TakeLock(t, Exclusive(RowOfParticipant(p.agreement, p.member)), db.Record(t).(pc := 4));
    if !granted { return None; }
    db.Others(t);
    granted := db.TakeLock(t, Exclusive(RowOfPayment(r.payment)), db.Record(t).(pc := 5));
    if !granted { return None; }
    db.Others(t);
    if FindReversalOf(db.log, r.payment).Some? {
      db.Finish(t, AlreadyReversed);
      return Some(AlreadyReversed);
    }
    db.Advance(t, db.Record(t).(pc := 6));
    db.Others(t);
    if r.occurredAt < p.occurredAt || r.occurredAt > db.clock {
      db.Finish(t, TimeInvalid);
      return Some(TimeInvalid);
    }
    db.Advance(t, db.Record(t).(pc := 7));
    var o := InsertReversal(db, t, r, p);
    return Some(o);
  }

  /** The whole reversal, from BEGIN. */
  method Reverse(db: Database, t: TxId, r: Reversal) returns (outcome: Option<Outcome>)
    requires t !in db.txs && t !in db.done
    requires forall i :: 0 <= i < |db.schedule| ==> OthersOnly(db.schedule[i], t)
    modifies db
    ensures db.start == old(db.View()) && db.given == Flat(old(db.schedule))
    ensures outcome.Some? ==> db.Ended(t, ReversePayment(r), outcome.value)
    ensures outcome.None? ==> db.Stuck(t, ReversePayment(r))
  {
    hide Play, Alike, Grantable, Database.Traced, Flat, SummaryOf, FindPayment, FindReversal;
    var req := ReversePayment(r);
    db.Begin(t, req);
    var granted := db.TakeAll(t, [ReversalIdentity(r.id)], 1);
    if !granted { return None; }
    db.Others(t);
    var existing := FindReversal(db.log, r.id);
    if existing.Some? {
      if existing.value.rev != r {
        db.Finish(t, IdConflict);
        return Some(IdConflict);
      }
      db.Advance(t, db.Record(t).(pc := 10));
      var o := ReplayReversal(db, t, r);
      return Some(o);
    }
    db.Advance(t, db.Record(t).(pc := 2));
    db.Others(t);
    var payment := FindPayment(db.log, r.payment);
    if payment.None? {
      db.Finish(t, NotFound);
      return Some(NotFound);
    }
    var p := payment.value.pay;
    db.Advance(t, db.Record(t).(pc := 3, known := db.Record(t).known.(payment := Some(p))));
    outcome := LockAndReverse(db, t, r, p);
  }
}
