/** Agreement voiding as the service runs it, over the shared database. */
module FinanceVoiding {
  import opened Basics
  import opened Ledger
  import opened Locks
  import opened Sessions
  import opened FinanceDatabase

  /** SELECT ... FOR UPDATE of the agreement: it must be found when its lock is granted. */
  method LockAgreement(db: Database, t: TxId, v: Void) returns (outcome: Option<Outcome>, since: Instant, granted: bool)
    requires db.Follows(t) && db.Record(t).req == VoidAgreement(v) && db.Record(t).pc == 2
    modifies db
    ensures granted ==> outcome.None? && db.Follows(t)
    ensures granted ==> db.Record(t).req == VoidAgreement(v) && db.Record(t).pc == 3 && db.Record(t).known.since == since
    ensures db.start == old(db.start) && db.given == old(db.given)
    ensures outcome.Some? ==> db.Ended(t, VoidAgreement(v), outcome.value)
    ensures !granted && outcome.None? ==> db.Stuck(t, VoidAgreement(v))
  {
    hide Play, Alike, FindVoid, FindVoidOf, OthersOnly, Database.Traced;
    outcome, since, granted := None, 0, false;
    var lock := Exclusive(RowOfAgreement(v.agreement));
    db.Others(t);
    while true
      invariant db.Follows(t) && db.Record(t) == old(db.Record(t)) && db.start == old(db.start) && db.given == old(db.given) && outcome.None? && !granted
      decreases |db.schedule|
    {
      var found := FindAgreement(db.log, v.agreement);
      if found.None? {
        outcome := Some(NotFound);
        db.Finish(t, NotFound);
        return;
      }
      if Grantable(db.txs, t, lock) {
        since, granted := found.value.occurredAt, true;
        ghost var tx := db.Record(t);
        db.Grant(t, lock, tx.(pc := 3, known := tx.known.(since := since)));
        return;
      }
      if |db.schedule| == 0 { return; }
      db.Others(t);
    }
  }

  method CheckAndInsert(db: Database, t: TxId, v: Void, since: Instant) returns (outcome: Outcome)
    requires db.Follows(t) && db.Record(t).req == VoidAgreement(v) && db.Record(t).pc == 3 && db.Record(t).known.since == since
    modifies db
    ensures db.Ended(t, VoidAgreement(v), outcome) && db.start == old(db.start) && db.given == old(db.given)
  {
    hide Play, Alike, FindVoid, FindVoidOf, OthersOnly, Database.Traced;
    db.Others(t);
    if FindVoidOf(db.log, v.agreement).Some? {
      db.Finish(t, AlreadyReversed);
      return AlreadyReversed;
    }
    db.Advance(t, db.Record(t).(pc := 4));
    db.Others(t);
    if v.occurredAt < since || v.occurredAt > db.clock {
      db.Finish(t, TimeInvalid);
      return TimeInvalid;
    }
    db.Advance(t, db.Record(t).(pc := 5));
    db.Others(t);
    if v.id in db.foreign || FindVoid(db.log, v.id).Some? || FindVoidOf(db.log, v.agreement).Some? {
      db.Finish(t, NotFound);
      return NotFound;
    }
    var inserted := [VoidRow(v)];
    db.Advance(t, db.Record(t).(pc := 6, pending := inserted));
    db.Others(t);
    db.Commit(t, inserted);
    return Created;
  }

  /** The whole void, from BEGIN: both identities in order, then the agreement row. */
  method Reverse(db: Database, t: TxId, v: Void) returns (outcome: Option<Outcome>)
    requires t !in db.txs && t !in db.done && v.id != v.agreement
    requires forall i :: 0 <= i < |db.schedule| ==> OthersOnly(db.schedule[i], t)
    modifies db
    ensures db.start == old(db.View()) && db.given == Flat(old(db.schedule))
    ensures outcome.Some? ==> db.Ended(t, VoidAgreement(v), outcome.value)
    ensures outcome.None? ==> db.Stuck(t, VoidAgreement(v))
  {
    hide Play, Alike, Grantable, Database.Traced, Flat, FindVoid, IdentityKeys;
    db.Begin(t, VoidAgreement(v));
    var granted := db.TakeAll(t, IdentityKeys(VoidAgreement(v)), 1);
    if !granted { return None; }
    db.Others(t);
    var existing := FindVoid(db.log, v.id);
    if existing.Some? {
      var o := if existing.value.void == v then Replayed else IdConflict;
      db.Finish(t, o);
      return Some(o);
    }
    db.Advance(t, db.Record(t).(pc := 2));
    var since;
    outcome, since, granted := LockAgreement(db, t, v);
    if granted {
      var o := CheckAndInsert(db, t, v, since);
      outcome := Some(o);
    }
  }
}
