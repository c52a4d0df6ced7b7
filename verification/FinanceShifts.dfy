/** Work-shift creation and correction as the service runs them, over the shared database. */
module FinanceShifts {
  import opened Basics
  import opened Ledger
  import opened Locks
  import opened Sessions
  import opened FinanceDatabase

  /** Count, insert and commit, under the day's lock. */
  method CountAndInsert(db: Database, t: TxId, s: Shift) returns (outcome: Outcome)
    requires db.Follows(t) && db.Record(t).req == CreateShift(s) && db.Record(t).pc == 4
    modifies db
    ensures db.Ended(t, CreateShift(s), outcome) && db.start == old(db.start) && db.given == old(db.given)
  {
    hide Play, Alike, FindShift, Work, OthersOnly, Database.Traced;
    db.Others(t);
    var others := Work(db.log, DayOf(s.member, s.day)).Count();
    db.Advance(t, db.Record(t).(pc := 5, known := db.Record(t).known.(others := others)));
    db.Others(t);
    if s.id in db.foreign || FindShift(db.log, s.id).Some? {
      db.Finish(t, IdConflict);
      return IdConflict;
    }
    var inserted := [ShiftRow(s, Direct, others)];
    db.Advance(t, db.Record(t).(pc := 6, pending := inserted));
    db.Others(t);
    db.Commit(t, inserted);
    return Created;
  }

  /** The whole creation, from BEGIN: identity, then the day. */
  method Create(db: Database, t: TxId, s: Shift) returns (outcome: Option<Outcome>)
    requires t !in db.txs && t !in db.done
    requires forall i :: 0 <= i < |db.schedule| ==> OthersOnly(db.schedule[i], t)
    modifies db
    ensures db.start == old(db.View()) && db.given == Flat(old(db.schedule))
    ensures outcome.Some? ==> db.Ended(t, CreateShift(s), outcome.value)
    ensures outcome.None? ==> db.Stuck(t, CreateShift(s))
  {
    hide Play, Alike, FindShift, FindCorrection, Grantable, Database.Traced, Flat;
    db.Begin(t, CreateShift(s));
    var granted := db.TakeAll(t, [ShiftIdentity(s.id)], 1);
    if !granted { return None; }
    db.Others(t);
    var existing := FindShift(db.log, s.id);
    if existing.Some? {
      var o := if existing.value.shift == s && existing.value.source == Direct then Replayed else IdConflict;
      db.Finish(t, o);
      return Some(o);
    }
    db.Advance(t, db.Record(t).(pc := 2));
    db.Others(t);
    if FindCorrection(db.log, s.id).Some? {
      db.Finish(t, IdConflict);
      return Some(IdConflict);
    }
    db.Advance(t, db.Record(t).(pc := 3));
    db.Others(t);
    granted := db.TakeLock(t, Exclusive(DayKey(s)), db.Record(t).(pc := 4));
    if !granted { return None; }
    var o := CountAndInsert(db, t, s);
    return Some(o);
  }

  /** The correction row and the commit, with the replacement inserted before it. */
  method InsertCorrection(db: Database, t: TxId, c: Correction, inserted: Log) returns (outcome: Outcome)
    requires db.Follows(t) && db.Record(t).req == CorrectShift(c) && db.Record(t).pc == 9 && db.Record(t).pending == inserted
    modifies db
    ensures db.Ended(t, CorrectShift(c), outcome) && db.start == old(db.start) && db.given == old(db.given)
  {
    hide Play, Alike, FindShift, FindCorrection, FindCorrectionOf, OthersOnly, Database.Traced;
    db.Others(t);
    if c.id in db.foreign || FindCorrection(db.log, c.id).Some? || FindCorrectionOf(db.log, c.shift).Some? {
      db.Finish(t, IdConflict);
      return IdConflict;
    }
    var rows := inserted + [CorrectionRow(c)];
    db.Advance(t, db.Record(t).(pc := 10, pending := rows));
    db.Others(t);
    db.Commit(t, rows);
    return Created;
  }

  /** The replacement: its id must be free among shifts and corrections; its day is counted without the corrected shift. */
  method InsertReplacement(db: Database, t: TxId, c: Correction, s: Shift) returns (outcome: Outcome)
    requires db.Follows(t) && db.Record(t).req == CorrectShift(c) && db.Record(t).pc == 5 && c.replacement == Some(s) && db.Record(t).pending == []
    modifies db
    ensures db.Ended(t, CorrectShift(c), outcome) && db.start == old(db.start) && db.given == old(db.given)
  {
    hide Play, Alike, FindShift, FindCorrection, FindCorrectionOf, WorkWithout, OthersOnly, Database.Traced;
    db.Others(t);
    if FindShift(db.log, s.id).Some? {
      db.Finish(t, IdConflict);
      return IdConflict;
    }
    db.Advance(t, db.Record(t).(pc := 6));
    db.Others(t);
    if FindCorrection(db.log, s.id).Some? {
      db.Finish(t, IdConflict);
      return IdConflict;
    }
    db.Advance(t, db.Record(t).(pc := 7));
    db.Others(t);
    var others := WorkWithout(db.log, DayOf(s.member, s.day), CorrectedIn(db.log) + {c.shift}).Count();
    db.Advance(t, db.Record(t).(pc := 8, known := db.Record(t).known.(others := others)));
    db.Others(t);
    if s.id in db.foreign || FindShift(db.log, s.id).Some? {
      db.Finish(t, IdConflict);
      return IdConflict;
    }
    var inserted := [ShiftRow(s, ReplacementOf(c.id), others)];
    db.Advance(t, db.Record(t).(pc := 9, pending := inserted));
    outcome := InsertCorrection(db, t, c, inserted);
  }

  /** The days of the original and of the replacement, in order; then the inserts. */
  method LockDaysAndInsert(db: Database, t: TxId, c: Correction, original: Shift) returns (outcome: Option<Outcome>)
    requires db.Follows(t) && db.Record(t).req == CorrectShift(c) && db.Record(t).pc == 4
    requires db.Record(t).queue == DayKeys(original, c) && db.Record(t).pending == []
    modifies db
    ensures db.start == old(db.start) && db.given == old(db.given)
    ensures outcome.Some? ==> db.Ended(t, CorrectShift(c), outcome.value)
    ensures outcome.None? ==> db.Stuck(t, CorrectShift(c))
  {
    hide Play, Alike, FindShift, FindCorrection, FindCorrectionOf, WorkWithout, OthersOnly, DayKeys;
    var granted := db.TakeAll(t, DayKeys(original, c), 5);
    if !granted { return None; }
    match c.replacement {
      case Some(s) =>
        var o := InsertReplacement(db, t, c, s);
        return Some(o);
      case None =>
        db.Others(t);
        db.Advance(t, db.Record(t).(pc := 9));
        var o := InsertCorrection(db, t, c, []);
        return Some(o);
    }
  }

  /** The whole correction, from BEGIN: every identity in order, then every day in order. */
  method Reverse(db: Database, t: TxId, c: Correction) returns (outcome: Option<Outcome>)
    requires t !in db.txs && t !in db.done && Accepted(CorrectShift(c))
    requires forall i :: 0 <= i < |db.schedule| ==> OthersOnly(db.schedule[i], t)
    modifies db
    ensures db.start == old(db.View()) && db.given == Flat(old(db.schedule))
    ensures outcome.Some? ==> db.Ended(t, CorrectShift(c), outcome.value)
    ensures outcome.None? ==> db.Stuck(t, CorrectShift(c))
  {
    hide Play, Alike, FindShift, FindCorrection, FindCorrectionOf, WorkWithout, IdentityKeys, DayKeys, Grantable, Database.Traced, Flat;
    db.Begin(t, CorrectShift(c));
    var granted := db.TakeAll(t, IdentityKeys(CorrectShift(c)), 1);
    if !granted { return None; }
    db.Others(t);
    var existing := FindCorrection(db.log, c.id);
    if existing.Some? {
      var o := if existing.value.cor == c then Replayed else IdConflict;
      db.Finish(t, o);
      return Some(o);
    }
    db.Advance(t, db.Record(t).(pc := 2));
    db.Others(t);
    if FindShift(db.log, c.id).Some? {
      db.Finish(t, IdConflict);
      return Some(IdConflict);
    }
    db.Advance(t, db.Record(t).(pc := 3));
    db.Others(t);
    var original := FindShift(db.log, c.shift);
    if original.None? {
      db.Finish(t, NotFound);
      return Some(NotFound);
    }
    if FindCorrectionOf(db.log, c.shift).Some? {
      db.Finish(t, AlreadyReversed);
      return Some(AlreadyReversed);
    }
    var shift := original.value.shift;
    db.Advance(t, db.Record(t).(pc := 4, queue := DayKeys(shift, c), known := db.Record(t).known.(original := Some(shift))));
    outcome := LockDaysAndInsert(db, t, c, shift);
  }
}
