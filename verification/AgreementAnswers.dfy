/**
 * What an agreement creation is answered when nothing else runs beside it: created exactly
 * when the ledger admits it and its id is free, and answered with the right refusal otherwise.
 */
module AgreementAnswers {
  import opened Basics
  import opened AgreementLedger
  import opened AgreementMoney
  import opened AgreementSessions
  import opened AgreementTheorems

  /** The row the next creation of a year would write. */
  function RowFor(s: State, req: Request): Row {
    Agreed(req, s.year, CountOfYear(s.log, s.year) + 1, |s.log|)
  }

  /** The checks on the snapshot, in the order of the code. */
  function Refused(log: Log, req: Request): Option<Outcome> {
    match FindAgreement(log, req.id)
    case Some(row) => Some(if row.req == req then Replayed else IdConflict)
    case None =>
      var available := AvailableIn(log, req.period);
      if !ReplacementValid(log, req.id, req.supersedes) then Some(ReplacementInvalid)
      else if req.amount > available then Some(ExceedsAvailable)
      else if req.amount > Free(available, Committed(log, req.period)) then Some(ExceedsUncommitted)
      else None
  }

  /** The end of a creation that nobody disturbs. */
  function Ended(s: State, t: TxId, req: Request): State {
    match Refused(s.log, req)
    case Some(outcome) => Closed(s, t, req, outcome)
    case None => if req.id in s.foreign then Closed(s, t, req, NotFound) else Written(s, t, req)
  }

  function Closed(s: State, t: TxId, req: Request, outcome: Outcome): State {
    s.(txs := map[], done := s.done[t := Done(req, outcome)])
  }

  function Written(s: State, t: TxId, req: Request): State {
    var number := NextNumber(s.counters, s.year);
    s.(txs := map[], done := s.done[t := Done(req, Created)],
       log := s.log + [Agreed(req, s.year, number, |s.log|)], counters := s.counters[s.year := number])
  }

  // ----- one attempt ---------------------------------------------------------------------------

  function Fresh(req: Request, attempt: nat): Tx { Tx(req, attempt, 0, 0, 0, 0) }

  /** Nothing happens for a transaction that has ended. */
  lemma {:induction false} Idle(s: State, t: TxId, n: nat)
    requires t !in s.txs
    ensures Play(s, Runs(t, n)) == s
    decreases n
  {
    if n > 0 {
      assert Runs(t, n)[1..] == Runs(t, n - 1);
      Idle(s, t, n - 1);
    }
  }

  lemma EndsIn(s: State, t: TxId, tx: Tx, n: nat, end: State)
    requires n > 0 && RunOne(At(s, t, tx), t) == end && t !in end.txs
    ensures Play(At(s, t, tx), Runs(t, n)) == end
  {
    OneRun(At(s, t, tx), t, n);
    Idle(end, t, n - 1);
  }

  /** Nobody but `t` is running. */
  predicate OnlyOne(s: State, t: TxId) { s.txs.Keys == {t} }

  lemma ReadsSnapshot(s: State, t: TxId, req: Request, k: nat, n: nat)
    requires OnlyOne(s, t) && n > 2
    ensures Play(At(s, t, Fresh(req, k)), Runs(t, n)) == Play(At(s, t, Fresh(req, k).(pc := 2, snap := |s.log|)), Runs(t, n - 2))
  {
    var one := Fresh(req, k).(pc := 1, snap := |s.log|);
    assert Next(At(s, t, Fresh(req, k)), t) == Goto(one);
    assert Next(At(s, t, one), t) == Goto(one.(pc := 2));
    hide Next, Play, Runs, At;
    StepTo(s, t, Fresh(req, k), one, n);
    StepTo(s, t, one, one.(pc := 2), n - 1);
  }

  lemma ClosesAt(s: State, t: TxId, tx: Tx, outcome: Outcome)
    requires OnlyOne(s, t) && Next(At(s, t, tx), t) == Finish(outcome)
    ensures RunOne(At(s, t, tx), t) == Closed(s, t, tx.req, outcome)
  {
    hide Next;
    assert s.txs[t := tx] - {t} == map[];
  }

  /** The checks of statements 3 to 5: the whole snapshot is the committed log. */
  lemma Checks(s: State, t: TxId, tx: Tx, n: nat)
    requires OnlyOne(s, t) && tx.pc == 2 && tx.snap == |s.log| && n > 3
    ensures match Refused(s.log, tx.req)
            case Some(outcome) => Play(At(s, t, tx), Runs(t, n)) == Closed(s, t, tx.req, outcome)
            case None => Play(At(s, t, tx), Runs(t, n)) == Play(At(s, t, tx.(pc := 5)), Runs(t, n - 3))
  {
    assert s.log[..|s.log|] == s.log;
    var three, four := tx.(pc := 3), tx.(pc := 4);
    var refused := Refused(s.log, tx.req);
    hide Play, Runs, Committed, AvailableIn, FindAgreement, ReplacementValid;
    if FindAgreement(s.log, tx.req.id).Some? {
      ClosesAt(s, t, tx, refused.value);
      EndsIn(s, t, tx, n, Closed(s, t, tx.req, refused.value));
    } else {
      StepTo(s, t, tx, three, n);
      if !ReplacementValid(s.log, tx.req.id, tx.req.supersedes) {
        ClosesAt(s, t, three, ReplacementInvalid);
        EndsIn(s, t, three, n - 1, Closed(s, t, tx.req, ReplacementInvalid));
      } else {
        StepTo(s, t, three, four, n - 1);
        MoneyCheck(s, t, four, n - 2);
      }
    }
  }

  lemma MoneyCheck(s: State, t: TxId, tx: Tx, n: nat)
    requires OnlyOne(s, t) && tx.pc == 4 && tx.snap == |s.log| && n > 1
    requires FindAgreement(s.log, tx.req.id).None? && ReplacementValid(s.log, tx.req.id, tx.req.supersedes)
    ensures match Refused(s.log, tx.req)
            case Some(outcome) => Play(At(s, t, tx), Runs(t, n)) == Closed(s, t, tx.req, outcome)
            case None => Play(At(s, t, tx), Runs(t, n)) == Play(At(s, t, tx.(pc := 5)), Runs(t, n - 1))
  {
    assert s.log[..|s.log|] == s.log;
    hide Play, Runs, Committed, AvailableIn, FindAgreement, ReplacementValid;
    match Refused(s.log, tx.req)
    case Some(outcome) =>
      ClosesAt(s, t, tx, outcome);
      EndsIn(s, t, tx, n, Closed(s, t, tx.req, outcome));
    case None => StepTo(s, t, tx, tx.(pc := 5), n);
  }

  /** Year and counter row: nobody took a number behind the snapshot. */
  lemma TakesNumber(s: State, t: TxId, tx: Tx, n: nat)
    requires OnlyOne(s, t) && tx.pc == 5 && tx.snap == |s.log| && n > 2
    ensures var number := NextNumber(s.counters, s.year);
            Play(At(s, t, tx), Runs(t, n)) == Play(At(s, t, tx.(pc := 7, year := s.year, number := number)), Runs(t, n - 2))
  {
    var six := tx.(pc := 6, year := s.year);
    var seven := six.(pc := 7, number := NextNumber(s.counters, s.year));
    assert s.log[|s.log|..] == [];
    assert Next(At(s, t, tx), t) == Goto(six) && Next(At(s, t, six), t) == Goto(seven);
    hide Next, Play, Runs, At;
    StepTo(s, t, tx, six, n);
    StepTo(s, t, six, seven, n - 1);
  }

  lemma Writes(s: State, t: TxId, tx: Tx, n: nat)
    requires OnlyOne(s, t) && tx.pc == 7 && tx.year == s.year && tx.number == NextNumber(s.counters, s.year) && tx.snap == |s.log| && n > 1
    requires Refused(s.log, tx.req).None? && tx.req.id !in s.foreign
    ensures Play(At(s, t, tx), Runs(t, n)) == Written(s, t, tx.req)
  {
    var eight := tx.(pc := 8);
    assert Next(At(s, t, tx), t) == Goto(eight);
    hide Play, Runs, Refused, NextNumber;
    StepTo(s, t, tx, eight, n);
    assert s.txs[t := eight] - {t} == map[];
    EndsIn(s, t, eight, n - 1, Written(s, t, tx.req));
  }

  /** An id held elsewhere is only seen by the insert: the unit starts over, and finally gives up. */
  lemma StartsOver(s: State, t: TxId, tx: Tx, n: nat)
    requires OnlyOne(s, t) && tx.pc == 7 && tx.req.id in s.foreign && n > 0
    ensures Play(At(s, t, tx), Runs(t, n)) ==
            if tx.attempt < MAX_CREATE_ATTEMPTS then Play(At(s, t, Fresh(tx.req, tx.attempt + 1)), Runs(t, n - 1))
            else Closed(s, t, tx.req, NotFound)
  {
    var here := At(s, t, tx);
    assert Next(here, t) == Retry(true);
    hide Play, Runs, Next;
    if tx.attempt < MAX_CREATE_ATTEMPTS {
      OneRun(here, t, n);
      assert RunOne(here, t) == At(s, t, Fresh(tx.req, tx.attempt + 1));
    } else {
      assert s.txs[t := tx] - {t} == map[];
      EndsIn(s, t, tx, n, Closed(s, t, tx.req, NotFound));
    }
  }

  lemma {:induction false} Attempts(s: State, t: TxId, req: Request, k: nat, n: nat)
    requires OnlyOne(s, t) && 1 <= k <= MAX_CREATE_ATTEMPTS && n >= 8 * (MAX_CREATE_ATTEMPTS - k) + 9
    ensures Play(At(s, t, Fresh(req, k)), Runs(t, n)) == Ended(s, t, req)
    decreases MAX_CREATE_ATTEMPTS - k
  {
    hide Play, Runs, At, Refused, NextNumber;
    ReadsSnapshot(s, t, req, k, n);
    var two := Fresh(req, k).(pc := 2, snap := |s.log|);
    Checks(s, t, two, n - 2);
    if Refused(s.log, req).None? {
      TakesNumber(s, t, two.(pc := 5), n - 5);
      var seven := two.(pc := 7, year := s.year, number := NextNumber(s.counters, s.year));
      if req.id in s.foreign {
        StartsOver(s, t, seven, n - 7);
        if k < MAX_CREATE_ATTEMPTS { Attempts(s, t, req, k + 1, n - 8); }
      } else {
        Writes(s, t, seven, n - 7);
      }
    }
  }

  // ----- the reason of every answer ----------------------------------------------------------

  /** Nothing, or an agreement of another id that is recorded, voided and not replaced yet. */
  ghost predicate Replaceable(log: Log, id: Id, supersedes: Option<Id>) {
    supersedes.Some? ==>
      var target := supersedes.value;
      target != id && !NoAgreement(log, target) && !NotVoided(log, target) && NotReplaced(log, target)
  }

  /** What is agreed and not voided leaves room for the amount. */
  ghost predicate Fits(log: Log, req: Request) {
    exists available :: LastAvailable(log, req.period, available) && Live(log, req.period) + req.amount <= available
  }

  ghost predicate CreationReason(s: State, req: Request, o: Outcome) {
    var log := s.log;
    var open := NoAgreement(log, req.id) && Replaceable(log, req.id, req.supersedes);
    match o
    case Created => open && Fits(log, req) && req.id !in s.foreign
    case NotFound => open && Fits(log, req) && req.id in s.foreign
    case Replayed => exists r :: r in log && r.Agreed? && r.req == req
    case IdConflict => exists r :: r in log && r.Agreed? && r.req.id == req.id && r.req != req
    case ReplacementInvalid => NoAgreement(log, req.id) && !Replaceable(log, req.id, req.supersedes)
    case ExceedsAvailable => open && exists available :: LastAvailable(log, req.period, available) && req.amount > available
    case ExceedsUncommitted =>
      open && exists available :: LastAvailable(log, req.period, available) && req.amount <= available
                                  && Live(log, req.period) + req.amount > available
    case _ => false
  }

  function AnswerOf(s: State, req: Request): Outcome {
    match Refused(s.log, req)
    case Some(outcome) => outcome
    case None => if req.id in s.foreign then NotFound else Created
  }

  lemma ReplaceableMeans(log: Log, id: Id, supersedes: Option<Id>)
    ensures ReplacementValid(log, id, supersedes) <==> Replaceable(log, id, supersedes)
  {
    hide FindAgreement;
  }

  /** The answer given is the one the ledger gives a reason for, and no other answer has a reason. */
  lemma AnswerHasItsReason(s: State, req: Request, o: Outcome)
    requires GoodLog(s.log) && req.amount >= 1
    ensures AnswerOf(s, req) == o <==> CreationReason(s, req, o)
  {
    hide GoodLog, Committed, AvailableIn, Live, LastAvailable, FindAgreement, ReplacementValid, Replaceable;
    ReplaceableMeans(s.log, req.id, req.supersedes);
    CommittedIsLive(s.log, req.period);
    LiveIsNotNegative(s.log, req.period);
    var available := AvailableIn(s.log, req.period);
    forall a ensures LastAvailable(s.log, req.period, a) <==> a == available { AvailableIsLast(s.log, req.period, a); }
    assert LastAvailable(s.log, req.period, available);
    var found := FindAgreement(s.log, req.id);
    if found.Some? {
      forall r | r in s.log && r.Agreed? && r.req.id == req.id ensures r == found.value { OneAgreement(s.log, r, found.value); }
      assert !NoAgreement(s.log, req.id);
    }
  }

  // ----- what the caller sees ---------------------------------------------------------------------

  /** Statements of five attempts, the last of them with its commit. */
  const ENOUGH: nat := 41

  /**
   * After any run that left nobody running, a creation that nobody disturbs ends, retries
   * included, and every answer is given exactly when the ledger holds its reason. Created:
   * its row alone is written, with the next number of the year. In every other case neither
   * a row nor a folio is taken.
   */
  lemma UndisturbedCreation(year: nat, actions: seq<Action>, t: TxId, req: Request)
    requires var s := Execute(year, actions); s.txs == map[] && t !in s.done && req.amount >= 1
    ensures var s := Execute(year, actions);
            var s' := Play(Apply(s, Begin(t, req)), Runs(t, ENOUGH));
            && s'.txs == map[] && t in s'.done && s'.done[t].req == req
            && (forall o :: s'.done[t].outcome == o <==> CreationReason(s, req, o))
            && (if s'.done[t].outcome == Created
                then s'.log == s.log + [RowFor(s, req)] && s'.counters == s.counters[s.year := CountOfYear(s.log, s.year) + 1]
                else s'.log == s.log && s'.counters == s.counters)
  {
    hide *;
    Reachable(year, actions);
    RunsToItsEnd(Execute(year, actions), t, req);
    UndisturbedFrom(Execute(year, actions), t, req);
  }

  lemma RunsToItsEnd(s: State, t: TxId, req: Request)
    requires s.txs == map[] && t !in s.done && req.amount >= 1
    ensures Play(Apply(s, Begin(t, req)), Runs(t, ENOUGH)) == Ended(s, t, req)
  {
    var begun := Apply(s, Begin(t, req));
    assert begun == At(begun, t, Fresh(req, 1)) && begun == s.(txs := map[t := Fresh(req, 1)]);
    hide Play, Runs, Apply, At, Refused, NextNumber;
    Attempts(begun, t, req, 1, ENOUGH);
  }

  lemma UndisturbedFrom(s: State, t: TxId, req: Request)
    requires Invariant(s) && req.amount >= 1
    ensures var s' := Ended(s, t, req);
            && s'.txs == map[] && t in s'.done && s'.done[t].req == req
            && (forall o :: s'.done[t].outcome == o <==> CreationReason(s, req, o))
            && (if s'.done[t].outcome == Created
                then s'.log == s.log + [RowFor(s, req)] && s'.counters == s.counters[s.year := CountOfYear(s.log, s.year) + 1]
                else s'.log == s.log && s'.counters == s.counters)
  {
    hide Refused, NextNumber, AllOk, AllApart, AllDone, CountOfYear, CreationReason;
    forall o ensures AnswerOf(s, req) == o <==> CreationReason(s, req, o) { AnswerHasItsReason(s, req, o); }
    RefusalsAreDifferent(s.log, req);
    assert NextNumber(s.counters, s.year) == CountOfYear(s.log, s.year) + 1;
  }

  lemma RefusalsAreDifferent(log: Log, req: Request)
    ensures Refused(log, req) != Some(NotFound) && Refused(log, req) != Some(Created)
  {
  }

  // ----- a void makes room for its replacement ---------------------------------------------------

  /** Whatever was replaced is voided. */
  lemma ReplacedIsVoided(log: Log, r: Row, id: Id)
    requires GoodLog(log) && r in log && r.Agreed? && r.req.supersedes == Some(id)
    ensures !NotVoided(log, id)
  {
    var j :| 0 <= j < |log| && log[j] == r;
    var i := ReplacementPointsBack(log, j);
    var k :| i < k < j && log[k].Voided? && log[k].agreement == log[i].req.id;
    assert log[k] in log;
  }

  lemma UnvoidedIsNotReplaced(log: Log, id: Id)
    requires GoodLog(log) && NotVoided(log, id)
    ensures NotReplaced(log, id)
  {
    forall r | r in log && r.Agreed? ensures r.req.supersedes != Some(id) {
      if r.req.supersedes == Some(id) { ReplacedIsVoided(log, r, id); }
    }
  }

  /**
   * After any run that left nobody running, in a period that is not overdrawn: voiding a
   * live agreement makes room for a replacement of up to its whole amount, and the
   * replacement is then created.
   */
  lemma ReplacementAfterVoid(year: nat, actions: seq<Action>, id: Id, was: Row, t: TxId, req: Request)
    requires var s := Execute(year, actions);
             && s.txs == map[] && t !in s.done
             && was in s.log && was.Agreed? && NotVoided(s.log, was.req.id)
             && LastAvailableCovers(s.log, was.req.period)
             && req.period == was.req.period && 1 <= req.amount <= was.req.amount
             && req.supersedes == Some(was.req.id) && NoAgreement(s.log, req.id) && req.id !in s.foreign
    ensures var s := Execute(year, actions + [CommitVoid(id, was.req.id)]);
            var s' := Play(Apply(s, Begin(t, req)), Runs(t, ENOUGH));
            && s.log == Execute(year, actions).log + [Voided(id, was.req.id)]
            && t in s'.done && s'.done[t] == Done(req, Created) && s'.log == s.log + [RowFor(s, req)]
  {
    var s := Execute(year, actions);
    Reachable(year, actions);
    ExecuteOne(year, actions, CommitVoid(id, was.req.id));
    assert !NoAgreement(s.log, was.req.id);
    var next := Execute(year, actions + [CommitVoid(id, was.req.id)]);
    assert next == s.(log := s.log + [Voided(id, was.req.id)]);
    MakesRoom(s.log, id, was, req);
    hide *;
    UndisturbedCreation(year, actions + [CommitVoid(id, was.req.id)], t, req);
    CreatedBecause(next, req);
  }

  lemma CreatedBecause(s: State, req: Request)
    requires NoAgreement(s.log, req.id) && Replaceable(s.log, req.id, req.supersedes) && Fits(s.log, req) && req.id !in s.foreign
    ensures CreationReason(s, req, Created)
  {
  }

  /** What is agreed and not voided stays within the available amount. */
  ghost predicate LastAvailableCovers(log: Log, period: Period) {
    exists available :: LastAvailable(log, period, available) && Live(log, period) <= available
  }

  lemma MakesRoom(log: Log, id: Id, a: Row, req: Request)
    requires GoodLog(log) && a in log && a.Agreed? && NotVoided(log, a.req.id) && LastAvailableCovers(log, a.req.period)
    requires req.period == a.req.period && req.amount <= a.req.amount
    requires req.supersedes == Some(a.req.id) && NoAgreement(log, req.id)
    ensures var next := log + [Voided(id, a.req.id)];
            NoAgreement(next, req.id) && Replaceable(next, req.id, req.supersedes) && Fits(next, req)
  {
    var row := Voided(id, a.req.id);
    var next := log + [row];
    assert !NoAgreement(log, a.req.id);
    GoodLogGrows(log, row);
    CommittedIsLive(log, req.period);
    CommittedIsLive(next, req.period);
    VoidReleases(log, id, a, req.period);
    UnvoidedIsNotReplaced(log, a.req.id);
    var available :| LastAvailable(log, a.req.period, available) && Live(log, a.req.period) <= available;
    AvailableIsLast(log, req.period, available);
    assert next[..|log|] == log;
    AvailableIsLast(next, req.period, available);
    assert a in next && row in next;
  }

  // ----- the attempts an id held elsewhere costs --------------------------------------------------

  lemma {:induction false} LaterAttempt(s: State, t: TxId, req: Request, k: nat, n: nat)
    requires OnlyOne(s, t) && 1 <= k <= 5 && Refused(s.log, req).None? && req.id in s.foreign && n > 8 * (k - 1)
    ensures Play(At(s, t, Fresh(req, 1)), Runs(t, n)) == Play(At(s, t, Fresh(req, k)), Runs(t, n - 8 * (k - 1)))
  {
    hide Play, Runs, At, Refused, NextNumber;
    if k > 1 {
      LaterAttempt(s, t, req, k - 1, n);
      var m := n - 8 * (k - 2);
      ReadsSnapshot(s, t, req, k - 1, m);
      var two := Fresh(req, k - 1).(pc := 2, snap := |s.log|);
      Checks(s, t, two, m - 2);
      TakesNumber(s, t, two.(pc := 5), m - 5);
      StartsOver(s, t, two.(pc := 7, year := s.year, number := NextNumber(s.counters, s.year)), m - 7);
    }
  }

  /** A creation whose id another context holds is on its fifth attempt when it gives up. */
  lemma GivesUpAfterFive(s: State, t: TxId, req: Request)
    requires OnlyOne(s, t) && Refused(s.log, req).None? && req.id in s.foreign
    ensures Play(At(s, t, Fresh(req, 1)), Runs(t, 33)) == RunOne(At(s, t, Fresh(req, 5)), t)
    ensures t in RunOne(At(s, t, Fresh(req, 5)), t).txs && RunOne(At(s, t, Fresh(req, 5)), t).txs[t].attempt == 5
    ensures Play(At(s, t, Fresh(req, 1)), Runs(t, 41)) == Closed(s, t, req, NotFound)
  {
    LaterAttempt(s, t, req, 5, 33);
    assert RunOne(At(s, t, Fresh(req, 5)), t).txs[t] == Fresh(req, 5).(pc := 1, snap := |s.log|);
    OneRun(At(s, t, Fresh(req, 5)), t, 1);
    NoRuns(RunOne(At(s, t, Fresh(req, 5)), t), t);
    hide Play, Runs, At;
    Attempts(s, t, req, 1, 41);
  }
}
