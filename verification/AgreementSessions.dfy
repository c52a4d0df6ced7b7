/**
 * Agreement creation under REPEATABLE READ, as interleaved steps.
 *
 * A creation reads everything from the snapshot of its first statement; the identity
 * lock and the folio counter row are taken later, on the current state. Updating a
 * counter row that changed after the snapshot fails and the whole unit is retried.
 */
module AgreementSessions {
  import opened Basics
  import opened AgreementLedger

  type TxId = int

  const MAX_CREATE_ATTEMPTS := 5

  datatype Outcome =
    | Created
    | Replayed
    | IdConflict
    | ReplacementInvalid
    | ExceedsAvailable
    | ExceedsUncommitted
    | NotFound
    | Busy
    | Aborted

  /** A running creation: which attempt, its next statement, its snapshot and its reserved folio. */
  datatype Tx = Tx(req: Request, attempt: nat, pc: nat, snap: nat, year: nat, number: nat)

  datatype Done = Done(req: Request, outcome: Outcome)

  /** The stored counter rows are state of their own: only the creations write them. */
  datatype State = State(
    log: Log, counters: map<nat, nat>, year: nat, foreign: set<Id>,
    txs: map<TxId, Tx>, done: map<TxId, Done>)

  datatype Action =
    | Begin(t: TxId, req: Request)
    | Run(t: TxId)
    | Abort(t: TxId)
    | NewYear(year: nat)
    | SetAvailable(period: Period, amount: int)
    | CommitVoid(id: Id, agreement: Id)
    | ForeignInsert(id: Id)

  datatype Effect =
    | Goto(next: Tx)
    | Wait
    | Finish(outcome: Outcome)
    | Retry(unique: bool)
    | Commit(row: Row)

  /** The advisory lock on the request's identity is held from the third statement on. */
  predicate HoldsIdentity(tx: Tx, id: Id) { tx.pc >= 2 && tx.req.id == id }

  /** The counter row of a year is held from its update to the commit. */
  predicate HoldsCounter(tx: Tx, year: nat) { tx.pc >= 7 && tx.year == year }

  /** An inserted row blocks another insert of the same unique key until the commit. */
  predicate Inserted(tx: Tx, supersedes: Option<Id>) { tx.pc >= 8 && supersedes.Some? && tx.req.supersedes == supersedes }

  predicate Others(txs: map<TxId, Tx>, t: TxId, busy: Tx -> bool) {
    exists u :: u in txs && u != t && busy(txs[u])
  }

  function NextNumber(counters: map<nat, nat>, year: nat): nat {
    if year in counters then counters[year] + 1 else 1
  }

  function Next(s: State, t: TxId): Effect
    requires t in s.txs
  {
    var tx := s.txs[t];
    var req, view := tx.req, if tx.snap <= |s.log| then s.log[..tx.snap] else s.log;
    match tx.pc
    case 0 => Goto(tx.(pc := 1, snap := |s.log|))
    case 1 => if Others(s.txs, t, (u: Tx) => HoldsIdentity(u, req.id)) then Wait else Goto(tx.(pc := 2))
    case 2 =>
      (match FindAgreement(view, req.id)
       case Some(row) => Finish(if row.req == req then Replayed else IdConflict)
       case None => Goto(tx.(pc := 3)))
    case 3 => if ReplacementValid(view, req.id, req.supersedes) then Goto(tx.(pc := 4)) else Finish(ReplacementInvalid)
    case 4 =>
      var available := AvailableIn(view, req.period);
      if req.amount > available then Finish(ExceedsAvailable)
      else if req.amount > Free(available, Committed(view, req.period)) then Finish(ExceedsUncommitted)
      else Goto(tx.(pc := 5))
    case 5 => Goto(tx.(pc := 6, year := s.year))
    case 6 =>
      if Others(s.txs, t, (u: Tx) => HoldsCounter(u, tx.year)) then Wait
      else if tx.snap <= |s.log| && TakenInYear(s.log[tx.snap..], tx.year) then Retry(false)
      else Goto(tx.(pc := 7, number := NextNumber(s.counters, tx.year)))
    case 7 =>
      if Others(s.txs, t, (u: Tx) => Inserted(u, req.supersedes)) then Wait
      else if req.id in s.foreign || FindAgreement(s.log, req.id).Some?
              || (req.supersedes.Some? && IsReplaced(s.log, req.supersedes.value)) then Retry(true)
      else Goto(tx.(pc := 8))
    case _ => Commit(Agreed(req, tx.year, tx.number, tx.snap))
  }

  function End(s: State, t: TxId, outcome: Outcome): State
    requires t in s.txs
  {
    s.(txs := s.txs - {t}, done := s.done[t := Done(s.txs[t].req, outcome)])
  }

  /** A retryable failure restarts the unit on a fresh snapshot, or gives up with the last cause. */
  function Again(s: State, t: TxId, unique: bool): State
    requires t in s.txs
  {
    var tx := s.txs[t];
    if tx.attempt < MAX_CREATE_ATTEMPTS then s.(txs := s.txs[t := Tx(tx.req, tx.attempt + 1, 0, 0, 0, 0)])
    else End(s, t, if unique then NotFound else Busy)
  }

  function RunOne(s: State, t: TxId): State
    requires t in s.txs
  {
    match Next(s, t)
    case Goto(tx) => s.(txs := s.txs[t := tx])
    case Wait => s
    case Finish(outcome) => End(s, t, outcome)
    case Retry(unique) => Again(s, t, unique)
    case Commit(row) => End(s, t, Created).(log := s.log + [row], counters := s.counters[s.txs[t].year := s.txs[t].number])
  }

  /** A void commits under the identity locks of both ids. */
  predicate VoidEnabled(s: State, id: Id, agreement: Id) {
    && FindAgreement(s.log, agreement).Some? && !IsVoided(s.log, agreement)
    && forall t :: t in s.txs ==> !HoldsIdentity(s.txs[t], id) && !HoldsIdentity(s.txs[t], agreement)
  }

  function Apply(s: State, a: Action): State {
    match a
    case Begin(t, req) =>
      if t in s.txs || t in s.done || req.amount < 1 then s else s.(txs := s.txs[t := Tx(req, 1, 0, 0, 0, 0)])
    case Run(t) => if t in s.txs then RunOne(s, t) else s
    case Abort(t) => if t in s.txs then End(s, t, Aborted) else s
    case NewYear(year) => if year > s.year then s.(year := year) else s
    case SetAvailable(period, amount) => s.(log := s.log + [Available(period, amount)])
    case CommitVoid(id, agreement) => if VoidEnabled(s, id, agreement) then s.(log := s.log + [Voided(id, agreement)]) else s
    case ForeignInsert(id) => s.(foreign := s.foreign + {id})
  }

  function Initial(year: nat): State { State([], map[], year, {}, map[], map[]) }

  function Execute(year: nat, actions: seq<Action>): State {
    if actions == [] then Initial(year)
    else Apply(Execute(year, actions[..|actions| - 1]), actions[|actions| - 1])
  }

  // ----- the invariant ------------------------------------------------------------------------

  ghost predicate TxOk(log: Log, tx: Tx) {
    && 1 <= tx.attempt <= MAX_CREATE_ATTEMPTS && tx.pc <= 8 && tx.req.amount > 0
    && (1 <= tx.pc ==> tx.snap <= |log|)
    && (3 <= tx.pc ==> NoAgreement(log[..tx.snap], tx.req.id))
    && (4 <= tx.pc ==> ReplacementValid(log[..tx.snap], tx.req.id, tx.req.supersedes))
    && (5 <= tx.pc ==> Committed(log[..tx.snap], tx.req.period) + tx.req.amount <= AvailableIn(log[..tx.snap], tx.req.period))
    && (7 <= tx.pc ==> NoneOfYear(log[tx.snap..], tx.year) && tx.number == CountOfYear(log, tx.year) + 1)
    && (8 <= tx.pc ==> NoAgreement(log, tx.req.id) && (tx.req.supersedes.Some? ==> NotReplaced(log, tx.req.supersedes.value)))
  }

  /** Two running creations never hold the same identity, counter row or unique key. */
  ghost predicate Apart(a: Tx, b: Tx) {
    && !(HoldsIdentity(a, b.req.id) && HoldsIdentity(b, a.req.id))
    && !(HoldsCounter(a, b.year) && HoldsCounter(b, a.year))
    && !(Inserted(a, b.req.supersedes) && Inserted(b, a.req.supersedes))
  }

  ghost predicate CountersOk(log: Log, counters: map<nat, nat>) {
    forall y: nat :: NextNumber(counters, y) == CountOfYear(log, y) + 1
  }

  ghost predicate Recorded(log: Log, req: Request) {
    exists r :: r in log && r.Agreed? && r.req == req
  }

  ghost predicate AllOk(log: Log, txs: map<TxId, Tx>) { forall t :: t in txs ==> TxOk(log, txs[t]) }

  ghost predicate AllApart(txs: map<TxId, Tx>) { forall t, u :: t in txs && u in txs && t != u ==> Apart(txs[t], txs[u]) }

  ghost predicate AllDone(log: Log, done: map<TxId, Done>) {
    && (forall t :: t in done && (done[t].outcome == Created || done[t].outcome == Replayed) ==> Recorded(log, done[t].req))
    && (forall t, u :: t in done && u in done && t != u && done[t].outcome == Created && done[u].outcome == Created
          ==> done[t].req.id != done[u].req.id)
  }

  ghost predicate Invariant(s: State) {
    && GoodLog(s.log) && CountersOk(s.log, s.counters)
    && AllOk(s.log, s.txs) && AllApart(s.txs) && AllDone(s.log, s.done)
  }

  // ----- what a commit elsewhere leaves standing ----------------------------------------------------

  lemma StillOk(log: Log, row: Row, tx: Tx)
    requires TxOk(log, tx)
    requires row.Agreed? && 7 <= tx.pc ==> row.year != tx.year
    requires row.Agreed? && 8 <= tx.pc ==> row.req.id != tx.req.id && (tx.req.supersedes.Some? ==> row.req.supersedes != tx.req.supersedes)
    ensures TxOk(log + [row], tx)
  {
    var next := log + [row];
    if 1 <= tx.pc {
      assert next[..tx.snap] == log[..tx.snap];
      assert next[tx.snap..] == log[tx.snap..] + [row];
    }
    assert next[..|log|] == log;
  }

  lemma RecordedStays(log: Log, row: Row, req: Request)
    requires Recorded(log, req)
    ensures Recorded(log + [row], req)
  {
    var r :| r in log && r.Agreed? && r.req == req;
    assert r in log + [row];
  }

  lemma DoneStays(log: Log, row: Row, done: map<TxId, Done>)
    requires AllDone(log, done)
    ensures AllDone(log + [row], done)
  {
    forall t | t in done && (done[t].outcome == Created || done[t].outcome == Replayed) ensures Recorded(log + [row], done[t].req) {
      RecordedStays(log, row, done[t].req);
    }
  }

  // ----- one step -------------------------------------------------------------------------------------

  lemma GotoKeeps(s: State, t: TxId, n: Tx)
    requires Invariant(s) && t in s.txs && Next(s, t) == Goto(n)
    ensures TxOk(s.log, n)
  {
    var tx := s.txs[t];
    assert CountersOk(s.log, s.counters);
    if tx.pc == 0 { assert s.log[..|s.log|] == s.log; }
  }

  lemma GotoApart(s: State, t: TxId, n: Tx, u: TxId)
    requires Invariant(s) && t in s.txs && Next(s, t) == Goto(n) && u in s.txs && u != t
    ensures Apart(n, s.txs[u]) && Apart(s.txs[u], n)
  {
    var tx, other := s.txs[t], s.txs[u];
    assert Apart(tx, other) && Apart(other, tx);
    if tx.pc == 1 {
      var busy := (v: Tx) => HoldsIdentity(v, tx.req.id);
      assert !Others(s.txs, t, busy);
      assert !busy(other);
    } else if tx.pc == 6 {
      var busy := (v: Tx) => HoldsCounter(v, tx.year);
      assert !Others(s.txs, t, busy);
      assert !busy(other);
    } else if tx.pc == 7 {
      var busy := (v: Tx) => Inserted(v, tx.req.supersedes);
      assert !Others(s.txs, t, busy);
      assert !busy(other);
    }
  }

  /** What a creation at its last statement commits, and why the log admits it. */
  lemma CommitsRow(s: State, t: TxId)
    requires Invariant(s) && t in s.txs && s.txs[t].pc == 8
    ensures var tx := s.txs[t];
            var row := Agreed(tx.req, tx.year, tx.number, tx.snap);
            && Next(s, t) == Commit(row) && Admissible(s.log, row) && NoAgreement(s.log, tx.req.id)
            && CountersOk(s.log + [row], s.counters[tx.year := tx.number])
  {
    var tx := s.txs[t];
    var row := Agreed(tx.req, tx.year, tx.number, tx.snap);
    hide GoodLog, AllDone, AllApart;
    assert TxOk(s.log, tx);
    CountersCount(s.log, s.counters, row);
  }

  lemma CountersCount(log: Log, counters: map<nat, nat>, row: Row)
    requires CountersOk(log, counters) && row.Agreed? && row.number == CountOfYear(log, row.year) + 1
    ensures CountersOk(log + [row], counters[row.year := row.number])
  {
    assert (log + [row])[..|log|] == log;
    forall y: nat ensures NextNumber(counters[row.year := row.number], y) == CountOfYear(log + [row], y) + 1 {
      assert NextNumber(counters, y) == CountOfYear(log, y) + 1;
    }
  }

  lemma OthersStillOk(s: State, t: TxId, row: Row)
    requires Invariant(s) && t in s.txs && s.txs[t].pc == 8
    requires row == Agreed(s.txs[t].req, s.txs[t].year, s.txs[t].number, s.txs[t].snap)
    ensures AllOk(s.log + [row], s.txs - {t})
  {
    hide GoodLog, CountersOk, AllDone, TxOk;
    forall u | u in s.txs && u != t ensures TxOk(s.log + [row], s.txs[u]) {
      assert Apart(s.txs[t], s.txs[u]);
      StillOk(s.log, row, s.txs[u]);
    }
  }

  lemma CommitKeeps(s: State, t: TxId)
    requires Invariant(s) && t in s.txs && s.txs[t].pc == 8
    ensures Invariant(RunOne(s, t))
  {
    hide Next, TxOk, GoodLog, Recorded, Admissible, CountersOk, Apart;
    var tx := s.txs[t];
    var row := Agreed(tx.req, tx.year, tx.number, tx.snap);
    CommitsRow(s, t);
    OthersStillOk(s, t, row);
    GoodLogGrows(s.log, row);
    DoneStays(s.log, row, s.done);
    RecordedNow(s.log, row);
    NotRecordedYet(s.log, s.done, tx.req.id);
  }

  lemma RecordedNow(log: Log, row: Row)
    requires row.Agreed?
    ensures Recorded(log + [row], row.req)
  {
    assert row in log + [row];
  }

  lemma NotRecordedYet(log: Log, done: map<TxId, Done>, id: Id)
    requires AllDone(log, done) && NoAgreement(log, id)
    ensures forall u :: u in done && done[u].outcome == Created ==> done[u].req.id != id
  {
    forall u | u in done && done[u].outcome == Created ensures done[u].req.id != id {
      var r :| r in log && r.Agreed? && r.req == done[u].req;
    }
  }

  lemma EndKeeps(s: State, t: TxId, outcome: Outcome)
    requires Invariant(s) && t in s.txs && outcome != Created
    requires outcome == Replayed ==> Recorded(s.log, s.txs[t].req)
    ensures Invariant(End(s, t, outcome))
  {
  }

  lemma ReplayIsRecorded(s: State, t: TxId)
    requires Invariant(s) && t in s.txs && Next(s, t) == Finish(Replayed)
    ensures Recorded(s.log, s.txs[t].req)
  {
    var tx := s.txs[t];
    var row := FindAgreement(s.log[..tx.snap], tx.req.id).value;
    assert row in s.log;
  }

  lemma RunKeeps(s: State, t: TxId)
    requires Invariant(s) && t in s.txs
    ensures Invariant(RunOne(s, t))
  {
    match Next(s, t)
    case Goto(n) =>
      GotoKeeps(s, t, n);
      forall u | u in s.txs && u != t ensures Apart(n, s.txs[u]) && Apart(s.txs[u], n) { GotoApart(s, t, n, u); }
      hide Next, Others, TxOk, GoodLog, Apart;
    case Wait =>
    case Finish(outcome) =>
      if outcome == Replayed { ReplayIsRecorded(s, t); }
      EndKeeps(s, t, outcome);
    case Retry(unique) => EndKeeps(s, t, if unique then NotFound else Busy);
    case Commit(_) => CommitKeeps(s, t);
  }

  lemma EnvironmentKeeps(s: State, row: Row)
    requires Invariant(s) && !row.Agreed? && Admissible(s.log, row)
    ensures Invariant(s.(log := s.log + [row]))
  {
    GoodLogGrows(s.log, row);
    forall t | t in s.txs ensures TxOk(s.log + [row], s.txs[t]) { StillOk(s.log, row, s.txs[t]); }
    DoneStays(s.log, row, s.done);
    assert (s.log + [row])[..|s.log|] == s.log;
  }

  lemma ApplyKeeps(s: State, a: Action)
    requires Invariant(s)
    ensures Invariant(Apply(s, a))
  {
    match a
    case Begin(_, _) =>
    case Run(t) => if t in s.txs { RunKeeps(s, t); }
    case Abort(t) => if t in s.txs { EndKeeps(s, t, Aborted); }
    case NewYear(_) =>
    case SetAvailable(period, amount) => EnvironmentKeeps(s, Available(period, amount));
    case CommitVoid(id, agreement) => if VoidEnabled(s, id, agreement) { EnvironmentKeeps(s, Voided(id, agreement)); }
    case ForeignInsert(_) =>
  }

  lemma {:induction false} Reachable(year: nat, actions: seq<Action>)
    ensures Invariant(Execute(year, actions))
  {
    if actions != [] {
      Reachable(year, actions[..|actions| - 1]);
      ApplyKeeps(Execute(year, actions[..|actions| - 1]), actions[|actions| - 1]);
    }
  }
}
