/**
 * Safety of every run of the finance transactions, and freedom from deadlock.
 */
module SessionTheorems {
  import opened Basics
  import opened Ledger
  import opened LedgerFacts
  import opened Locks
  import opened Sessions
  import opened SessionInvariants
  import opened Progress
  import PaymentSummary

  // ----- another transaction's commit leaves my facts standing -----------------------------

  ghost predicate Apart(mine: set<Lock>, yours: set<Lock>) {
    forall a, b :: a in mine && b in yours ==> Compatible(a, b)
  }

  /** Nobody else commits my payment id, or a payment to my participant, or a void of my agreement. */
  lemma PaymentLocksOut(log: Log, row: Row, held: set<Lock>, u: Tx, p: Payment)
    requires Guarded(log, row, held) && Apart(held, u.held)
    ensures Exclusive(PaymentIdentity(p.id)) in u.held ==> !(row.PaymentRow? && row.pay.id == p.id)
    ensures Shared(RowOfAgreement(p.agreement)) in u.held ==> !(row.VoidRow? && row.void.agreement == p.agreement)
    ensures Exclusive(RowOfParticipant(p.agreement, p.member)) in u.held ==> !PaysTo(row, p.agreement, p.member)
  {
  }

  lemma PaymentLocks(u: Tx, p: Payment)
    requires u.req == CreatePayment(p) && HeldOk(u)
    ensures u.pc >= 1 ==> Exclusive(PaymentIdentity(p.id)) in u.held
    ensures 3 <= u.pc <= 10 ==> Shared(RowOfAgreement(p.agreement)) in u.held
    ensures 6 <= u.pc <= 10 ==> Exclusive(RowOfParticipant(p.agreement, p.member)) in u.held
  {
    assert PaymentIdentity(p.id) in IdentityKeys(u.req);
  }

  lemma PaymentStable(log: Log, row: Row, held: set<Lock>, u: Tx, p: Payment)
    requires GoodLog(log) && Admissible(log, row) && Guarded(log, row, held)
    requires u.req == CreatePayment(p) && TxOk(log, u) && Apart(held, u.held)
    ensures PaymentOk(log + [row], u, p)
  {
    hide SummaryOf, FindAgreement, Paid, GoodLog, Admissible, Guarded, Apart, IdentityKeys, HeldOk, PaysTo;
    PaymentLocks(u, p);
    PaymentLocksOut(log, row, held, u, p);
    PaidAppend(log, row, p.agreement, p.member);
    if 3 <= u.pc <= 10 {
      var a :| a in log && a.AgreementRow? && a.id == p.agreement && a.occurredAt == u.known.since
               && (5 <= u.pc ==> Participant(p.member, u.known.agreed) in a.participants);
      assert a in log + [row];
    }
  }

  lemma ReversalLocks(u: Tx, r: Reversal)
    requires u.req == ReversePayment(r) && HeldOk(u)
    ensures u.pc >= 1 ==> Exclusive(ReversalIdentity(r.id)) in u.held
    ensures 5 <= u.pc <= 9 ==> Exclusive(RowOfPayment(r.payment)) in u.held
  {
    assert ReversalIdentity(r.id) in IdentityKeys(u.req);
  }

  lemma ReversalLocksOut(log: Log, row: Row, held: set<Lock>, u: Tx, r: Reversal)
    requires Guarded(log, row, held) && Apart(held, u.held)
    ensures Exclusive(ReversalIdentity(r.id)) in u.held ==> !(row.ReversalRow? && row.rev.id == r.id)
    ensures Exclusive(RowOfPayment(r.payment)) in u.held ==> !(row.ReversalRow? && row.rev.payment == r.payment)
  {
  }

  lemma ReversalStable(log: Log, row: Row, held: set<Lock>, u: Tx, r: Reversal)
    requires GoodLog(log) && Admissible(log, row) && Guarded(log, row, held)
    requires u.req == ReversePayment(r) && TxOk(log, u) && Apart(held, u.held)
    ensures ReversalOk(log + [row], u, r)
  {
    hide GoodLog, Admissible, Guarded, Apart, IdentityKeys, HeldOk, FindPayment;
    ReversalLocks(u, r);
    ReversalLocksOut(log, row, held, u, r);
  }

  lemma VoidLocks(u: Tx, v: Void)
    requires u.req == VoidAgreement(v) && HeldOk(u)
    ensures u.pc >= 1 ==> Exclusive(AgreementIdentity(v.id)) in u.held
    ensures u.pc >= 3 ==> Exclusive(RowOfAgreement(v.agreement)) in u.held
  {
    assert AgreementIdentity(v.id) in IdentityKeys(u.req);
  }

  lemma VoidLocksOut(log: Log, row: Row, held: set<Lock>, u: Tx, v: Void)
    requires Guarded(log, row, held) && Apart(held, u.held)
    ensures Exclusive(AgreementIdentity(v.id)) in u.held ==> !(row.VoidRow? && row.void.id == v.id)
    ensures Exclusive(RowOfAgreement(v.agreement)) in u.held ==> !(row.VoidRow? && row.void.agreement == v.agreement)
  {
  }

  lemma VoidStable(log: Log, row: Row, held: set<Lock>, u: Tx, v: Void)
    requires GoodLog(log) && Admissible(log, row) && Guarded(log, row, held)
    requires u.req == VoidAgreement(v) && TxOk(log, u) && Apart(held, u.held)
    ensures VoidOk(log + [row], u, v)
  {
    hide GoodLog, Admissible, Guarded, Apart, IdentityKeys, HeldOk, FindAgreement;
    VoidLocks(u, v);
    VoidLocksOut(log, row, held, u, v);
    if 3 <= u.pc {
      var a :| a in log && a.AgreementRow? && a.id == v.agreement && a.occurredAt == u.known.since;
      assert a in log + [row];
    }
  }

  /** A commit that holds other days leaves the count of this day alone. */
  lemma OtherDays(log: Log, row: Row, member: Id, day: Day, extra: set<Id>)
    requires GoodLog(log) && Admissible(log, row)
    requires row.ShiftRow? ==> DayKey(row.shift) != ShiftDay(member, day)
    requires row.CorrectionRow? ==> forall r :: r in log && r.ShiftRow? && r.shift.id == row.cor.shift ==> DayKey(r.shift) != ShiftDay(member, day)
    ensures WorkWithout(log + [row], DayOf(member, day), CorrectedIn(log + [row]) + extra)
         == WorkWithout(log, DayOf(member, day), CorrectedIn(log) + extra)
  {
    var scope, gone := DayOf(member, day), CorrectedIn(log) + extra;
    CorrectedAppend(log, row);
    WorkWithoutAppend(log, row, scope, CorrectedIn(log + [row]) + extra);
    if row.CorrectionRow? {
      assert CorrectedIn(log + [row]) + extra == gone + {row.cor.shift};
      if row.cor.shift in gone {
        assert gone + {row.cor.shift} == gone;
      } else {
        var s := FindShift(log, row.cor.shift).value;
        ShiftsAreDistinct(log, s);
        WorkWithoutOne(log, scope, gone, s.shift);
      }
    }
  }

  lemma HoldsIdentities(u: Tx)
    requires HeldOk(u) && u.pc >= 1
    ensures Keys(IdentityKeys(u.req)) <= u.held
  {
  }

  lemma ShiftLocks(u: Tx, s: Shift)
    requires u.req == CreateShift(s) && HeldOk(u)
    ensures u.pc >= 1 ==> Exclusive(ShiftIdentity(s.id)) in u.held
    ensures u.pc >= 4 ==> Exclusive(DayKey(s)) in u.held
  {
    assert ShiftIdentity(s.id) in IdentityKeys(u.req);
  }

  lemma ShiftStable(log: Log, row: Row, held: set<Lock>, u: Tx, s: Shift)
    requires GoodLog(log) && Admissible(log, row) && Guarded(log, row, held)
    requires u.req == CreateShift(s) && TxOk(log, u) && Apart(held, u.held)
    ensures ShiftOk(log + [row], u, s)
  {
    hide GoodLog, Admissible, Guarded, Apart, IdentityKeys, HeldOk, FindShift, FindCorrection, Work;
    ShiftLocks(u, s);
    if u.pc >= 1 { ShiftLocksOut(log, row, held, u, s.id); }
    if 5 <= u.pc {
      NotHeld(held, u.held, DayKey(s));
      SameDayCount(log, row, held, s);
    }
  }

  /** Whoever commits without my day's lock does not touch my day. */
  lemma SameDayCount(log: Log, row: Row, held: set<Lock>, s: Shift)
    requires GoodLog(log) && Admissible(log, row) && Guarded(log, row, held)
    requires Exclusive(DayKey(s)) !in held
    ensures Work(log + [row], DayOf(s.member, s.day)) == Work(log, DayOf(s.member, s.day))
  {
    OtherDays(log, row, s.member, s.day, {});
    hide GoodLog, Admissible, WorkWithout, CorrectedIn, Guarded;
    assert CorrectedIn(log) + {} == CorrectedIn(log);
    assert CorrectedIn(log + [row]) + {} == CorrectedIn(log + [row]);
  }

  lemma CorrectionKeys(c: Correction, o: Shift)
    ensures var ids := Keys(IdentityKeys(CorrectShift(c)));
            && Exclusive(ShiftIdentity(c.id)) in ids && Exclusive(ShiftIdentity(c.shift)) in ids
            && (c.replacement.Some? ==> Exclusive(ShiftIdentity(c.replacement.value.id)) in ids)
    ensures c.replacement.Some? ==> Exclusive(DayKey(c.replacement.value)) in Keys(DayKeys(o, c))
  {
    var ids := IdentityKeys(CorrectShift(c));
    assert ShiftIdentity(c.id) in ids && ShiftIdentity(c.shift) in ids;
    if c.replacement.Some? {
      assert ShiftIdentity(c.replacement.value.id) in ids;
      assert DayKey(c.replacement.value) in DayKeys(o, c);
    }
  }

  lemma CorrectionStable(log: Log, row: Row, held: set<Lock>, u: Tx, c: Correction)
    requires GoodLog(log) && Admissible(log, row) && Guarded(log, row, held)
    requires u.req == CorrectShift(c) && TxOk(log, u) && Apart(held, u.held)
    ensures CorrectionOk(log + [row], u, c)
  {
    if u.pc >= 1 {
      HoldsIdentities(u);
      CorrectionKeys(c, if u.known.original.Some? then u.known.original.value else Shift(0, 0, 0, None, None, Origin(0, 0, 0)));
      CorrectionFactsStable(log, row, held, u, c);
    }
  }

  /** Nobody else commits a shift or a correction under an identity I hold, or corrects a shift I hold. */
  lemma ShiftLocksOut(log: Log, row: Row, held: set<Lock>, u: Tx, id: Id)
    requires Guarded(log, row, held) && Apart(held, u.held) && Exclusive(ShiftIdentity(id)) in u.held
    ensures row.ShiftRow? ==> row.shift.id != id
    ensures row.CorrectionRow? ==> row.cor.id != id && row.cor.shift != id
  {
  }

  lemma NotHeld(held: set<Lock>, mine: set<Lock>, key: Resource)
    requires Apart(held, mine) && Exclusive(key) in mine
    ensures Exclusive(key) !in held
  {
  }

  lemma CorrectionFactsStable(log: Log, row: Row, held: set<Lock>, u: Tx, c: Correction)
    requires GoodLog(log) && Admissible(log, row) && Guarded(log, row, held) && CorrectionOk(log, u, c)
    requires Apart(held, u.held) && Exclusive(ShiftIdentity(c.id)) in u.held && Exclusive(ShiftIdentity(c.shift)) in u.held
    requires c.replacement.Some? ==> Exclusive(ShiftIdentity(c.replacement.value.id)) in u.held
    requires 5 <= u.pc && c.replacement.Some? ==> Exclusive(DayKey(c.replacement.value)) in u.held
    ensures CorrectionOk(log + [row], u, c)
  {
    ShiftLocksOut(log, row, held, u, c.id);
    ShiftLocksOut(log, row, held, u, c.shift);
    if c.replacement.Some? { ShiftLocksOut(log, row, held, u, c.replacement.value.id); }
    hide GoodLog, Admissible, Guarded, Work, WorkWithout, CorrectedIn, OthersFor;
    if 4 <= u.pc {
      var r :| r in log && r.ShiftRow? && r.shift == u.known.original.value;
      assert r in log + [row];
    }
    if 8 <= u.pc && c.replacement.Some? {
      NotHeld(held, u.held, DayKey(c.replacement.value));
      SameOthers(log, row, held, c, c.replacement.value);
    }
  }

  lemma SameOthers(log: Log, row: Row, held: set<Lock>, c: Correction, s: Shift)
    requires GoodLog(log) && Admissible(log, row) && Guarded(log, row, held)
    requires Exclusive(DayKey(s)) !in held
    ensures OthersFor(log + [row], c, s) == OthersFor(log, c, s)
  {
    OtherDays(log, row, s.member, s.day, {c.shift});
  }

  lemma Stable(log: Log, row: Row, held: set<Lock>, u: Tx)
    requires GoodLog(log) && Admissible(log, row) && Guarded(log, row, held)
    requires TxOk(log, u) && Apart(held, u.held)
    ensures TxOk(log + [row], u)
  {
    match u.req
    case CreatePayment(p) => PaymentStable(log, row, held, u, p);
    case ReversePayment(r) => ReversalStable(log, row, held, u, r);
    case VoidAgreement(v) => VoidStable(log, row, held, u, v);
    case CreateShift(s) => ShiftStable(log, row, held, u, s);
    case CorrectShift(c) => CorrectionStable(log, row, held, u, c);
  }

  lemma {:induction false} StableUnderCommit(log: Log, rows: Log, held: set<Lock>, u: Tx)
    requires GoodLog(log) && Guards(log, rows, held) && TxOk(log, u) && Apart(held, u.held)
    ensures TxOk(log + rows, u)
    decreases |rows|
  {
    hide TxOk, GoodLog, Guarded, Admissible, Apart;
    if rows == [] {
      assert log + rows == log;
    } else {
      Stable(log, rows[0], held, u);
      StableUnderCommit(log + [rows[0]], rows[1..], held, u);
      assert log + [rows[0]] + rows[1..] == log + rows;
    }
  }

  // ----- the invariant of the whole system ---------------------------------------------------

  ghost predicate Exclusion(txs: map<TxId, Tx>) {
    forall t, u :: t in txs && u in txs && t != u ==> Apart(txs[t].held, txs[u].held)
  }

  ghost predicate AllOk(log: Log, txs: map<TxId, Tx>) {
    forall t :: t in txs ==> TxOk(log, txs[t])
  }

  ghost predicate DoneOk(log: Log, d: Done) {
    && (d.outcome == Created || d.outcome == Replayed ==> Recorded(log, d.req))
    && d.outcome != SummaryFailed(PaymentSummary.Overpaid)
  }

  /** Two requests for the same identity of the same kind. */
  predicate SameIdentity(a: Request, b: Request) {
    match (a, b)
    case (CreatePayment(p), CreatePayment(q)) => p.id == q.id
    case (ReversePayment(p), ReversePayment(q)) => p.id == q.id
    case (VoidAgreement(p), VoidAgreement(q)) => p.id == q.id
    case (CreateShift(p), CreateShift(q)) => p.id == q.id
    case (CorrectShift(p), CorrectShift(q)) => p.id == q.id
    case _ => false
  }

  ghost predicate AllDoneOk(log: Log, done: map<TxId, Done>) {
    && (forall t :: t in done ==> DoneOk(log, done[t]))
    && (forall t, u :: t in done && u in done && t != u && done[t].outcome == Created && done[u].outcome == Created
          ==> !SameIdentity(done[t].req, done[u].req))
  }

  ghost predicate Invariant(s: State) {
    && GoodLog(s.log) && Closed(s.log)
    && AllOk(s.log, s.txs) && Exclusion(s.txs) && AllDoneOk(s.log, s.done)
    && s.txs.Keys !! s.done.Keys
  }

  lemma RecordedStays(log: Log, rows: Log, req: Request)
    requires Recorded(log, req)
    ensures Recorded(log + rows, req)
  {
    if req.CreateShift? {
      var n: nat :| ShiftRow(req.shift, Direct, n) in log;
      assert ShiftRow(req.shift, Direct, n) in log + rows;
    }
  }

  lemma FreshIsDifferent(log: Log, a: Request, b: Request)
    requires Recorded(log, a) && IdUnused(log, b)
    ensures !SameIdentity(a, b)
  {
  }

  lemma EndKeeps(s: State, t: TxId, outcome: Outcome)
    requires Invariant(s) && t in s.txs
    requires outcome != SummaryFailed(PaymentSummary.Overpaid) && outcome != Created
    requires outcome == Replayed ==> Recorded(s.log, s.txs[t].req)
    ensures Invariant(End(s, t, outcome))
  {
    var s' := End(s, t, outcome);
    assert AllDoneOk(s'.log, s'.done) by {
      forall u | u in s'.done ensures DoneOk(s'.log, s'.done[u]) {}
    }
  }

  lemma CommitKeeps(s: State, t: TxId, rows: Log)
    requires Invariant(s) && t in s.txs && Next(s.log, s.clock, s.foreign, s.txs[t]) == Commit(rows)
    ensures Invariant(RunOne(s, t))
  {
    var tx, s' := s.txs[t], RunOne(s, t);
    Steps(s.log, s.clock, s.foreign, tx);
    Commits(s.log, tx);
    forall u | u in s'.txs ensures TxOk(s'.log, s'.txs[u]) {
      StableUnderCommit(s.log, rows, tx.held, s.txs[u]);
    }
    assert AllDoneOk(s'.log, s'.done) by {
      forall u | u in s'.done ensures DoneOk(s'.log, s'.done[u]) {
        if u != t && (s.done[u].outcome == Created || s.done[u].outcome == Replayed) { RecordedStays(s.log, rows, s.done[u].req); }
      }
      forall u | u in s.done && s.done[u].outcome == Created ensures !SameIdentity(s.done[u].req, tx.req) {
        FreshIsDifferent(s.log, s.done[u].req, tx.req);
      }
    }
  }

  lemma TakeKeeps(s: State, t: TxId, lock: Lock, n: Tx)
    requires Invariant(s) && t in s.txs && Next(s.log, s.clock, s.foreign, s.txs[t]) == Take(lock, n)
    ensures Invariant(RunOne(s, t))
  {
    hide GoodLog, FactsOk, HeldOk, AllDoneOk, Closed, Compatible, Apart, Next;
    Steps(s.log, s.clock, s.foreign, s.txs[t]);
    FactsIgnoreHeld(s.log, n, n.held + {lock});
    if Grantable(s.txs, t, lock) { GrantKeepsExclusion(s.txs, t, lock, n.(held := n.held + {lock})); }
  }

  lemma GrantKeepsExclusion(txs: map<TxId, Tx>, t: TxId, lock: Lock, n: Tx)
    requires t in txs && Exclusion(txs) && Grantable(txs, t, lock) && n.held == txs[t].held + {lock}
    ensures Exclusion(txs[t := n])
  {
    hide Compatible;
    var next := txs[t := n];
    forall a, b | a in next && b in next && a != b ensures Apart(next[a].held, next[b].held) {
      if a == t { MoreApart(txs[t].held, txs[b], lock); }
      else if b == t { MoreApart(txs[t].held, txs[a], lock); }
    }
  }

  lemma MoreApart(mine: set<Lock>, other: Tx, lock: Lock)
    requires Apart(mine, other.held) && Unlocked(other, lock)
    ensures Apart(mine + {lock}, other.held) && Apart(other.held, mine + {lock})
  {
    forall a, b ensures Compatible(a, b) == Compatible(b, a) {}
  }

  lemma FactsIgnoreHeld(log: Log, n: Tx, held: set<Lock>)
    requires FactsOk(log, n)
    ensures FactsOk(log, n.(held := held))
  {
  }

  lemma RunKeeps(s: State, t: TxId)
    requires Invariant(s) && t in s.txs
    ensures Invariant(RunOne(s, t))
  {
    Steps(s.log, s.clock, s.foreign, s.txs[t]);
    match Next(s.log, s.clock, s.foreign, s.txs[t])
    case Goto(_) =>
    case Take(lock, n) => TakeKeeps(s, t, lock, n);
    case Finish(outcome) => EndKeeps(s, t, outcome);
    case Commit(rows) => CommitKeeps(s, t, rows);
  }

  lemma AgreementKeeps(s: State, row: Row)
    requires Invariant(s) && row.AgreementRow? && Admissible(s.log, row)
    ensures Invariant(s.(log := s.log + [row]))
  {
    var s' := s.(log := s.log + [row]);
    GoodLogGrows(s.log, row);
    forall u | u in s.txs ensures TxOk(s'.log, s.txs[u]) { Stable(s.log, row, {}, s.txs[u]); }
    forall u | u in s.done ensures DoneOk(s'.log, s.done[u]) {
      if s.done[u].outcome == Created || s.done[u].outcome == Replayed { RecordedStays(s.log, [row], s.done[u].req); }
    }
  }

  lemma StartOk(log: Log, req: Request)
    requires Accepted(req)
    ensures TxOk(log, Start(req)) && Start(req).held == {}
  {
    var keys := IdentityKeys(req);
    assert keys[0..] == keys && keys[..0] == [];
  }

  /** Every action of every client, at any point, keeps the invariant. */
  lemma ApplyKeeps(s: State, a: Action)
    requires Invariant(s)
    ensures Invariant(Apply(s, a))
  {
    match a
    case Begin(t, req) => if Accepted(req) { StartOk(s.log, req); }
    case Run(t) => if t in s.txs { RunKeeps(s, t); }
    case Abort(t) => if t in s.txs { EndKeeps(s, t, Aborted); }
    case Tick(_) =>
    case ForeignInsert(_) =>
    case CommitAgreement(row) =>
      if Apply(s, a) != s { AgreementKeeps(s, row); }
  }

  lemma {:induction false} Reachable(clock: Instant, actions: seq<Action>)
    ensures Invariant(Execute(clock, actions))
  {
    if actions != [] {
      Reachable(clock, actions[..|actions| - 1]);
      ApplyKeeps(Execute(clock, actions[..|actions| - 1]), actions[|actions| - 1]);
    }
  }

  // ----- safety over every run -------------------------------------------------------------

  /**
   * Payments, in every interleaving: nobody is overpaid, the live balance is exactly what
   * was paid minus what was reversed, a payment has one reversal at most, and no payment
   * commits after its agreement's void.
   */
  lemma PaymentsAreSafe(clock: Instant, actions: seq<Action>)
    ensures var log := Execute(clock, actions).log;
            && (forall a, p :: a in log && a.AgreementRow? && p in a.participants ==> Paid(log, a.id, p.member) <= p.total)
            && (forall a, m {:trigger Paid(log, a, m)} :: Paid(log, a, m) == Booked(log, a, m))
            && (forall i, j :: 0 <= i < j < |log| && log[i].ReversalRow? && log[j].ReversalRow? ==> log[i].rev.payment != log[j].rev.payment)
            && (forall i, j :: 0 <= i < j < |log| && log[i].VoidRow? && log[j].PaymentRow? ==> log[i].void.agreement != log[j].pay.agreement)
  {
    Reachable(clock, actions);
    var log := Execute(clock, actions).log;
    forall a, p | a in log && a.AgreementRow? && p in a.participants ensures Paid(log, a.id, p.member) <= p.total {
      NobodyOverpaid(log, a, p);
    }
    forall a, m ensures Paid(log, a, m) == Booked(log, a, m) { PaidIsBooked(log, a, m); }
    forall i, j | 0 <= i < j < |log| && log[i].ReversalRow? && log[j].ReversalRow? ensures log[i].rev.payment != log[j].rev.payment {
      RowsAreUnique(log, i, j);
    }
    forall i, j | 0 <= i < j < |log| && log[i].VoidRow? && log[j].PaymentRow? ensures log[i].void.agreement != log[j].pay.agreement {
      RowsAreUnique(log, i, j);
    }
  }

  /** The "overpaid" throw is unreachable: no request ends with it, and no summary read by anyone does. */
  lemma OverpaidIsUnreachable(clock: Instant, actions: seq<Action>, t: TxId, agreement: Id)
    ensures var s := Execute(clock, actions);
            && (t in s.done ==> s.done[t].outcome != SummaryFailed(PaymentSummary.Overpaid))
            && SummaryOf(s.log, agreement) != Err(PaymentSummary.Overpaid)
  {
    Reachable(clock, actions);
    SummaryNeverOverpaid(Execute(clock, actions).log, agreement);
  }

  /**
   * Idempotency: of all the requests carrying one identity, at most one is told "created";
   * whoever is told "created" or "replayed" finds exactly its own content in the ledger.
   */
  lemma CreatedAtMostOnce(clock: Instant, actions: seq<Action>, t: TxId, u: TxId)
    requires t != u
    ensures var d := Execute(clock, actions).done;
            && (t in d && u in d && d[t].outcome == Created && d[u].outcome == Created ==> !SameIdentity(d[t].req, d[u].req))
            && (t in d && (d[t].outcome == Created || d[t].outcome == Replayed) ==> Recorded(Execute(clock, actions).log, d[t].req))
  {
    Reachable(clock, actions);
  }

  /**
   * Work shifts, in every interleaving: identities never collide, a shift is corrected at
   * most once, a replacement belongs to one correction, the active totals of any scope are
   * creations minus corrections, and every stored warning was exact at its commit.
   */
  lemma ShiftsAreSafe(clock: Instant, actions: seq<Action>, i: nat, j: nat, scope: Scope)
    ensures var log := Execute(clock, actions).log;
            && Work(log, scope) == BookedWork(log, scope)
            && (i < j < |log| ==>
                  && (log[i].ShiftRow? && log[j].ShiftRow? ==> log[i].shift.id != log[j].shift.id)
                  && (log[i].ShiftRow? && log[j].CorrectionRow? ==> log[i].shift.id != log[j].cor.id)
                  && (log[i].CorrectionRow? && log[j].ShiftRow? ==> log[i].cor.id != log[j].shift.id)
                  && (log[i].CorrectionRow? && log[j].CorrectionRow? ==>
                        && log[i].cor.id != log[j].cor.id && log[i].cor.shift != log[j].cor.shift
                        && (log[i].cor.replacement.Some? && log[j].cor.replacement.Some? ==>
                              log[i].cor.replacement.value.id != log[j].cor.replacement.value.id)))
            && (i < |log| && log[i].ShiftRow? ==>
                  log[i].others + 1 == Work(AfterCommitOf(log, i), DayOf(log[i].shift.member, log[i].shift.day)).shifts)
  {
    Reachable(clock, actions);
    var log := Execute(clock, actions).log;
    WorkIsBooked(log, scope);
    if i < j < |log| { ShiftIdentities(log, i, j); }
    if i < |log| && log[i].ShiftRow? { WarningIsExact(log, i); }
  }

  /** Committed rows are never changed or lost, answers given stay given, and the clock never goes back. */
  lemma {:induction false} NothingIsRewritten(clock: Instant, actions: seq<Action>, more: seq<Action>)
    ensures var s, s' := Execute(clock, actions), Execute(clock, actions + more);
            && s.log <= s'.log && s.clock <= s'.clock
            && (forall t :: t in s.done ==> t in s'.done && s'.done[t] == s.done[t])
    decreases |more|
  {
    hide *;
    if more == [] {
      assert actions + more == actions;
    } else {
      var last := |more| - 1;
      var run := actions + more[..last];
      assert actions + more == run + [more[last]];
      NothingIsRewritten(clock, actions, more[..last]);
      Reachable(clock, run);
      InvariantIsOver(Execute(clock, run));
      ExecuteOne(clock, run, more[last]);
      OneMore(Execute(clock, run), more[last]);
    }
  }

  lemma ExecuteOne(clock: Instant, actions: seq<Action>, a: Action)
    ensures Execute(clock, actions + [a]) == Apply(Execute(clock, actions), a)
  {
    assert (actions + [a])[..|actions|] == actions;
  }

  lemma OneMore(s: State, a: Action)
    requires Over(s)
    ensures s.log <= Apply(s, a).log && s.clock <= Apply(s, a).clock
    ensures forall t :: t in s.done ==> t in Apply(s, a).done && Apply(s, a).done[t] == s.done[t]
  {
    hide Next, Accepted, FindAgreement, Unlocked, Grantable, Start;
  }

  ghost predicate Over(s: State) { s.txs.Keys !! s.done.Keys }

  lemma InvariantIsOver(s: State)
    requires Invariant(s)
    ensures Over(s)
  {
    hide GoodLog, Closed, AllOk, Exclusion, AllDoneOk;
  }

  // ----- no deadlock ------------------------------------------------------------------------

  ghost function Wants(s: State, tx: Tx): set<Lock> {
    match Next(s.log, s.clock, s.foreign, tx)
    case Take(lock, _) => {lock}
    case _ => {}
  }

  /** The lock manager's view of a state. */
  ghost function LockView(s: State): WaitTable {
    map t | t in s.txs :: Session(s.txs[t].held, Wants(s, s.txs[t]))
  }

  lemma EverybodyFollowsOrder(s: State)
    requires Invariant(s)
    ensures AllFollowOrder(LockView(s))
  {
    forall t | t in s.txs ensures FollowsOrder(LockView(s)[t]) {
      Steps(s.log, s.clock, s.foreign, s.txs[t]);
    }
  }

  /** In no reachable state does a chain of waiting transactions close on itself. */
  lemma NoDeadlock(clock: Instant, actions: seq<Action>, path: seq<TxId>)
    requires |path| >= 2 && path[0] == path[|path| - 1]
    ensures !WaitingChain(LockView(Execute(clock, actions)), path)
  {
    Reachable(clock, actions);
    EverybodyFollowsOrder(Execute(clock, actions));
    NoWaitingCycle(LockView(Execute(clock, actions)), path);
  }

  /** All a payment may hold or ask for: its identity, its agreement shared, its participant exclusively. */
  ghost function PaymentLockSet(p: Payment): set<Lock> {
    {Exclusive(PaymentIdentity(p.id)), Shared(RowOfAgreement(p.agreement)), Exclusive(RowOfParticipant(p.agreement, p.member))}
  }

  lemma PaymentHolds(u: Tx, p: Payment)
    requires u.req == CreatePayment(p) && HeldOk(u)
    ensures u.held <= PaymentLockSet(p)
    ensures u.pc == 0 && u.queue != [] ==> Exclusive(u.queue[0]) in PaymentLockSet(p)
  {
    assert IdentityKeys(u.req) == [PaymentIdentity(p.id)];
  }

  lemma PaymentWants(s: State, u: Tx, p: Payment)
    requires u.req == CreatePayment(p) && HeldOk(u)
    ensures Wants(s, u) <= PaymentLockSet(p)
  {
    PaymentHolds(u, p);
    hide HeldOk, IdentityKeys, FindPayment, FindAgreement, FindVoidOf, FindParticipant, Paid, SummaryOf;
    assert Next(s.log, s.clock, s.foreign, u) == NextPayment(s.log, s.clock, s.foreign, u, p);
  }

  /** Payments of different identities to different participants never wait for each other, not even within one agreement. */
  lemma PaymentsRunSideBySide(clock: Instant, actions: seq<Action>, t: TxId, u: TxId, p: Payment, q: Payment)
    requires t in Execute(clock, actions).txs && Execute(clock, actions).txs[t].req == CreatePayment(p)
    requires u in Execute(clock, actions).txs && Execute(clock, actions).txs[u].req == CreatePayment(q)
    requires p.id != q.id && (p.agreement, p.member) != (q.agreement, q.member)
    ensures !Waits(LockView(Execute(clock, actions)), t, u)
  {
    hide *;
    Reachable(clock, actions);
    InvariantHolds(Execute(clock, actions), t);
    InvariantHolds(Execute(clock, actions), u);
    PaymentsApart(Execute(clock, actions), t, u, p, q);
  }

  lemma InvariantHolds(s: State, t: TxId)
    requires Invariant(s) && t in s.txs
    ensures HeldOk(s.txs[t])
  {
    hide GoodLog, Closed, Exclusion, AllDoneOk, HeldOk, FactsOk;
  }

  lemma PaymentsApart(s: State, t: TxId, u: TxId, p: Payment, q: Payment)
    requires t in s.txs && u in s.txs && HeldOk(s.txs[t]) && HeldOk(s.txs[u])
    requires s.txs[t].req == CreatePayment(p) && s.txs[u].req == CreatePayment(q)
    requires p.id != q.id && (p.agreement, p.member) != (q.agreement, q.member)
    ensures !Waits(LockView(s), t, u)
  {
    hide HeldOk, Wants;
    PaymentWants(s, s.txs[t], p);
    PaymentHolds(s.txs[u], q);
    assert LockView(s)[t].wants <= PaymentLockSet(p) && LockView(s)[u].held <= PaymentLockSet(q);
    forall w, h | w in PaymentLockSet(p) && h in PaymentLockSet(q) ensures Compatible(w, h) {}
  }

  /** Statements a transaction has left at most. */
  function Remaining(tx: Tx): nat {
    if tx.pc > 12 then |tx.queue| else 8 * (12 - tx.pc) + |tx.queue|
  }

  lemma Advances(log: Log, clock: Instant, foreign: set<Id>, tx: Tx)
    requires TxOk(log, tx)
    ensures match Next(log, clock, foreign, tx)
            case Goto(n) => Remaining(n) < Remaining(tx)
            case Take(_, n) => Remaining(n) < Remaining(tx)
            case _ => true
  {
    hide GoodLog, IdentityKeys, Extra, Paid, SummaryOf, Work, WorkWithout;
    hide FindPayment, FindReversal, FindReversalOf, FindVoid, FindVoidOf, FindAgreement, FindParticipant, FindShift, FindCorrection, FindCorrectionOf;
    match tx.req
    case CreatePayment(p) => assert Next(log, clock, foreign, tx) == NextPayment(log, clock, foreign, tx, p);
    case ReversePayment(r) => assert Next(log, clock, foreign, tx) == NextReversal(log, clock, foreign, tx, r);
    case VoidAgreement(v) => assert Next(log, clock, foreign, tx) == NextVoid(log, clock, foreign, tx, v);
    case CreateShift(s) => assert Next(log, clock, foreign, tx) == NextShift(log, foreign, tx, s);
    case CorrectShift(c) => assert Next(log, clock, foreign, tx) == NextCorrection(log, foreign, tx, c);
  }

  /** An unblocked statement really moves its transaction. */
  lemma UnblockedMoves(s: State, t: TxId)
    requires Invariant(s) && t in s.txs && !Blocked(LockView(s), t)
    ensures var s' := RunOne(s, t);
            && (t in s'.txs ==> s'.txs == s.txs[t := s'.txs[t]] && Remaining(s'.txs[t]) < Remaining(s.txs[t]))
            && (t !in s'.txs ==> s'.txs == s.txs - {t})
  {
    Advances(s.log, s.clock, s.foreign, s.txs[t]);
    hide Next, TxOk, GoodLog, Remaining;
    var view := LockView(s);
    match Next(s.log, s.clock, s.foreign, s.txs[t])
    case Take(lock, n) =>
      forall u | u in s.txs && u != t ensures Unlocked(s.txs[u], lock) {
        forall h | h in s.txs[u].held ensures Compatible(lock, h) {
          assert lock in view[t].wants && h in view[u].held;
          assert !Compatible(lock, h) ==> Waits(view, t, u);
        }
      }
      HeldDoesNotCount(n, n.held + {lock});
    case _ =>
  }

  lemma HeldDoesNotCount(tx: Tx, held: set<Lock>)
    ensures Remaining(tx.(held := held)) == Remaining(tx)
  {
  }

  /** Runs the listed transactions, one statement each. */
  function RunAll(s: State, schedule: seq<TxId>): State
    decreases |schedule|
  {
    if schedule == [] then s else RunAll(Apply(s, Run(schedule[0])), schedule[1..])
  }

  lemma SomebodyMoves(s: State) returns (t: TxId)
    requires Invariant(s) && s.txs != map[]
    ensures t in s.txs && Invariant(RunOne(s, t)) && TotalOf(RunOne(s, t).txs, Remaining) < TotalOf(s.txs, Remaining)
  {
    EverybodyFollowsOrder(s);
    assert LockView(s).Keys == s.txs.Keys && s.txs.Keys != {};
    t := SomebodyRuns(LockView(s));
    hide Invariant, RunOne, Remaining;
    UnblockedMoves(s, t);
    RunKeeps(s, t);
    TotalDrops(s.txs, Remaining, t, RunOne(s, t).txs);
  }

  /**
   * Nobody can get stuck: from any state that keeps the invariant there is an order in
   * which every running transaction reaches its own end, with nobody aborted on the way.
   */
  lemma {:induction false} EverybodyCanFinish(s: State) returns (schedule: seq<TxId>)
    requires Invariant(s)
    ensures RunAll(s, schedule).txs == map[]
    decreases TotalOf(s.txs, Remaining)
  {
    hide Invariant, RunOne;
    if s.txs == map[] {
      schedule := [];
    } else {
      var t := SomebodyMoves(s);
      var rest := EverybodyCanFinish(RunOne(s, t));
      schedule := [t] + rest;
      assert schedule[1..] == rest;
    }
  }

  lemma EveryRunCanFinish(clock: Instant, actions: seq<Action>) returns (schedule: seq<TxId>)
    ensures RunAll(Execute(clock, actions), schedule).txs == map[]
  {
    Reachable(clock, actions);
    schedule := EverybodyCanFinish(Execute(clock, actions));
  }
}
