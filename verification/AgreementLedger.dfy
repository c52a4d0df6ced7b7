/**
 * Committed agreements, voids and changes of a period's available money, as one
 * append-only log, and what holds of every log the creation protocol can write.
 */
module AgreementLedger {
  import opened Basics
  import opened Decimal

  /** An exact period, from its first day to the day after its last. */
  datatype Period = Period(from: int, to: int)

  /** A normalized creation request; its fingerprint is modelled by its content. */
  datatype Request = Request(id: Id, period: Period, amount: int, supersedes: Option<Id>, terms: string)

  /**
   * A committed creation also carries how much of the log its snapshot had seen.
   * What it distributes is exactly what it requested.
   */
  datatype Row =
    | Agreed(req: Request, year: nat, number: nat, seen: nat)
    | Voided(id: Id, agreement: Id)
    | Available(period: Period, amount: int)

  type Log = seq<Row>

  function Folio(row: Row): string
    requires row.Agreed?
  {
    FormatFolio(row.year, row.number)
  }

  // ----- reading a snapshot ------------------------------------------------------------------

  ghost predicate NoAgreement(log: Log, id: Id) { forall r :: r in log && r.Agreed? ==> r.req.id != id }
  ghost predicate NotVoided(log: Log, id: Id) { forall r :: r in log && r.Voided? ==> r.agreement != id }
  ghost predicate NotReplaced(log: Log, id: Id) { forall r :: r in log && r.Agreed? ==> r.req.supersedes != Some(id) }
  ghost predicate NoneOfYear(log: Log, year: nat) { forall r :: r in log && r.Agreed? ==> r.year != year }

  function FindAgreement(log: Log, id: Id): (found: Option<Row>)
    ensures found.Some? ==> found.value in log && found.value.Agreed? && found.value.req.id == id
    ensures found.None? <==> NoAgreement(log, id)
  {
    Latest(log, (r: Row) => r.Agreed? && r.req.id == id)
  }

  predicate IsVoided(log: Log, id: Id)
    ensures IsVoided(log, id) <==> !NotVoided(log, id)
  {
    Latest(log, (r: Row) => r.Voided? && r.agreement == id).Some?
  }

  predicate IsReplaced(log: Log, id: Id)
    ensures IsReplaced(log, id) <==> !NotReplaced(log, id)
  {
    Latest(log, (r: Row) => r.Agreed? && r.req.supersedes == Some(id)).Some?
  }

  predicate TakenInYear(log: Log, year: nat)
    ensures TakenInYear(log, year) <==> !NoneOfYear(log, year)
  {
    Latest(log, (r: Row) => r.Agreed? && r.year == year).Some?
  }

  /** What may be replaced: another agreement, once it is voided, by one successor only. */
  predicate ReplacementValid(log: Log, id: Id, supersedes: Option<Id>) {
    match supersedes
    case None => true
    case Some(target) => target != id && FindAgreement(log, target).Some? && IsVoided(log, target) && !IsReplaced(log, target)
  }

  /** The available money of a period, as last recorded. */
  function AvailableIn(log: Log, period: Period): int {
    if log == [] then 0 else
      var r := log[|log| - 1];
      if r.Available? && r.period == period then r.amount else AvailableIn(log[..|log| - 1], period)
  }

  function VoidedIn(log: Log): set<Id> {
    set r | r in log && r.Voided? :: r.agreement
  }

  function CommittedWithout(log: Log, period: Period, gone: set<Id>): int {
    if log == [] then 0 else
      var r := log[|log| - 1];
      CommittedWithout(log[..|log| - 1], period, gone)
      + if r.Agreed? && r.req.period == period && r.req.id !in gone then r.req.amount else 0
  }

  /** The sum over a period of its agreements that no void has ended. */
  function Committed(log: Log, period: Period): int {
    CommittedWithout(log, period, VoidedIn(log))
  }

  /** The part of the available amount that no live agreement uses, or 0. */
  function Free(available: int, committed: int): int {
    if available - committed > 0 then available - committed else 0
  }

  function CountOfYear(log: Log, year: nat): nat {
    if log == [] then 0 else
      CountOfYear(log[..|log| - 1], year)
      + if log[|log| - 1].Agreed? && log[|log| - 1].year == year then 1 else 0
  }

  // ----- what the protocol writes ---------------------------------------------------------------

  ghost predicate Admissible(log: Log, row: Row) {
    match row
    case Agreed(req, year, number, seen) =>
      && seen <= |log| && req.amount > 0
      && NoAgreement(log, req.id)
      && (req.supersedes.Some? ==> NotReplaced(log, req.supersedes.value))
      && NoneOfYear(log[seen..], year)
      && number == CountOfYear(log, year) + 1
      && ReplacementValid(log[..seen], req.id, req.supersedes)
      && Committed(log[..seen], req.period) + req.amount <= AvailableIn(log[..seen], req.period)
    case Voided(_, agreement) => !NoAgreement(log, agreement) && NotVoided(log, agreement)
    case Available(_, _) => true
  }

  ghost predicate GoodLog(log: Log) {
    |log| > 0 ==> GoodLog(log[..|log| - 1]) && Admissible(log[..|log| - 1], log[|log| - 1])
  }

  lemma GoodLogGrows(log: Log, row: Row)
    requires GoodLog(log) && Admissible(log, row)
    ensures GoodLog(log + [row])
  {
    assert (log + [row])[..|log|] == log;
  }

  lemma {:induction false} PrefixGood(log: Log, n: nat)
    requires GoodLog(log) && n <= |log|
    ensures GoodLog(log[..n])
    ensures n < |log| ==> Admissible(log[..n], log[n])
  {
    if n < |log| {
      PrefixGood(log[..|log| - 1], n);
      assert log[..|log| - 1][..n] == log[..n];
    } else {
      assert log[..n] == log;
    }
  }

  // ----- snapshots --------------------------------------------------------------------------------

  /** A later creation of the same folio year had seen every earlier one. */
  lemma SnapshotSeesSameYear(log: Log, i: nat, j: nat)
    requires GoodLog(log) && i < j < |log| && log[i].Agreed? && log[j].Agreed? && log[i].year == log[j].year
    ensures i < log[j].seen
  {
    PrefixGood(log, j);
    if log[j].seen <= i { InTail(log[..j], log[j].seen, i); }
  }

  lemma InTail(log: Log, n: nat, i: nat)
    requires n <= i < |log|
    ensures log[i] in log[n..]
  {
    assert log[n..][i - n] == log[i];
  }

  // ----- folios ------------------------------------------------------------------------------------

  lemma {:induction false} CountGrows(log: Log, n: nat, year: nat)
    requires n <= |log|
    ensures CountOfYear(log[..n], year) <= CountOfYear(log, year)
  {
    if n < |log| {
      CountGrows(log[..|log| - 1], n, year);
      assert log[..|log| - 1][..n] == log[..n];
    } else {
      assert log[..n] == log;
    }
  }

  lemma NumbersAscend(log: Log, i: nat, j: nat)
    requires GoodLog(log) && i < j < |log| && log[i].Agreed? && log[j].Agreed? && log[i].year == log[j].year
    ensures log[i].number < log[j].number
  {
    NumberIs(log, i);
    NumberIs(log, j);
    hide GoodLog, CountOfYear;
    assert log[..j][..i + 1] == log[..i + 1];
    CountGrows(log[..j], i + 1, log[i].year);
  }

  /** A number is one more than the count before it, and the count after it. */
  lemma NumberIs(log: Log, i: nat)
    requires GoodLog(log) && i < |log| && log[i].Agreed?
    ensures log[i].number == CountOfYear(log[..i], log[i].year) + 1 == CountOfYear(log[..i + 1], log[i].year)
  {
    PrefixGood(log, i);
    hide GoodLog, NoneOfYear, ReplacementValid, Committed, AvailableIn;
    var next := log[..i + 1];
    assert next[..i] == log[..i] && next[i] == log[i];
  }

  /** Numbers of one year ascend along the log and folio strings never repeat, in any years. */
  lemma FoliosAreDistinct(log: Log, i: nat, j: nat)
    requires GoodLog(log) && i < j < |log| && log[i].Agreed? && log[j].Agreed?
    ensures log[i].year == log[j].year ==> log[i].number < log[j].number
    ensures Folio(log[i]) != Folio(log[j])
  {
    if log[i].year == log[j].year { NumbersAscend(log, i, j); }
    hide GoodLog, FormatFolio;
    if Folio(log[i]) == Folio(log[j]) {
      FolioIsInjective(log[i].year, log[i].number, log[j].year, log[j].number);
    }
  }

  /** No gaps: each number from 1 to the count of its year was given to exactly one creation. */
  lemma {:induction false} FoliosHaveNoGaps(log: Log, year: nat, number: nat) returns (i: nat)
    requires GoodLog(log) && 1 <= number <= CountOfYear(log, year)
    ensures i < |log| && log[i].Agreed? && log[i].year == year && log[i].number == number
  {
    var last := log[|log| - 1];
    if last.Agreed? && last.year == year && last.number == number {
      i := |log| - 1;
    } else {
      i := FoliosHaveNoGaps(log[..|log| - 1], year, number);
    }
  }

  /** And no number beyond the count is ever given. */
  lemma FoliosStayWithinCount(log: Log, i: nat)
    requires GoodLog(log) && i < |log| && log[i].Agreed?
    ensures 1 <= log[i].number <= CountOfYear(log, log[i].year)
  {
    PrefixGood(log, i);
    assert log[..i + 1][..i] == log[..i];
    CountGrows(log, i + 1, log[i].year);
  }

  // ----- replacements --------------------------------------------------------------------------------

  /** Each agreement has one row, and is replaced at most once. */
  lemma AgreementsAreUnique(log: Log, i: nat, j: nat)
    requires GoodLog(log) && i < j < |log| && log[i].Agreed? && log[j].Agreed?
    ensures log[i].req.id != log[j].req.id
    ensures log[j].req.supersedes.Some? ==> log[i].req.supersedes != log[j].req.supersedes
  {
    PrefixGood(log, j);
    assert log[i] in log[..j];
  }

  /**
   * A replacement points to an earlier, already voided agreement. Links therefore only go
   * back along the log: no chain of replacements can close on itself.
   */
  lemma ReplacementPointsBack(log: Log, j: nat) returns (i: nat)
    requires GoodLog(log) && j < |log| && log[j].Agreed? && log[j].req.supersedes.Some?
    ensures i < j && log[i].Agreed? && Some(log[i].req.id) == log[j].req.supersedes
    ensures exists k :: i < k < j && log[k].Voided? && log[k].agreement == log[i].req.id
  {
    PrefixGood(log, j);
    var view, target := log[..j][..log[j].seen], log[j].req.supersedes.value;
    var row := FindAgreement(view, target).value;
    i :| 0 <= i < |view| && view[i] == row;
    var v :| v in view && v.Voided? && v.agreement == target;
    var k :| 0 <= k < |view| && view[k] == v;
    assert log[i] == row && log[k] == v;
    PrefixGood(log, k);
    var r :| r in log[..k] && r.Agreed? && r.req.id == target;
    var l :| 0 <= l < k && log[l] == r;
    if l < i { AgreementsAreUnique(log, l, i); }
    if i < l { AgreementsAreUnique(log, i, l); }
  }

  // ----- money ---------------------------------------------------------------------------------------

  lemma VoidedAppend(log: Log, row: Row)
    ensures row.Voided? ==> VoidedIn(log + [row]) == VoidedIn(log) + {row.agreement}
    ensures !row.Voided? ==> VoidedIn(log + [row]) == VoidedIn(log)
  {
    var next := log + [row];
    forall id ensures id in VoidedIn(next) <==> id in VoidedIn(log) || (row.Voided? && id == row.agreement) {
      if id in VoidedIn(log) {
        var r :| r in log && r.Voided? && r.agreement == id;
        assert r in next;
      }
      if row.Voided? { assert row in next; }
    }
  }

  lemma {:induction false} VoidingReleases(log: Log, period: Period, gone: set<Id>, more: set<Id>)
    requires gone <= more && (forall r :: r in log && r.Agreed? ==> r.req.amount > 0)
    ensures CommittedWithout(log, period, more) <= CommittedWithout(log, period, gone)
  {
    if log != [] {
      assert log == log[..|log| - 1] + [log[|log| - 1]];
      VoidingReleases(log[..|log| - 1], period, gone, more);
    }
  }

  lemma {:induction false} AmountsPositive(log: Log)
    requires GoodLog(log)
    ensures forall r :: r in log && r.Agreed? ==> r.req.amount > 0
  {
    if log != [] {
      AmountsPositive(log[..|log| - 1]);
      assert log == log[..|log| - 1] + [log[|log| - 1]];
    }
  }

  lemma {:induction false} VoidsHaveTargets(log: Log, id: Id)
    requires GoodLog(log) && NoAgreement(log, id)
    ensures id !in VoidedIn(log)
  {
    if log != [] {
      var before, row := log[..|log| - 1], log[|log| - 1];
      assert log == before + [row];
      VoidsHaveTargets(before, id);
      VoidedAppend(before, row);
    }
  }

  /** How one more row moves the committed amount. */
  lemma CommittedAppend(log: Log, row: Row, period: Period)
    requires GoodLog(log) && Admissible(log, row)
    ensures row.Agreed? && row.req.period == period ==> Committed(log + [row], period) == Committed(log, period) + row.req.amount
    ensures !(row.Agreed? && row.req.period == period) ==> Committed(log + [row], period) <= Committed(log, period)
  {
    assert (log + [row])[..|log|] == log;
    VoidedAppend(log, row);
    AmountsPositive(log);
    VoidingReleases(log, period, VoidedIn(log), VoidedIn(log + [row]));
    if row.Agreed? { VoidsHaveTargets(log, row.req.id); }
  }

  /** Money agreed for the period, since a snapshot, in other folio years: what that snapshot's creation cannot notice. */
  function Unseen(log: Log, seen: nat, period: Period, year: nat): nat {
    if |log| <= seen then 0 else
      var r := log[|log| - 1];
      Unseen(log[..|log| - 1], seen, period, year)
      + if r.Agreed? && r.req.period == period && r.year != year && r.req.amount > 0 then r.req.amount else 0
  }

  lemma {:induction false} CommittedSince(log: Log, seen: nat, period: Period, year: nat)
    requires GoodLog(log) && seen <= |log| && NoneOfYear(log[seen..], year)
    ensures Committed(log, period) <= Committed(log[..seen], period) + Unseen(log, seen, period, year)
  {
    if seen < |log| {
      var before, row := log[..|log| - 1], log[|log| - 1];
      assert log == before + [row] && before[..seen] == log[..seen] && log[seen..] == before[seen..] + [row];
      assert row in log[seen..];
      forall r | r in before[seen..] && r.Agreed? ensures r.year != year { assert r in log[seen..]; }
      CommittedSince(before, seen, period, year);
      CommittedAppend(before, row, period);
    } else {
      assert log[..seen] == log;
    }
  }

  lemma CommitBound(before: Log, row: Row)
    requires GoodLog(before) && row.Agreed? && Admissible(before, row)
    ensures Committed(before + [row], row.req.period)
         <= AvailableIn(before[..row.seen], row.req.period) + Unseen(before, row.seen, row.req.period, row.year)
  {
    CommittedSince(before, row.seen, row.req.period, row.year);
    CommittedAppend(before, row, row.req.period);
  }

  /**
   * A commit leaves the live total of its period within the available amount it read,
   * plus only what other folio years agreed for that period behind its snapshot.
   */
  lemma CommitStaysWithinAvailable(log: Log, j: nat)
    requires GoodLog(log) && j < |log| && log[j].Agreed?
    ensures log[j].seen <= j
    ensures Committed(log[..j + 1], log[j].req.period)
         <= AvailableIn(log[..log[j].seen], log[j].req.period) + Unseen(log[..j], log[j].seen, log[j].req.period, log[j].year)
  {
    var before, row := log[..j], log[j];
    PrefixGood(log, j);
    assert row.seen <= j;
    hide *;
    CommitBound(before, row);
    Prefixes(log, row.seen, j);
  }

  lemma Prefixes(log: Log, n: nat, j: nat)
    requires n <= j < |log|
    ensures log[..j][..n] == log[..n] && log[..j] + [log[j]] == log[..j + 1]
  {
  }

  /** Within one folio year nothing is unseen. */
  ghost predicate OneYear(log: Log, period: Period, year: nat) {
    forall r :: r in log && r.Agreed? && r.req.period == period ==> r.year == year
  }

  lemma {:induction false} NothingUnseen(log: Log, seen: nat, period: Period, year: nat)
    requires OneYear(log, period, year)
    ensures Unseen(log, seen, period, year) == 0
  {
    if |log| > seen {
      var before, row := log[..|log| - 1], log[|log| - 1];
      assert log == before + [row];
      NothingUnseen(before, seen, period, year);
    }
  }

  ghost predicate NeverDrops(log: Log, period: Period) {
    |log| > 0 ==>
      && NeverDrops(log[..|log| - 1], period)
      && AvailableIn(log[..|log| - 1], period) <= AvailableIn(log, period)
  }

  lemma {:induction false} AvailableGrows(log: Log, n: nat, period: Period)
    requires NeverDrops(log, period) && n <= |log|
    ensures AvailableIn(log[..n], period) <= AvailableIn(log, period)
  {
    if n < |log| {
      AvailableGrows(log[..|log| - 1], n, period);
      assert log[..|log| - 1][..n] == log[..n];
    } else {
      assert log[..n] == log;
    }
  }

  /** The same money is never agreed twice: within one folio year, if the available amount never drops, the live total never exceeds it. */
  lemma {:induction false} NeverAgreedTwice(log: Log, period: Period, year: nat)
    requires GoodLog(log) && OneYear(log, period, year) && NeverDrops(log, period)
    ensures Committed(log, period) <= AvailableIn(log, period)
  {
    if log != [] {
      var before, row := log[..|log| - 1], log[|log| - 1];
      assert log == before + [row];
      assert OneYear(before, period, year);
      if row.Agreed? && row.req.period == period {
        CommitBound(before, row);
        NothingUnseen(before, row.seen, period, year);
        AvailableGrows(before, row.seen, period);
      } else {
        NeverAgreedTwice(before, period, year);
        CommittedAppend(before, row, period);
      }
    }
  }
}
