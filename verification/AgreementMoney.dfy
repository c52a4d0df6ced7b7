/**
 * What a period has committed, told by an account that books each agreement and takes
 * its amount back at its void; and what is available, told by the last row that says so.
 */
module AgreementMoney {
  import opened Basics
  import opened AgreementLedger

  /** What a void takes back from a period: the amount of the agreement it ends. */
  ghost function Released(before: Log, agreement: Id, period: Period): int {
    match FindAgreement(before, agreement)
    case Some(a) => if a.req.period == period then a.req.amount else 0
    case None => 0
  }

  /** Agreements booked minus agreements voided. */
  ghost function Live(log: Log, period: Period): int {
    if log == [] then 0 else
      var before, row := log[..|log| - 1], log[|log| - 1];
      Live(before, period)
      + (if row.Agreed? && row.req.period == period then row.req.amount else 0)
      - (if row.Voided? then Released(before, row.agreement, period) else 0)
  }

  ghost predicate DistinctAgreements(log: Log) {
    forall i, j :: 0 <= i < j < |log| && log[i].Agreed? && log[j].Agreed? ==> log[i].req.id != log[j].req.id
  }

  lemma OneAgreement(log: Log, a: Row, b: Row)
    requires GoodLog(log) && a in log && b in log && a.Agreed? && b.Agreed? && a.req.id == b.req.id
    ensures a == b
  {
    var i :| 0 <= i < |log| && log[i] == a;
    var j :| 0 <= j < |log| && log[j] == b;
    if i < j { AgreementsAreUnique(log, i, j); }
    if j < i { AgreementsAreUnique(log, j, i); }
  }

  lemma AreDistinct(log: Log)
    requires GoodLog(log)
    ensures DistinctAgreements(log)
  {
    forall i, j | 0 <= i < j < |log| && log[i].Agreed? && log[j].Agreed? ensures log[i].req.id != log[j].req.id {
      AgreementsAreUnique(log, i, j);
    }
  }

  /** Leaving out one agreement more frees exactly its amount in its period. */
  lemma {:induction false} WithoutOne(log: Log, period: Period, gone: set<Id>, a: Row)
    requires a.Agreed? && a.req.id !in gone && DistinctAgreements(log)
    requires forall r :: r in log && r.Agreed? && r.req.id == a.req.id ==> r == a
    ensures CommittedWithout(log, period, gone)
         == CommittedWithout(log, period, gone + {a.req.id}) + if a in log && a.req.period == period then a.req.amount else 0
  {
    if log != [] {
      var before, row := log[..|log| - 1], log[|log| - 1];
      assert log == before + [row];
      WithoutOne(before, period, gone, a);
      if row.Agreed? && row.req.id == a.req.id {
        assert row == a && a !in before;
      }
    }
  }

  /** A void takes exactly its agreement's amount off its period, and nothing off any other. */
  lemma VoidReleases(log: Log, id: Id, a: Row, period: Period)
    requires GoodLog(log) && a in log && a.Agreed? && NotVoided(log, a.req.id)
    ensures Committed(log + [Voided(id, a.req.id)], period) == Committed(log, period) - if a.req.period == period then a.req.amount else 0
  {
    var next := log + [Voided(id, a.req.id)];
    assert next[..|log|] == log;
    VoidedAppend(log, Voided(id, a.req.id));
    AreDistinct(log);
    forall r | r in log && r.Agreed? && r.req.id == a.req.id ensures r == a { OneAgreement(log, r, a); }
    WithoutOne(log, period, VoidedIn(log), a);
  }

  /** What the service sums, agreements without a void, is what the account says. */
  lemma {:induction false} CommittedIsLive(log: Log, period: Period)
    requires GoodLog(log)
    ensures Committed(log, period) == Live(log, period)
  {
    if log != [] {
      var before, row := log[..|log| - 1], log[|log| - 1];
      assert log == before + [row];
      CommittedIsLive(before, period);
      if row.Voided? {
        VoidReleases(before, row.id, FindAgreement(before, row.agreement).value, period);
      } else {
        VoidedAppend(before, row);
        if row.Agreed? { VoidsHaveTargets(before, row.req.id); }
      }
    }
  }

  lemma {:induction false} NothingNegative(log: Log, period: Period, gone: set<Id>)
    requires forall r :: r in log && r.Agreed? ==> r.req.amount > 0
    ensures CommittedWithout(log, period, gone) >= 0
  {
    if log != [] {
      assert log == log[..|log| - 1] + [log[|log| - 1]];
      NothingNegative(log[..|log| - 1], period, gone);
    }
  }

  lemma LiveIsNotNegative(log: Log, period: Period)
    requires GoodLog(log)
    ensures Live(log, period) >= 0
  {
    AmountsPositive(log);
    NothingNegative(log, period, VoidedIn(log));
    CommittedIsLive(log, period);
  }

  // ----- what is available ------------------------------------------------------------------------

  ghost predicate SaysNothing(log: Log, period: Period, from: nat) {
    forall j :: from <= j < |log| && log[j].Available? ==> log[j].period != period
  }

  /** The last row about the period says this amount, or no row says anything and it is 0. */
  ghost predicate LastAvailable(log: Log, period: Period, amount: int) {
    || (exists i :: 0 <= i < |log| && log[i] == Available(period, amount) && SaysNothing(log, period, i + 1))
    || (amount == 0 && SaysNothing(log, period, 0))
  }

  lemma {:induction false} AvailableIsLast(log: Log, period: Period, amount: int)
    ensures LastAvailable(log, period, amount) <==> amount == AvailableIn(log, period)
  {
    if log != [] {
      var before, row := log[..|log| - 1], log[|log| - 1];
      AvailableIsLast(before, period, amount);
      if row.Available? && row.period == period {
        assert log[|log| - 1] == Available(period, row.amount) && SaysNothing(log, period, |log|);
        assert !SaysNothing(log, period, 0);
        forall i: nat | i < |log| ensures !SaysNothing(log, period, i) { assert log[|log| - 1].period == period; }
      } else {
        forall i: nat | i <= |before| ensures SaysNothing(log, period, i) <==> SaysNothing(before, period, i) {
          if SaysNothing(before, period, i) {
            forall j | i <= j < |log| && log[j].Available? ensures log[j].period != period { if j < |before| { assert log[j] == before[j]; } }
          }
          if SaysNothing(log, period, i) {
            forall j | i <= j < |before| && before[j].Available? ensures before[j].period != period { assert log[j] == before[j]; }
          }
        }
        if i :| 0 <= i < |log| && log[i] == Available(period, amount) && SaysNothing(log, period, i + 1) { assert before[i] == log[i]; }
        if i :| 0 <= i < |before| && before[i] == Available(period, amount) && SaysNothing(before, period, i + 1) { assert log[i] == before[i]; }
      }
    }
  }
}
