/**
 * Agreement creation over every run: folios, replacements, replays, and exactly when
 * the same money can be agreed twice.
 */
module AgreementTheorems {
  import opened Basics
  import opened AgreementLedger
  import opened AgreementSessions

  /**
   * In every run: a later creation of the same folio year had seen every earlier one, and
   * each commit left its period within the available amount it read, plus only what other
   * folio years agreed behind its snapshot.
   */
  lemma CreationsSeeEachOther(year: nat, actions: seq<Action>, i: nat, j: nat)
    ensures var log := Execute(year, actions).log;
            i < j < |log| && log[i].Agreed? && log[j].Agreed? && log[i].year == log[j].year ==> i < log[j].seen
    ensures var log := Execute(year, actions).log;
            j < |log| && log[j].Agreed? ==>
              && log[j].seen <= j
              && Committed(log[..j + 1], log[j].req.period)
                 <= AvailableIn(log[..log[j].seen], log[j].req.period) + Unseen(log[..j], log[j].seen, log[j].req.period, log[j].year)
  {
    Reachable(year, actions);
    var log := Execute(year, actions).log;
    if i < j < |log| && log[i].Agreed? && log[j].Agreed? && log[i].year == log[j].year { SnapshotSeesSameYear(log, i, j); }
    if j < |log| && log[j].Agreed? { CommitStaysWithinAvailable(log, j); }
  }

  /**
   * Folios in every run: the numbers of a year are exactly 1 to its count, each given once;
   * the stored counter holds that count, so replays, refusals and failed attempts consume
   * none; folio strings are distinct across all years.
   */
  lemma FoliosAreGapless(year: nat, actions: seq<Action>, y: nat, number: nat)
    ensures var s := Execute(year, actions);
            && NextNumber(s.counters, y) == CountOfYear(s.log, y) + 1
            && (1 <= number <= CountOfYear(s.log, y) <==>
                  exists i :: 0 <= i < |s.log| && s.log[i].Agreed? && s.log[i].year == y && s.log[i].number == number)
            && (forall i, j :: 0 <= i < j < |s.log| && s.log[i].Agreed? && s.log[j].Agreed? ==> Folio(s.log[i]) != Folio(s.log[j]))
  {
    Reachable(year, actions);
    var s := Execute(year, actions);
    if 1 <= number <= CountOfYear(s.log, y) {
      var i := FoliosHaveNoGaps(s.log, y, number);
    }
    forall i | 0 <= i < |s.log| && s.log[i].Agreed? ensures 1 <= s.log[i].number <= CountOfYear(s.log, s.log[i].year) {
      FoliosStayWithinCount(s.log, i);
    }
    forall i, j | 0 <= i < j < |s.log| && s.log[i].Agreed? && s.log[j].Agreed? ensures Folio(s.log[i]) != Folio(s.log[j]) {
      FoliosAreDistinct(s.log, i, j);
    }
  }

  /** Replacement links in every run: injective, and each points back to an agreement voided before it. */
  lemma ReplacementsAreSound(year: nat, actions: seq<Action>, j: nat)
    ensures var log := Execute(year, actions).log;
            j < |log| && log[j].Agreed? && log[j].req.supersedes.Some? ==>
              && (exists i, k :: 0 <= i < k < j && log[i].Agreed? && Some(log[i].req.id) == log[j].req.supersedes
                                 && log[k].Voided? && log[k].agreement == log[i].req.id)
              && (forall i :: 0 <= i < |log| && i != j && log[i].Agreed? ==> log[i].req.supersedes != log[j].req.supersedes)
  {
    Reachable(year, actions);
    var log := Execute(year, actions).log;
    if j < |log| && log[j].Agreed? && log[j].req.supersedes.Some? {
      var i := ReplacementPointsBack(log, j);
      var k :| i < k < j && log[k].Voided? && log[k].agreement == log[i].req.id;
      forall i | 0 <= i < |log| && i != j && log[i].Agreed? ensures log[i].req.supersedes != log[j].req.supersedes {
        if i < j { AgreementsAreUnique(log, i, j); } else { AgreementsAreUnique(log, j, i); }
      }
    }
  }

  /** Each identity is created at most once; created and replayed requests find their own content stored. */
  lemma CreatedAtMostOnce(year: nat, actions: seq<Action>, t: TxId, u: TxId)
    requires t != u
    ensures var s := Execute(year, actions);
            && (t in s.done && u in s.done && s.done[t].outcome == s.done[u].outcome == Created ==> s.done[t].req.id != s.done[u].req.id)
            && (t in s.done && s.done[t].outcome in {Created, Replayed} ==> Recorded(s.log, s.done[t].req))
  {
    Reachable(year, actions);
  }

  /** Agreements and voids are never changed or lost, answers given stay given. */
  lemma {:induction false} NothingIsRewritten(year: nat, actions: seq<Action>, more: seq<Action>)
    ensures var s, s' := Execute(year, actions), Execute(year, actions + more);
            && s.log <= s'.log && s.year <= s'.year
            && (forall t :: t in s.done ==> t in s'.done && s'.done[t] == s.done[t])
    decreases |more|
  {
    hide *;
    if more == [] {
      assert actions + more == actions;
    } else {
      var last := |more| - 1;
      var run := actions + more[..last];
      assert actions + more == run + [more[last]];
      NothingIsRewritten(year, actions, more[..last]);
      DoneIsOver(year, run);
      ExecuteOne(year, run, more[last]);
      OneMore(Execute(year, run), more[last]);
    }
  }

  lemma ExecuteOne(year: nat, actions: seq<Action>, a: Action)
    ensures Execute(year, actions + [a]) == Apply(Execute(year, actions), a)
  {
    assert (actions + [a])[..|actions|] == actions;
  }

  ghost predicate Over(s: State) { s.txs.Keys !! s.done.Keys }

  lemma {:induction false} DoneIsOver(year: nat, actions: seq<Action>)
    ensures Over(Execute(year, actions))
  {
    if actions != [] {
      DoneIsOver(year, actions[..|actions| - 1]);
      hide Next, NextNumber, VoidEnabled;
    }
  }

  lemma OneMore(s: State, a: Action)
    requires Over(s)
    ensures s.log <= Apply(s, a).log && s.year <= Apply(s, a).year
    ensures forall t :: t in s.done ==> t in Apply(s, a).done && Apply(s, a).done[t] == s.done[t]
  {
    hide Next, VoidEnabled;
  }

  // ----- when the same money is agreed twice ---------------------------------------------------

  /** Agreements of the period, made only in the two folio years, exceed an amount that never dropped. */
  ghost predicate AgreedTwice(log: Log, period: Period, y: nat, z: nat) {
    && NeverDrops(log, period)
    && (forall r :: r in log && r.Agreed? && r.req.period == period ==> r.year == y || r.year == z)
    && Committed(log, period) > AvailableIn(log, period)
  }

  /** Within one folio year it never happens, in any run. */
  lemma OneYearIsSafe(start: nat, actions: seq<Action>, period: Period, y: nat)
    ensures !AgreedTwice(Execute(start, actions).log, period, y, y)
  {
    var log := Execute(start, actions).log;
    Reachable(start, actions);
    if AgreedTwice(log, period, y, y) { NeverAgreedTwice(log, period, y); }
  }

  function Play(s: State, actions: seq<Action>): State
    decreases |actions|
  {
    if actions == [] then s else Play(Apply(s, actions[0]), actions[1..])
  }

  lemma {:induction false} PlayFrom(start: nat, before: seq<Action>, after: seq<Action>)
    ensures Execute(start, before + after) == Play(Execute(start, before), after)
    decreases |after|
  {
    if after == [] {
      assert before + after == before;
    } else {
      var next := before + [after[0]];
      assert next[..|next| - 1] == before;
      PlayFrom(start, next, after[1..]);
      assert next + after[1..] == before + after;
    }
  }

  lemma {:induction false} PlayAppend(s: State, a: seq<Action>, b: seq<Action>)
    ensures Play(s, a + b) == Play(Play(s, a), b)
    decreases |a|
  {
    if a == [] {
      assert a + b == b;
    } else {
      PlayAppend(Apply(s, a[0]), a[1..], b);
      assert (a + b)[1..] == a[1..] + b;
    }
  }

  /** `n` consecutive statements of one creation. */
  function Runs(t: TxId, n: nat): seq<Action> {
    if n == 0 then [] else [Run(t)] + Runs(t, n - 1)
  }

  lemma OneRun(s: State, t: TxId, n: nat)
    requires t in s.txs && n > 0
    ensures Play(s, Runs(t, n)) == Play(RunOne(s, t), Runs(t, n - 1))
  {
    assert Runs(t, n)[1..] == Runs(t, n - 1);
  }

  lemma NoRuns(s: State, t: TxId)
    ensures Play(s, Runs(t, 0)) == s
  {
  }

  /** Nobody else holds the identity, nor any counter row. */
  ghost predicate NobodyBusy(s: State, t: TxId) {
    t in s.txs && forall u :: u in s.txs && u != t ==> s.txs[u].pc <= 6 && !HoldsIdentity(s.txs[u], s.txs[t].req.id)
  }

  function At(s: State, t: TxId, tx: Tx): State { s.(txs := s.txs[t := tx]) }

  /** One statement that moves the transaction's own record on. */
  lemma StepTo(s: State, t: TxId, a: Tx, b: Tx, n: nat)
    requires t in s.txs && n > 0 && Next(At(s, t, a), t) == Goto(b)
    ensures Play(At(s, t, a), Runs(t, n)) == Play(At(s, t, b), Runs(t, n - 1))
  {
    hide Next, Runs, Play;
    OneRun(At(s, t, a), t, n);
    assert s.txs[t := a][t := b] == s.txs[t := b];
  }

  /** Statements 1 to 6 of a first request with enough money in its snapshot. */
  lemma ReadsAndPasses(s: State, t: TxId)
    requires NobodyBusy(s, t) && s.txs[t].pc == 1 && s.txs[t].snap <= |s.log|
    requires var tx := s.txs[t]; var view := s.log[..tx.snap];
             && tx.req.supersedes == None && NoAgreement(view, tx.req.id) && Committed(view, tx.req.period) >= 0
             && 0 < tx.req.amount <= AvailableIn(view, tx.req.period) - Committed(view, tx.req.period)
    ensures Play(s, Runs(t, 5)) == At(s, t, s.txs[t].(pc := 6, year := s.year))
  {
    var tx := s.txs[t];
    var t2, t3, t4, t5, t6 := tx.(pc := 2), tx.(pc := 3), tx.(pc := 4), tx.(pc := 5), tx.(pc := 6, year := s.year);
    assert At(s, t, tx) == s;
    assert Next(At(s, t, tx), t) == Goto(t2) && Next(At(s, t, t2), t) == Goto(t3) && Next(At(s, t, t3), t) == Goto(t4);
    assert Next(At(s, t, t4), t) == Goto(t5) && Next(At(s, t, t5), t) == Goto(t6);
    hide Next, NobodyBusy, Committed, AvailableIn, NoAgreement, Runs, At;
    StepTo(s, t, tx, t2, 5); StepTo(s, t, t2, t3, 4); StepTo(s, t, t3, t4, 3); StepTo(s, t, t4, t5, 2); StepTo(s, t, t5, t6, 1);
    NoRuns(At(s, t, t6), t);
  }

  /** Statements 7 to 9: counter, insert, commit, when nobody of that year committed behind the snapshot. */
  lemma WritesAndCommits(s: State, t: TxId)
    requires NobodyBusy(s, t) && s.txs[t].pc == 6 && s.txs[t].snap <= |s.log|
    requires var tx := s.txs[t];
             tx.req.supersedes == None && tx.req.id !in s.foreign && NoAgreement(s.log, tx.req.id) && NoneOfYear(s.log[tx.snap..], tx.year)
    ensures var tx := s.txs[t];
            var end := Play(s, Runs(t, 3));
            && end.log == s.log + [Agreed(tx.req, tx.year, NextNumber(s.counters, tx.year), tx.snap)]
            && end.txs == s.txs - {t} && end.year == s.year && end.foreign == s.foreign
  {
    var tx := s.txs[t];
    var number := NextNumber(s.counters, tx.year);
    var t7, t8 := tx.(pc := 7, number := number), tx.(pc := 8, number := number);
    var s8 := At(s, t, t8);
    assert At(s, t, tx) == s;
    assert Next(At(s, t, tx), t) == Goto(t7) && Next(At(s, t, t7), t) == Goto(t8);
    assert Next(s8, t) == Commit(Agreed(tx.req, tx.year, number, tx.snap));
    hide Next, NobodyBusy, NoAgreement, NoneOfYear, NextNumber, Runs;
    StepTo(s, t, tx, t7, 3); StepTo(s, t, t7, t8, 2);
    OneRun(s8, t, 1);
    NoRuns(RunOne(s8, t), t);
    assert RunOne(s8, t).txs == s.txs - {t};
  }

  /** A whole first request, from its snapshot to its commit. */
  lemma CreatesAlone(s: State, t: TxId)
    requires NobodyBusy(s, t) && s.txs[t].pc == 1 && s.txs[t].snap <= |s.log|
    requires var tx := s.txs[t]; var view := s.log[..tx.snap];
             && tx.req.supersedes == None && Committed(view, tx.req.period) >= 0
             && 0 < tx.req.amount <= AvailableIn(view, tx.req.period) - Committed(view, tx.req.period)
             && tx.req.id !in s.foreign && NoAgreement(s.log, tx.req.id) && NoneOfYear(s.log[tx.snap..], s.year)
    ensures var tx := s.txs[t];
            var end := Play(s, Runs(t, 5) + Runs(t, 3));
            && (exists number :: end.log == s.log + [Agreed(tx.req, s.year, number, tx.snap)])
            && end.txs == s.txs - {t} && end.year == s.year && end.foreign == s.foreign
  {
    var tx := s.txs[t];
    var s6 := At(s, t, tx.(pc := 6, year := s.year));
    PlayAppend(s, Runs(t, 5), Runs(t, 3));
    forall r | r in s.log[..tx.snap] ensures r in s.log {}
    ReadsAndPasses(s, t);
    WritesAndCommits(s6, t);
    assert s6.txs - {t} == s.txs - {t};
  }

  // Two creations of the whole available amount, both with their snapshot taken.
  function Contended(start: nat, p: Period): State {
    State([Available(p, 1)], map[], start, {},
          map[1 := Tx(Request(1, p, 1, None, ""), 1, 1, 1, 0, 0), 2 := Tx(Request(2, p, 1, None, ""), 1, 1, 1, 0, 0)], map[])
  }

  lemma ReachContended(start: nat, p: Period)
    ensures exists actions :: Execute(start, actions) == Contended(start, p)
  {
    var a, b := Request(1, p, 1, None, ""), Request(2, p, 1, None, "");
    var s1 := Initial(start).(log := [Available(p, 1)]);
    var s2 := s1.(txs := map[1 := Tx(a, 1, 0, 0, 0, 0)]);
    var s3 := s1.(txs := map[1 := Tx(a, 1, 1, 1, 0, 0)]);
    var s4 := s1.(txs := map[1 := Tx(a, 1, 1, 1, 0, 0), 2 := Tx(b, 1, 0, 0, 0, 0)]);
    var actions: seq<Action> := [];
    assert Execute(start, actions) == Initial(start);
    actions := Extend(start, actions, SetAvailable(p, 1));
    assert Execute(start, actions) == s1;
    actions := Extend(start, actions, Begin(1, a));
    assert Execute(start, actions) == s2;
    actions := Extend(start, actions, Run(1));
    assert Execute(start, actions) == s3;
    actions := Extend(start, actions, Begin(2, b));
    assert Execute(start, actions) == s4;
    actions := Extend(start, actions, Run(2));
    assert Execute(start, actions) == Contended(start, p);
  }

  lemma Extend(start: nat, actions: seq<Action>, a: Action) returns (more: seq<Action>)
    ensures Execute(start, more) == Apply(Execute(start, actions), a)
  {
    more := actions + [a];
    assert more[..|actions|] == actions;
  }

  /** One commits, the local year turns, and the other commits too: its counter row is another one. */
  lemma TurnOfYear(p: Period, y: nat, z: nat) returns (actions: seq<Action>)
    requires y < z
    ensures AgreedTwice(Play(Contended(y, p), actions).log, p, y, z)
  {
    var s := Contended(y, p);
    var first, second := Runs(1, 5) + Runs(1, 3), Runs(2, 5) + Runs(2, 3);
    assert s.log[..1] == s.log;
    assert s.log[..0] == [] && CommittedWithout(s.log, p, VoidedIn(s.log)) == 0;
    CreatesAlone(s, 1);
    var s1 := Play(s, first);
    var n :| s1.log == s.log + [Agreed(s.txs[1].req, y, n, 1)];
    var s2 := Apply(s1, NewYear(z));
    assert s2.log[..1] == s.log && s2.log[1..] == [Agreed(s.txs[1].req, y, n, 1)];
    CreatesAlone(s2, 2);
    var m :| Play(s2, second).log == s2.log + [Agreed(s.txs[2].req, z, m, 1)];
    actions := first + ([NewYear(z)] + second);
    PlayAppend(s, first, [NewYear(z)] + second);
    assert ([NewYear(z)] + second)[1..] == second;
    BothAgreed(p, s.txs[1].req, s.txs[2].req, y, n, z, m);
  }

  lemma BothAgreed(p: Period, a: Request, b: Request, y: nat, n: nat, z: nat, m: nat)
    requires a.period == b.period == p && a.amount == b.amount == 1
    ensures AgreedTwice([Available(p, 1)] + [Agreed(a, y, n, 1)] + [Agreed(b, z, m, 1)], p, y, z)
  {
    var log1 := [Available(p, 1)];
    var log2 := log1 + [Agreed(a, y, n, 1)];
    var log3 := log2 + [Agreed(b, z, m, 1)];
    assert log3[..2] == log2 && log2[..1] == log1 && log1[..0] == [];
    assert AvailableIn(log2, p) == 1 && AvailableIn(log3, p) == 1;
    assert NeverDrops(log2, p);
    assert VoidedIn(log3) == {};
    assert CommittedWithout(log1, p, {}) == 0;
    assert CommittedWithout(log2, p, {}) == 1;
    assert CommittedWithout(log3, p, {}) == 2;
  }

  /**
   * The same money can be agreed twice exactly when two folio years are involved: within
   * one folio year no run does it, and for any two different years some run does.
   */
  lemma AgreedTwiceExactlyAcrossYears(p: Period, y: nat, z: nat)
    ensures (exists start: nat, actions :: AgreedTwice(Execute(start, actions).log, p, y, z)) <==> y != z
  {
    if y == z {
      forall start: nat, actions ensures !AgreedTwice(Execute(start, actions).log, p, y, z) { OneYearIsSafe(start, actions, p, y); }
    } else {
      var lo, hi := if y < z then y else z, if y < z then z else y;
      ReachContended(lo, p);
      var before :| Execute(lo, before) == Contended(lo, p);
      var after := TurnOfYear(p, lo, hi);
      PlayFrom(lo, before, after);
      assert AgreedTwice(Execute(lo, before + after).log, p, y, z);
    }
  }
}
