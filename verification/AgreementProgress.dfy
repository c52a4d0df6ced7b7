/** No creation waits for good: whoever is furthest on can always take its next statement. */
module AgreementProgress {
  import opened Basics
  import opened AgreementLedger
  import opened AgreementSessions
  import opened Progress

  /** Statements left to a creation at most, its remaining attempts included. */
  function Remaining(tx: Tx): nat {
    if tx.attempt <= MAX_CREATE_ATTEMPTS && tx.pc <= 8 then 9 * (MAX_CREATE_ATTEMPTS - tx.attempt) + 9 - tx.pc else 0
  }

  /** A creation only ever waits for one that is further on. */
  lemma WaitsForAhead(s: State, t: TxId) returns (u: TxId)
    requires t in s.txs && s.txs[t].pc <= 8 && Next(s, t).Wait?
    ensures u in s.txs && s.txs[u].pc > s.txs[t].pc
  {
    var tx := s.txs[t];
    var busy: Tx -> bool :=
      if tx.pc == 1 then (v: Tx) => HoldsIdentity(v, tx.req.id)
      else if tx.pc == 6 then (v: Tx) => HoldsCounter(v, tx.year)
      else (v: Tx) => Inserted(v, tx.req.supersedes);
    assert Others(s.txs, t, busy);
    u :| u in s.txs && u != t && busy(s.txs[u]);
  }

  lemma {:induction false} Furthest(txs: map<TxId, Tx>) returns (t: TxId)
    requires txs.Keys != {}
    ensures t in txs && forall u :: u in txs ==> txs[u].pc <= txs[t].pc
    decreases |txs|
  {
    var first := Member(txs.Keys);
    var others := txs - {first};
    assert forall u :: u in txs ==> u == first || u in others;
    t := first;
    if others.Keys != {} {
      var u := Furthest(others);
      if txs[u].pc > txs[first].pc { t := u; }
    }
  }

  /** In every state that keeps the invariant somebody can take its next statement. */
  lemma SomebodyCanStep(s: State) returns (t: TxId)
    requires Invariant(s) && s.txs.Keys != {}
    ensures t in s.txs && !Next(s, t).Wait?
  {
    t := Furthest(s.txs);
    assert TxOk(s.log, s.txs[t]);
    hide Next, TxOk;
    if Next(s, t).Wait? { var u := WaitsForAhead(s, t); }
  }

  lemma StepCounts(s: State, t: TxId)
    requires Invariant(s) && t in s.txs && !Next(s, t).Wait?
    ensures var next := RunOne(s, t).txs;
            (t in next && next == s.txs[t := next[t]] && Remaining(next[t]) < Remaining(s.txs[t])) || next == s.txs - {t}
  {
    assert TxOk(s.log, s.txs[t]);
    hide ReplacementValid, FindAgreement, IsReplaced, TakenInYear, Committed, AvailableIn, Others, NextNumber;
  }

  /** Runs the listed creations, one statement each. */
  function RunAll(s: State, schedule: seq<TxId>): State
    decreases |schedule|
  {
    if schedule == [] then s else RunAll(Apply(s, Run(schedule[0])), schedule[1..])
  }

  /**
   * From every state that keeps the invariant some order of statements lets every running
   * creation reach its own end, retries included, with nobody aborted on the way.
   */
  lemma {:induction false} EverybodyCanFinish(s: State) returns (schedule: seq<TxId>)
    requires Invariant(s)
    ensures RunAll(s, schedule).txs == map[]
    decreases TotalOf(s.txs, Remaining)
  {
    hide Invariant, RunOne, Remaining;
    if s.txs == map[] {
      schedule := [];
    } else {
      assert s.txs.Keys != {};
      var t := SomebodyCanStep(s);
      StepCounts(s, t);
      TotalDrops(s.txs, Remaining, t, RunOne(s, t).txs);
      RunKeeps(s, t);
      var rest := EverybodyCanFinish(RunOne(s, t));
      schedule := [t] + rest;
      assert schedule[1..] == rest;
    }
  }

  lemma EveryRunCanFinish(year: nat, actions: seq<Action>) returns (schedule: seq<TxId>)
    ensures RunAll(Execute(year, actions), schedule).txs == map[]
  {
    Reachable(year, actions);
    schedule := EverybodyCanFinish(Execute(year, actions));
  }
}
