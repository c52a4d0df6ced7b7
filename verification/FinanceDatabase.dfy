/**
 * The finance database as one transaction's code sees it: statements change it in place,
 * and before each statement any other session may run. A ghost copy follows the
 * interleaved model, one statement at a time.
 */
module FinanceDatabase {
  import opened Basics
  import opened Ledger
  import opened Locks
  import opened Sessions
  import SessionTheorems

  function Play(s: State, actions: seq<Action>): State
    decreases |actions|
  {
    if actions == [] then s else Apply(Play(s, actions[..|actions| - 1]), actions[|actions| - 1])
  }

  lemma PlayOne(s: State, actions: seq<Action>, a: Action)
    ensures Play(s, actions + [a]) == Apply(Play(s, actions), a)
  {
    assert (actions + [a])[..|actions|] == actions;
  }

  lemma {:induction false} PlayMore(s: State, a: seq<Action>, b: seq<Action>)
    ensures Play(s, a + b) == Play(Play(s, a), b)
    decreases |b|
  {
    if b == [] {
      assert a + b == a;
    } else {
      assert (a + b)[..|a + b| - 1] == a + b[..|b| - 1];
      PlayMore(s, a, b[..|b| - 1]);
    }
  }

  /** Playing on keeps everything proved of the interleaved model. */
  lemma {:induction false} PlayKeeps(s: State, actions: seq<Action>)
    requires SessionTheorems.Invariant(s)
    ensures SessionTheorems.Invariant(Play(s, actions))
    decreases |actions|
  {
    if actions != [] {
      PlayKeeps(s, actions[..|actions| - 1]);
      SessionTheorems.ApplyKeeps(Play(s, actions[..|actions| - 1]), actions[|actions| - 1]);
    }
  }

  /** An action of somebody else. */
  predicate Foreigner(a: Action, t: TxId) {
    match a
    case Begin(u, _) => u != t
    case Run(u) => u != t
    case Abort(u) => u != t
    case _ => true
  }

  ghost predicate OthersOnly(actions: seq<Action>, t: TxId) {
    forall i :: 0 <= i < |actions| ==> Foreigner(actions[i], t)
  }

  /** The actions of everybody but t, in order. */
  ghost function OthersIn(actions: seq<Action>, t: TxId): seq<Action> {
    if actions == [] then [] else
      var last := actions[|actions| - 1];
      OthersIn(actions[..|actions| - 1], t) + if Foreigner(last, t) then [last] else []
  }

  lemma OthersInOne(actions: seq<Action>, t: TxId, a: Action)
    ensures OthersIn(actions + [a], t) == OthersIn(actions, t) + if Foreigner(a, t) then [a] else []
  {
    assert (actions + [a])[..|actions|] == actions;
  }

  lemma {:induction false} OthersInBatch(actions: seq<Action>, t: TxId, batch: seq<Action>)
    requires OthersOnly(batch, t)
    ensures OthersIn(actions + batch, t) == OthersIn(actions, t) + batch
    decreases |batch|
  {
    hide OthersIn, Foreigner;
    if batch == [] {
      assert actions + batch == actions;
    } else {
      var before, last := batch[..|batch| - 1], batch[|batch| - 1];
      OthersInBatch(actions, t, before);
      OthersInOne(actions + before, t, last);
      assert actions + before + [last] == actions + batch && before + [last] == batch;
    }
  }

  ghost function Flat(schedule: seq<seq<Action>>): seq<Action> {
    if schedule == [] then [] else schedule[0] + Flat(schedule[1..])
  }

  /** From BEGIN on, the transaction's own actions are its statements and nothing else. */
  ghost predicate OwnSteps(actions: seq<Action>, t: TxId, req: Request) {
    && |actions| > 0 && actions[0] == Sessions.Action.Begin(t, req)
    && forall i :: 1 <= i < |actions| ==> actions[i] == Run(t) || Foreigner(actions[i], t)
  }

  lemma OwnStepTaken(actions: seq<Action>, t: TxId, req: Request)
    requires OwnSteps(actions, t, req)
    ensures OwnSteps(actions + [Run(t)], t, req) && OthersIn(actions + [Run(t)], t) == OthersIn(actions, t)
  {
    OthersInOne(actions, t, Run(t));
  }

  lemma OthersTaken(actions: seq<Action>, t: TxId, req: Request, schedule: seq<seq<Action>>)
    requires OwnSteps(actions, t, req) && |schedule| > 0 && OthersOnly(schedule[0], t)
    ensures OwnSteps(actions + schedule[0], t, req)
    ensures OthersIn(actions + schedule[0], t) + Flat(schedule[1..]) == OthersIn(actions, t) + Flat(schedule)
  {
    OthersInBatch(actions, t, schedule[0]);
    assert OthersIn(actions, t) + schedule[0] + Flat(schedule[1..]) == OthersIn(actions, t) + (schedule[0] + Flat(schedule[1..]));
  }

  /** The same to everybody but t: t's own record may differ in what only t looks at. */
  ghost predicate Alike(a: State, b: State, t: TxId) {
    && a.log == b.log && a.clock == b.clock && a.foreign == b.foreign && a.done == b.done
    && a.txs.Keys == b.txs.Keys && t in a.txs
    && (forall u :: u in a.txs && u != t ==> a.txs[u] == b.txs[u])
    && a.txs[t].held == b.txs[t].held && a.txs[t].req == b.txs[t].req
  }

  lemma OthersSeeTheSame(a: State, b: State, t: TxId, u: TxId, lock: Lock)
    requires Alike(a, b, t) && u != t
    ensures Grantable(a.txs, u, lock) == Grantable(b.txs, u, lock)
  {
    assert forall v :: v in a.txs ==> a.txs[v].held == b.txs[v].held;
    assert forall v :: v in a.txs ==> Unlocked(a.txs[v], lock) == Unlocked(b.txs[v], lock);
  }

  /** Somebody else's step keeps the two states alike and leaves t's record alone. */
  lemma OtherStep(a: State, b: State, t: TxId, action: Action)
    requires Alike(a, b, t) && Foreigner(action, t)
    ensures Alike(Apply(a, action), Apply(b, action), t)
    ensures Apply(b, action).txs[t] == b.txs[t] && Apply(a, action).txs[t] == a.txs[t]
  {
    match action
    case Run(u) =>
      if u in a.txs {
        match Next(a.log, a.clock, a.foreign, a.txs[u])
        case Take(lock, n) => OthersSeeTheSame(a, b, t, u, lock);
        case _ =>
      }
    case CommitAgreement(row) =>
      assert forall v :: v in a.txs ==> a.txs[v].held == b.txs[v].held;
      assert forall v, l :: v in a.txs ==> Unlocked(a.txs[v], l) == Unlocked(b.txs[v], l);
    case _ =>
  }

  lemma {:induction false} OtherSteps(a: State, b: State, t: TxId, actions: seq<Action>)
    requires Alike(a, b, t) && OthersOnly(actions, t)
    ensures Alike(Play(a, actions), Play(b, actions), t)
    ensures Play(b, actions).txs[t] == b.txs[t] && Play(a, actions).txs[t] == a.txs[t]
    decreases |actions|
  {
    if actions != [] {
      OtherSteps(a, b, t, actions[..|actions| - 1]);
      OtherStep(Play(a, actions[..|actions| - 1]), Play(b, actions[..|actions| - 1]), t, actions[|actions| - 1]);
    }
  }

  lemma GrantStep(a: State, b: State, t: TxId, lock: Lock, n: Tx)
    requires Alike(a, b, t) && n.held == b.txs[t].held && n.req == b.txs[t].req
    requires Next(b.log, b.clock, b.foreign, b.txs[t]) == Take(lock, n) && Grantable(a.txs, t, lock)
    ensures var m := n.(held := n.held + {lock});
            && Apply(b, Run(t)) == b.(txs := b.txs[t := m])
            && Alike(a.(txs := a.txs[t := a.txs[t].(held := a.txs[t].held + {lock})]), b.(txs := b.txs[t := m]), t)
  {
    hide Next, Compatible;
    assert Grantable(b.txs, t, lock);
  }

  lemma EndStep(a: State, b: State, t: TxId)
    requires Alike(a, b, t)
    ensures a.txs - {t} == b.txs - {t} && a.txs[t].req == b.txs[t].req
  {
    var x, y := a.txs - {t}, b.txs - {t};
    assert x.Keys == a.txs.Keys - {t} && y.Keys == b.txs.Keys - {t};
    assert forall u :: u in x ==> x[u] == y[u];
    assert x == y;
  }

  /** At this point the transaction takes the keys of its list, then moves on. */
  ghost predicate TakesKeysAt(tx: Tx, next: nat) {
    forall l, c, f, queue, held :: Next(l, c, f, tx.(queue := queue, held := held)) == TakeKeys(tx.(queue := queue, held := held), next)
  }

  lemma KeyTaken(first: Tx, next: nat, now: Tx, keys: seq<Resource>)
    requires TakesKeysAt(first, next) && now == first.(queue := keys, held := now.held) && keys != []
    ensures forall l, c, f :: Next(l, c, f, now) == Take(Exclusive(keys[0]), now.(queue := keys[1..]))
  {
    hide Next;
    forall l, c, f ensures Next(l, c, f, now) == Take(Exclusive(keys[0]), now.(queue := keys[1..])) {
      assert Next(l, c, f, first.(queue := keys, held := now.held)) == TakeKeys(first.(queue := keys, held := now.held), next);
    }
  }

  lemma AllTaken(first: Tx, next: nat, now: Tx)
    requires TakesKeysAt(first, next) && now == first.(queue := [], held := now.held)
    ensures forall l, c, f :: Next(l, c, f, now) == Goto(now.(pc := next))
  {
    hide Next;
    forall l, c, f ensures Next(l, c, f, now) == Goto(now.(pc := next)) {
      assert Next(l, c, f, first.(queue := [], held := now.held)) == TakeKeys(first.(queue := [], held := now.held), next);
    }
  }

  /** The committed tables, the clock, and the sessions; what others will do is given in advance. */
  class Database {
    var log: Log
    var clock: Instant
    var foreign: set<Id>
    var txs: map<TxId, Tx>
    var done: map<TxId, Done>
    var schedule: seq<seq<Action>>
    ghost var start: State
    ghost var trace: seq<Action>
    ghost var model: State
    ghost var given: seq<Action>

    function View(): State
      reads this
    {
      State(log, clock, foreign, txs, done)
    }

    /** The trace is the transaction's own statements and what others were given to do so far, in order. */
    ghost predicate Traced(t: TxId, req: Request)
      reads this
    {
      OwnSteps(trace, t, req) && OthersIn(trace, t) + Flat(schedule) == given
    }

    /** The transaction t is running, and the model has followed every step so far. */
    ghost predicate Follows(t: TxId)
      reads this
    {
      && model == Play(start, trace) && Alike(View(), model, t) && Traced(t, model.txs[t].req)
      && forall i :: 0 <= i < |schedule| ==> OthersOnly(schedule[i], t)
    }

    /** The transaction has ended as the model's has, after the same interleaving. */
    ghost predicate Ended(t: TxId, req: Request, outcome: Outcome)
      reads this
    {
      View() == Play(start, trace) && Traced(t, req) && t in done && done[t] == Done(req, outcome)
    }

    /** The transaction waits for a lock, and nobody will do anything more. */
    ghost predicate Stuck(t: TxId, req: Request)
      reads this
    {
      && schedule == [] && Follows(t) && Record(t).req == req
      && var next := Next(log, clock, foreign, Record(t));
         next.Take? && !Grantable(txs, t, next.lock)
    }

    /** The model's own record of the transaction. */
    ghost function Record(t: TxId): Tx
      reads this
      requires Follows(t)
    {
      model.txs[t]
    }

    method Set(s: State)
      modifies this`log, this`clock, this`foreign, this`txs, this`done
      ensures View() == s
    {
      log, clock, foreign, txs, done := s.log, s.clock, s.foreign, s.txs, s.done;
    }

    /** Whatever other sessions do before the next statement. */
    method Others(t: TxId)
      requires Follows(t)
      modifies this
      ensures Follows(t) && Record(t) == old(Record(t)) && txs[t] == old(txs[t]) && start == old(start) && given == old(given)
      ensures |schedule| == if |old(schedule)| == 0 then 0 else |old(schedule)| - 1
    {
      if |schedule| > 0 {
        var batch := schedule[0];
        OtherSteps(View(), model, t, batch);
        PlayMore(start, trace, batch);
        OthersTaken(trace, t, model.txs[t].req, schedule);
        Set(Play(View(), batch));
        model, trace, schedule := Play(model, batch), trace + batch, schedule[1..];
      }
    }

    /** BEGIN. */
    method Begin(t: TxId, req: Request)
      requires t !in txs && t !in done && Accepted(req)
      requires forall i :: 0 <= i < |schedule| ==> OthersOnly(schedule[i], t)
      modifies this
      ensures Follows(t) && start == old(View()) && given == Flat(old(schedule))
      ensures Record(t) == Start(req) && txs[t].held == {} && schedule == old(schedule)
    {
      OthersInOne([], t, Sessions.Action.Begin(t, req));
      given := Flat(schedule);
      start, trace := View(), [Sessions.Action.Begin(t, req)];
      PlayOne(start, [], Sessions.Action.Begin(t, req));
      assert [] + [Sessions.Action.Begin(t, req)] == trace;
      txs := txs[t := Start(req)];
      model := Play(start, trace);
    }

    /** A statement that only reads or computes: the model's program counter moves on. */
    ghost method Advance(t: TxId, n: Tx)
      requires Follows(t) && Next(log, clock, foreign, Record(t)) == Goto(n) && n.held == Record(t).held && n.req == Record(t).req
      modifies this`model, this`trace
      ensures Follows(t) && Record(t) == n
    {
      hide Next;
      OwnStepTaken(trace, t, model.txs[t].req);
      PlayOne(start, trace, Run(t));
      model := Apply(model, Run(t));
      trace := trace + [Run(t)];
    }

    /** Waits, letting others run, until the lock is free; false if it never is. */
    method TakeLock(t: TxId, lock: Lock, ghost n: Tx) returns (granted: bool)
      requires Follows(t) && n.held == Record(t).held && n.req == Record(t).req
      requires forall l, c, f :: Next(l, c, f, Record(t)) == Take(lock, n)
      modifies this
      ensures start == old(start) && given == old(given)
      ensures granted ==> Follows(t) && Record(t) == n.(held := n.held + {lock})
      ensures !granted ==> Stuck(t, old(Record(t)).req)
    {
      while !Grantable(txs, t, lock)
        invariant Follows(t) && Record(t) == old(Record(t)) && start == old(start) && given == old(given)
        decreases |schedule|
      {
        if |schedule| == 0 { return false; }
        Others(t);
      }
      Grant(t, lock, n);
      return true;
    }

    /** The keys of a sorted list, one lock after the other. */
    method TakeAll(t: TxId, keys: seq<Resource>, ghost next: nat) returns (granted: bool)
      requires Follows(t) && Record(t).queue == keys && TakesKeysAt(Record(t), next)
      modifies this
      ensures start == old(start) && given == old(given)
      ensures !granted ==> Stuck(t, old(Record(t)).req)
      ensures granted ==> Follows(t)
      ensures granted ==> var r := Record(t);
                          && r.pc == next && r.queue == [] && r.req == old(Record(t)).req
                          && r.known == old(Record(t)).known && r.pending == old(Record(t)).pending
    {
      hide Next, Play, Alike, Grantable, OthersOnly;
      var i := 0;
      ghost var first := Record(t);
      while i < |keys|
        invariant 0 <= i <= |keys| && Follows(t) && start == old(start) && given == old(given)
        invariant Record(t) == first.(queue := keys[i..], held := Record(t).held)
      {
        Others(t);
        KeyTaken(first, next, Record(t), keys[i..]);
        var lock := Exclusive(keys[i]);
        granted := TakeLock(t, lock, Record(t).(queue := keys[i..][1..]));
        if !granted { return; }
        assert keys[i..][1..] == keys[i + 1..];
        i := i + 1;
      }
      Others(t);
      AllTaken(first, next, Record(t));
      Advance(t, Record(t).(pc := next));
      return true;
    }

    method Grant(t: TxId, lock: Lock, ghost n: Tx)
      requires Follows(t) && n.held == Record(t).held && n.req == Record(t).req
      requires Next(log, clock, foreign, Record(t)) == Take(lock, n) && Grantable(txs, t, lock)
      modifies this`txs, this`model, this`trace
      ensures Follows(t) && Record(t) == n.(held := n.held + {lock})
    {
      GrantStep(View(), model, t, lock, n);
      OwnStepTaken(trace, t, model.txs[t].req);
      hide Next, Grantable, Apply, Alike;
      PlayOne(start, trace, Run(t));
      txs := txs[t := txs[t].(held := txs[t].held + {lock})];
      model := Apply(model, Run(t));
      trace := trace + [Run(t)];
    }

    /** The transaction ends without writing. */
    method Finish(t: TxId, outcome: Outcome)
      requires Follows(t) && Next(log, clock, foreign, Record(t)) == Sessions.Effect.Finish(outcome)
      modifies this
      ensures Ended(t, old(Record(t)).req, outcome) && start == old(start) && given == old(given)
    {
      hide Next;
      OwnStepTaken(trace, t, model.txs[t].req);
      PlayOne(start, trace, Run(t));
      EndStep(View(), model, t);
      done := done[t := Done(txs[t].req, outcome)];
      txs := txs - {t};
      model := Apply(model, Run(t));
      trace := trace + [Run(t)];
    }

    /** COMMIT: the inserted rows become visible and every lock is released. */
    method Commit(t: TxId, rows: Log)
      requires Follows(t) && Next(log, clock, foreign, Record(t)) == Sessions.Effect.Commit(rows)
      modifies this
      ensures Ended(t, old(Record(t)).req, Created) && start == old(start) && given == old(given)
    {
      hide Next;
      OwnStepTaken(trace, t, model.txs[t].req);
      PlayOne(start, trace, Run(t));
      EndStep(View(), model, t);
      done := done[t := Done(txs[t].req, Created)];
      txs := txs - {t};
      log := log + rows;
      model := Apply(model, Run(t));
      trace := trace + [Run(t)];
    }
  }
}
