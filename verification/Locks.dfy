/**
 * The lock table: what a transaction may lock, when two locks conflict, the
 * global order in which the finance transactions take them, and why that order
 * rules out deadlocks.
 */
module Locks {
  import opened Basics
  import opened Sorting

  type TxId = int

  /** Advisory keys (identities and days) and the rows locked with FOR SHARE / FOR UPDATE. */
  datatype Resource =
    | PaymentIdentity(id: Id)
    | ReversalIdentity(id: Id)
    | AgreementIdentity(id: Id)
    | ShiftIdentity(id: Id)
    | ShiftDay(member: Id, day: int)
    | RowOfAgreement(id: Id)
    | RowOfParticipant(agreement: Id, member: Id)
    | RowOfPayment(id: Id)
  {
    function Class(): nat {
      match this
      case PaymentIdentity(_) => 0
      case ReversalIdentity(_) => 1
      case AgreementIdentity(_) => 2
      case ShiftIdentity(_) => 3
      case ShiftDay(_, _) => 4
      case RowOfAgreement(_) => 5
      case RowOfParticipant(_, _) => 6
      case RowOfPayment(_) => 7
    }

    function Major(): int {
      match this
      case ShiftDay(m, _) => m
      case RowOfParticipant(a, _) => a
      case _ => this.id
    }

    function Minor(): int {
      match this
      case ShiftDay(_, d) => d
      case RowOfParticipant(_, m) => m
      case _ => 0
    }
  }

  datatype Lock = Lock(on: Resource, exclusive: bool)

  function Shared(r: Resource): Lock { Lock(r, false) }
  function Exclusive(r: Resource): Lock { Lock(r, true) }

  predicate Compatible(a: Lock, b: Lock) {
    a.on != b.on || (!a.exclusive && !b.exclusive)
  }

  /** Class first, then the key; the order in which every transaction takes its locks. */
  predicate Before(a: Resource, b: Resource) {
    a.Class() < b.Class()
    || (a.Class() == b.Class() && (a.Major() < b.Major() || (a.Major() == b.Major() && a.Minor() < b.Minor())))
  }

  lemma BeforeIsStrictTotal()
    ensures StrictTotal(Before)
  {
    forall a: Resource, b: Resource | a != b ensures Before(a, b) || Before(b, a) {}
  }

  // ----- locking a list of keys: drop repeats, then sort ------------------------------

  predicate InOrder(rs: seq<Resource>) {
    forall i, j :: 0 <= i < j < |rs| ==> Before(rs[i], rs[j])
  }

  function Distinct(rs: seq<Resource>): (d: seq<Resource>)
    ensures forall r :: r in d <==> r in rs
    ensures forall i, j :: 0 <= i < j < |d| ==> d[i] != d[j]
    ensures |d| <= |rs|
  {
    if rs == [] then [] else
      var d := Distinct(rs[1..]);
      assert rs == [rs[0]] + rs[1..];
      if rs[0] in d then d else [rs[0]] + d
  }

  function LockList(rs: seq<Resource>): (sorted: seq<Resource>)
    ensures InOrder(sorted)
    ensures forall r :: r in sorted <==> r in rs
    ensures |sorted| <= |rs|
  {
    var key := (r: Resource) => r;
    var d := Distinct(rs);
    BeforeIsStrictTotal();
    SortAscends(d, key, Before);
    SortPermutes(d, key, Before);
    var sorted := Sort(d, key, Before);
    SameElements(sorted, d);
    SameElements(d, sorted);
    assert forall i, j :: 0 <= i < j < |sorted| ==> Before(key(sorted[i]), key(sorted[j]));
    sorted
  }

  // ----- waiting -------------------------------------------------------------------------

  /** What the lock manager knows of one transaction. */
  datatype Session = Session(held: set<Lock>, wants: set<Lock>)

  type WaitTable = map<TxId, Session>

  predicate Waits(s: WaitTable, t: TxId, u: TxId) {
    t in s && u in s && t != u
    && exists w, h :: w in s[t].wants && h in s[u].held && !Compatible(w, h)
  }

  /** At most one request at a time, and only for something after everything held. */
  ghost predicate FollowsOrder(s: Session) {
    && (forall v, w :: v in s.wants && w in s.wants ==> v == w)
    && (forall h, w :: h in s.held && w in s.wants ==> Before(h.on, w.on))
  }

  ghost predicate AllFollowOrder(s: WaitTable) {
    forall t :: t in s ==> FollowsOrder(s[t])
  }

  lemma WaitingClimbs(s: WaitTable, t: TxId, u: TxId, w: Lock, v: Lock)
    requires AllFollowOrder(s) && Waits(s, t, u)
    requires w in s[t].wants && v in s[u].wants
    ensures Before(w.on, v.on)
  {
    var w', h :| w' in s[t].wants && h in s[u].held && !Compatible(w', h);
    assert w' == w && h.on == w.on;
  }

  /** A chain of transactions, each waiting for the next. */
  ghost predicate WaitingChain(s: WaitTable, path: seq<TxId>) {
    forall i :: 0 <= i < |path| - 1 ==> Waits(s, path[i], path[i + 1])
  }

  lemma {:induction false} ChainClimbs(s: WaitTable, path: seq<TxId>, w: Lock, v: Lock)
    requires AllFollowOrder(s) && WaitingChain(s, path) && |path| >= 2
    requires path[0] in s && path[|path| - 1] in s
    requires w in s[path[0]].wants && v in s[path[|path| - 1]].wants
    ensures Before(w.on, v.on)
  {
    WaitsNext(s, path, 0);
    if |path| == 2 {
      WaitingClimbs(s, path[0], path[1], w, v);
    } else {
      WaitsNext(s, path, 1);
      var m :| m in s[path[1]].wants;
      WaitingClimbs(s, path[0], path[1], w, m);
      ChainClimbs(s, path[1..], m, v);
    }
  }

  lemma WaitsNext(s: WaitTable, path: seq<TxId>, i: nat)
    requires WaitingChain(s, path) && i < |path| - 1
    ensures Waits(s, path[i], path[i + 1]) && exists w :: w in s[path[i]].wants
  {
    assert Waits(s, path[i], path[i + 1]);
    var w, h :| w in s[path[i]].wants && h in s[path[i + 1]].held && !Compatible(w, h);
  }

  /** No deadlock: no transaction waits, through any chain, for itself. */
  lemma NoWaitingCycle(s: WaitTable, path: seq<TxId>)
    requires AllFollowOrder(s) && |path| >= 2 && path[0] == path[|path| - 1]
    ensures !WaitingChain(s, path)
  {
    if WaitingChain(s, path) {
      WaitsNext(s, path, 0);
      var w :| w in s[path[0]].wants;
      ChainClimbs(s, path, w, w);
    }
  }

  ghost predicate Blocked(s: WaitTable, t: TxId) {
    exists u :: Waits(s, t, u)
  }

  /** Among finitely many blocked transactions one wants the greatest resource. */
  lemma {:induction false} GreatestRequest(s: WaitTable, ts: set<TxId>) returns (top: TxId, w: Lock)
    requires AllFollowOrder(s) && ts != {} && ts <= s.Keys && (forall t :: t in ts ==> Blocked(s, t))
    ensures top in ts && w in s[top].wants
    ensures forall t, v :: t in ts && v in s[t].wants ==> !Before(w.on, v.on)
    decreases ts
  {
    var t := Member(ts);
    var u :| Waits(s, t, u);
    var wt, ht :| wt in s[t].wants && ht in s[u].held && !Compatible(wt, ht);
    BeforeIsStrictTotal();
    if ts == {t} {
      top, w := t, wt;
    } else {
      var top', w' := GreatestRequest(s, ts - {t});
      top, w := if Before(w'.on, wt.on) then t else top', if Before(w'.on, wt.on) then wt else w';
      forall x, v | x in ts && v in s[x].wants ensures !Before(w.on, v.on) {
        assert FollowsOrder(s[x]);
        assert x == t || x in ts - {t};
      }
    }
  }

  /** No deadlock, as progress: if anybody is running, somebody is not blocked. */
  lemma SomebodyRuns(s: WaitTable) returns (t: TxId)
    requires AllFollowOrder(s) && s != map[]
    ensures t in s && !Blocked(s, t)
  {
    if forall t :: t in s ==> Blocked(s, t) {
      assert s.Keys != {};
      var top, w := GreatestRequest(s, s.Keys);
      t := top;
    } else {
      t :| t in s && !Blocked(s, t);
    }
  }
}
