/** What changed between two sets of rules, topic by topic, decided on canonical JSON. */
module RulesChanges {
  import opened Basics
  import opened RulesConfig
  import opened RulesRoundTrip
  import J = CanonicalJson
  import F = CanonicalJsonFacts
  import T = JsonText
  import D = Decimal

  /** How numbers print. */
  type Printer = real -> T.Text

  /**
   * The numbers in use never print alike, and print as number texts. JavaScript's own
   * printer has this for any set of doubles.
   */
  ghost predicate GoodPrinter(num: Printer, used: set<real>) {
    && (forall x, y :: x in used && y in used && num(x) == num(y) ==> x == y)
    && (forall x :: x in used ==> J.NumberText(num(x)))
  }

  /** The texts compared are chosen from short lists, all inside the basic plane. */
  predicate Basic(s: string) { forall i :: 0 <= i < |s| ==> s[i] as int < 0x10000 }

  lemma UnicodeInjective(a: string, b: string)
    requires Basic(a) && Basic(b)
    ensures T.Unicode(a) == T.Unicode(b) <==> a == b
  {
    if T.Unicode(a) == T.Unicode(b) {
      assert |a| == |T.Unicode(a)| == |b|;
      forall i | 0 <= i < |a| ensures a[i] == b[i] { assert T.Unicode(a)[i] == T.Unicode(b)[i]; }
    }
  }

  // ----- plain objects ---------------------------------------------------------------------------

  /** Nothing refused, no holes, and as every JavaScript value is. */
  ghost predicate Plain(v: J.Value) { J.Proper(v) && J.Accepted(v) && F.Dense(v) }

  /** An object literal: these keys, in this order, with these values. */
  function Obj(keys: seq<string>, values: seq<J.Value>): (v: J.Value)
    requires |keys| == |values|
    ensures v.Object? && |v.entries| == |keys| && forall i :: 0 <= i < |keys| ==> v.entries[i] == J.Entry(T.Unicode(keys[i]), values[i])
  {
    J.Object(seq(|keys|, i requires 0 <= i < |keys| => J.Entry(T.Unicode(keys[i]), values[i])))
  }

  ghost predicate GoodKeys(keys: seq<string>) {
    && (forall i :: 0 <= i < |keys| ==> Basic(keys[i]))
    && (forall i, j :: 0 <= i < j < |keys| ==> keys[i] != keys[j])
  }

  ghost predicate AllPlain(values: seq<J.Value>) { forall i :: 0 <= i < |values| ==> Plain(values[i]) }

  lemma ObjIsPlain(keys: seq<string>, values: seq<J.Value>)
    requires |keys| == |values| && GoodKeys(keys) && AllPlain(values)
    ensures Plain(Obj(keys, values))
  {
    forall i, j | 0 <= i < j < |keys| ensures T.Unicode(keys[i]) != T.Unicode(keys[j]) { UnicodeInjective(keys[i], keys[j]); }
  }

  /** Written with the same keys, two objects are the same exactly when all their values are. */
  lemma ObjDecides(keys: seq<string>, vs: seq<J.Value>, ws: seq<J.Value>)
    requires |keys| == |vs| == |ws| && GoodKeys(keys)
    ensures F.Reordered(Obj(keys, vs), Obj(keys, ws)) <==> forall i :: 0 <= i < |keys| ==> F.Reordered(vs[i], ws[i])
  {
    var es, fs := Obj(keys, vs).entries, Obj(keys, ws).entries;
    forall i | 0 <= i < |keys| ensures J.HasKey(fs, es[i].key) && J.HasKey(es, fs[i].key) { assert fs[i].key == es[i].key; }
    forall i, j | 0 <= i < |keys| && 0 <= j < |keys| && es[i].key == fs[j].key ensures i == j { UnicodeInjective(keys[i], keys[j]); }
    if F.Reordered(Obj(keys, vs), Obj(keys, ws)) {
      forall i | 0 <= i < |keys| ensures F.Reordered(vs[i], ws[i]) { assert es[i].key == fs[i].key; }
    }
  }

  /** A first member that differs makes the objects differ, whatever the other keys are. */
  lemma FirstDiffers(keys: seq<string>, vs: seq<J.Value>, keys': seq<string>, ws: seq<J.Value>)
    requires |keys| == |vs| > 0 && |keys'| == |ws| > 0 && keys[0] == keys'[0] && !F.Reordered(vs[0], ws[0])
    ensures !F.Reordered(Obj(keys, vs), Obj(keys', ws))
  {
    assert Obj(keys, vs).entries[0].key == Obj(keys', ws).entries[0].key;
  }

  lemma NumberDecides(x: real, y: real, num: Printer, used: set<real>)
    requires GoodPrinter(num, used) && x in used && y in used
    ensures Plain(J.Number(num(x))) && (F.Reordered(J.Number(num(x)), J.Number(num(y))) <==> x == y)
  {
  }

  lemma TextDecides(a: string, b: string)
    requires Basic(a) && Basic(b)
    ensures Plain(J.String(T.Unicode(a))) && (F.Reordered(J.String(T.Unicode(a)), J.String(T.Unicode(b))) <==> a == b)
  {
    UnicodeInjective(a, b);
  }

  lemma BoolDecides(a: bool, b: bool)
    ensures Plain(J.Bool(a)) && (F.Reordered(J.Bool(a), J.Bool(b)) <==> a == b)
  {
  }

  // ----- what decides each topic -------------------------------------------------------------------

  const RATE_KEYS := ["kind", "rateMinorPerHour"]
  const PCT_KEYS := ["kind", "pct"]
  const AMOUNT_KEYS := ["kind", "amountMinor"]

  function BaseKey(b: Base, num: Printer): J.Value {
    Obj(BASE_KEYS, [J.Number(num(b.partner)), J.Number(num(b.capital)), J.Number(num(b.work))])
  }

  function UntilKey(until: Option<int>, num: Printer): J.Value {
    if until.Some? then J.Number(num(until.value as real)) else J.Null
  }

  function ReinvestmentKey(r: Reinvestment, num: Printer): J.Value {
    Obj(REINVESTMENT_KEYS, [J.String(T.Unicode(r.phase)), J.Number(num(r.arranque)), J.Number(num(r.operacion)), J.Number(num(r.cierre)), UntilKey(r.until, num)])
  }

  function RecoveryKey(r: Recovery): J.Value { Obj(RECOVERY_KEYS, [J.String(T.Unicode(r.mode)), J.String(T.Unicode(r.timing))]) }

  function PayKey(p: Pay, num: Printer): J.Value {
    match p
    case PerHour(rate) => Obj(RATE_KEYS, [J.String(T.Unicode("por_hora")), J.Number(num(rate as real))])
    case Percent(pct) => Obj(PCT_KEYS, [J.String(T.Unicode("porcentaje")), J.Number(num(pct))])
  }

  function WorkKey(w: Work, num: Printer): J.Value { Obj(WORK_KEYS, [J.Bool(w.payHours), J.String(T.Unicode(w.order)), PayKey(w.pay, num)]) }

  function ReservesKey(r: Reserves, num: Printer): J.Value {
    match r
    case Portion(pct) => Obj(PCT_KEYS, [J.String(T.Unicode("porcentaje")), J.Number(num(pct))])
    case Amount(minor) => Obj(AMOUNT_KEYS, [J.String(T.Unicode("monto")), J.Number(num(minor as real))])
  }

  // The numbers each topic prints.
  function BaseNumbers(b: Base): set<real> { {b.partner, b.capital, b.work} }

  function UntilNumbers(until: Option<int>): set<real> { if until.Some? then {until.value as real} else {} }

  function ReinvestmentNumbers(r: Reinvestment): set<real> { {r.arranque, r.operacion, r.cierre} + UntilNumbers(r.until) }

  function PayNumbers(p: Pay): set<real> { if p.PerHour? then {p.rate as real} else {p.pct} }

  function ReservesNumbers(r: Reserves): set<real> { if r.Portion? then {r.pct} else {r.minor as real} }

  function NumbersOf(c: Config): set<real> {
    BaseNumbers(c.base) + ReinvestmentNumbers(c.reinvestment) + PayNumbers(c.work.pay) + ReservesNumbers(c.reserves)
  }

  function LoansKey(b: bool): J.Value { Obj(LOAN_KEYS, [J.Bool(b)]) }

  lemma BaseKeysAreGood()
    ensures GoodKeys(BASE_KEYS)
  {
  }

  lemma ReinvestmentKeysAreGood()
    ensures GoodKeys(REINVESTMENT_KEYS)
  {
    assert REINVESTMENT_KEYS[0][0] == 'c' && REINVESTMENT_KEYS[1][0] == 'a' && REINVESTMENT_KEYS[2][0] == 'o'
        && REINVESTMENT_KEYS[3][0] == 'c' && REINVESTMENT_KEYS[4][0] == 'u';
    assert REINVESTMENT_KEYS[0][1] == 'u' && REINVESTMENT_KEYS[3][1] == 'i';
  }

  lemma RecoveryKeysAreGood()
    ensures GoodKeys(RECOVERY_KEYS)
  {
  }

  lemma WorkKeysAreGood()
    ensures GoodKeys(WORK_KEYS)
  {
  }

  lemma LoanKeysAreGood()
    ensures GoodKeys(LOAN_KEYS)
  {
  }

  lemma KindKeysAreGood()
    ensures GoodKeys(RATE_KEYS) && GoodKeys(PCT_KEYS) && GoodKeys(AMOUNT_KEYS)
    ensures RATE_KEYS[0] == PCT_KEYS[0] == AMOUNT_KEYS[0]
  {
  }

  lemma KindsAreBasic()
    ensures Basic("por_hora") && Basic("porcentaje") && Basic("monto")
    ensures "por_hora" != "porcentaje" && "porcentaje" != "monto"
  {
  }

  /** Objects of three members. */
  lemma ThreeDecide(keys: seq<string>, v0: J.Value, v1: J.Value, v2: J.Value, w0: J.Value, w1: J.Value, w2: J.Value)
    requires |keys| == 3 && GoodKeys(keys) && Plain(v0) && Plain(v1) && Plain(v2)
    ensures Plain(Obj(keys, [v0, v1, v2]))
    ensures F.Reordered(Obj(keys, [v0, v1, v2]), Obj(keys, [w0, w1, w2])) <==> F.Reordered(v0, w0) && F.Reordered(v1, w1) && F.Reordered(v2, w2)
  {
    hide Plain, F.Reordered, Obj, GoodKeys;
    var vs, ws := [v0, v1, v2], [w0, w1, w2];
    assert vs[0] == v0 && vs[1] == v1 && vs[2] == v2 && ws[0] == w0 && ws[1] == w1 && ws[2] == w2;
    ObjIsPlain(keys, vs);
    ObjDecides(keys, vs, ws);
  }

  lemma BaseDecides(a: Base, b: Base, num: Printer, used: set<real>)
    requires GoodPrinter(num, used) && BaseNumbers(a) <= used && BaseNumbers(b) <= used
    ensures Plain(BaseKey(a, num)) && (F.Reordered(BaseKey(a, num), BaseKey(b, num)) <==> a == b)
  {
    hide Plain, F.Reordered, Obj, GoodKeys, GoodPrinter;
    BaseKeysAreGood();
    NumberDecides(a.partner, b.partner, num, used);
    NumberDecides(a.capital, b.capital, num, used);
    NumberDecides(a.work, b.work, num, used);
    ThreeDecide(BASE_KEYS, J.Number(num(a.partner)), J.Number(num(a.capital)), J.Number(num(a.work)),
                J.Number(num(b.partner)), J.Number(num(b.capital)), J.Number(num(b.work)));
  }

  lemma UntilDecides(a: Option<int>, b: Option<int>, num: Printer, used: set<real>)
    requires GoodPrinter(num, used) && UntilNumbers(a) <= used && UntilNumbers(b) <= used
    ensures Plain(UntilKey(a, num)) && (F.Reordered(UntilKey(a, num), UntilKey(b, num)) <==> a == b)
  {
  }

  lemma ReinvestmentDecides(a: Reinvestment, b: Reinvestment, num: Printer, used: set<real>)
    requires GoodPrinter(num, used) && ReinvestmentNumbers(a) <= used && ReinvestmentNumbers(b) <= used && Basic(a.phase) && Basic(b.phase)
    ensures Plain(ReinvestmentKey(a, num)) && (F.Reordered(ReinvestmentKey(a, num), ReinvestmentKey(b, num)) <==> a == b)
  {
    hide Plain, F.Reordered, Obj, GoodKeys, UntilKey, T.Unicode, GoodPrinter, Basic;
    ReinvestmentKeysAreGood();
    TextDecides(a.phase, b.phase);
    NumberDecides(a.arranque, b.arranque, num, used);
    NumberDecides(a.operacion, b.operacion, num, used);
    NumberDecides(a.cierre, b.cierre, num, used);
    UntilDecides(a.until, b.until, num, used);
    var vs := [J.String(T.Unicode(a.phase)), J.Number(num(a.arranque)), J.Number(num(a.operacion)), J.Number(num(a.cierre)), UntilKey(a.until, num)];
    var ws := [J.String(T.Unicode(b.phase)), J.Number(num(b.arranque)), J.Number(num(b.operacion)), J.Number(num(b.cierre)), UntilKey(b.until, num)];
    ObjIsPlain(REINVESTMENT_KEYS, vs);
    ObjDecides(REINVESTMENT_KEYS, vs, ws);
    assert F.Reordered(vs[0], ws[0]) <==> a.phase == b.phase;
    assert F.Reordered(vs[1], ws[1]) <==> a.arranque == b.arranque;
    assert F.Reordered(vs[2], ws[2]) <==> a.operacion == b.operacion;
    assert F.Reordered(vs[3], ws[3]) <==> a.cierre == b.cierre;
    assert F.Reordered(vs[4], ws[4]) <==> a.until == b.until;
  }

  lemma RecoveryDecides(a: Recovery, b: Recovery)
    requires Basic(a.mode) && Basic(b.mode) && Basic(a.timing) && Basic(b.timing)
    ensures Plain(RecoveryKey(a)) && (F.Reordered(RecoveryKey(a), RecoveryKey(b)) <==> a == b)
  {
    hide Plain, F.Reordered, Obj, GoodKeys, T.Unicode, GoodPrinter, Basic;
    RecoveryKeysAreGood();
    TextDecides(a.mode, b.mode);
    TextDecides(a.timing, b.timing);
    var vs, ws := [J.String(T.Unicode(a.mode)), J.String(T.Unicode(a.timing))], [J.String(T.Unicode(b.mode)), J.String(T.Unicode(b.timing))];
    ObjIsPlain(RECOVERY_KEYS, vs);
    ObjDecides(RECOVERY_KEYS, vs, ws);
    assert F.Reordered(vs[0], ws[0]) <==> a.mode == b.mode;
    assert F.Reordered(vs[1], ws[1]) <==> a.timing == b.timing;
  }

  /** Objects of a kind and one number: the kind decides first. */
  lemma KindDecides(k: string, keys: seq<string>, n: real, l: string, keys': seq<string>, m: real, num: Printer, used: set<real>)
    requires GoodPrinter(num, used) && n in used && m in used && Basic(k) && Basic(l) && GoodKeys(keys) && GoodKeys(keys')
    requires |keys| == |keys'| == 2 && keys[0] == keys'[0] && (k == l ==> keys == keys')
    ensures var v, w := Obj(keys, [J.String(T.Unicode(k)), J.Number(num(n))]), Obj(keys', [J.String(T.Unicode(l)), J.Number(num(m))]);
            Plain(v) && (F.Reordered(v, w) <==> k == l && n == m)
  {
    TextDecides(k, l);
    NumberDecides(n, m, num, used);
    hide Plain, F.Reordered, Obj, GoodKeys, T.Unicode;
    var vs, ws := [J.String(T.Unicode(k)), J.Number(num(n))], [J.String(T.Unicode(l)), J.Number(num(m))];
    ObjIsPlain(keys, vs);
    assert F.Reordered(vs[0], ws[0]) <==> k == l;
    assert F.Reordered(vs[1], ws[1]) <==> n == m;
    if k == l { ObjDecides(keys, vs, ws); } else { FirstDiffers(keys, vs, keys', ws); }
  }

  lemma PayDecides(a: Pay, b: Pay, num: Printer, used: set<real>)
    requires GoodPrinter(num, used) && PayNumbers(a) <= used && PayNumbers(b) <= used
    ensures Plain(PayKey(a, num)) && (F.Reordered(PayKey(a, num), PayKey(b, num)) <==> a == b)
  {
    KindKeysAreGood();
    KindsAreBasic();
    hide Plain, F.Reordered, Obj, GoodKeys, T.Unicode, Basic;
    match (a, b)
    case (PerHour(r), PerHour(q)) => KindDecides("por_hora", RATE_KEYS, r as real, "por_hora", RATE_KEYS, q as real, num, used);
    case (PerHour(r), Percent(q)) => KindDecides("por_hora", RATE_KEYS, r as real, "porcentaje", PCT_KEYS, q, num, used);
    case (Percent(r), PerHour(q)) => KindDecides("porcentaje", PCT_KEYS, r, "por_hora", RATE_KEYS, q as real, num, used);
    case (Percent(r), Percent(q)) => KindDecides("porcentaje", PCT_KEYS, r, "porcentaje", PCT_KEYS, q, num, used);
  }

  lemma WorkDecides(a: Work, b: Work, num: Printer, used: set<real>)
    requires GoodPrinter(num, used) && PayNumbers(a.pay) <= used && PayNumbers(b.pay) <= used && Basic(a.order) && Basic(b.order)
    ensures Plain(WorkKey(a, num)) && (F.Reordered(WorkKey(a, num), WorkKey(b, num)) <==> a == b)
  {
    hide Plain, F.Reordered, Obj, GoodKeys, T.Unicode, PayKey, GoodPrinter, Basic;
    WorkKeysAreGood();
    PayDecides(a.pay, b.pay, num, used);
    TextDecides(a.order, b.order);
    BoolDecides(a.payHours, b.payHours);
    ThreeDecide(WORK_KEYS, J.Bool(a.payHours), J.String(T.Unicode(a.order)), PayKey(a.pay, num),
                J.Bool(b.payHours), J.String(T.Unicode(b.order)), PayKey(b.pay, num));
  }

  lemma ReservesDecides(a: Reserves, b: Reserves, num: Printer, used: set<real>)
    requires GoodPrinter(num, used) && ReservesNumbers(a) <= used && ReservesNumbers(b) <= used
    ensures Plain(ReservesKey(a, num)) && (F.Reordered(ReservesKey(a, num), ReservesKey(b, num)) <==> a == b)
  {
    KindKeysAreGood();
    KindsAreBasic();
    hide Plain, F.Reordered, Obj, GoodKeys, T.Unicode, Basic;
    match (a, b)
    case (Portion(r), Portion(q)) => KindDecides("porcentaje", PCT_KEYS, r, "porcentaje", PCT_KEYS, q, num, used);
    case (Portion(r), Amount(q)) => KindDecides("porcentaje", PCT_KEYS, r, "monto", AMOUNT_KEYS, q as real, num, used);
    case (Amount(r), Portion(q)) => KindDecides("monto", AMOUNT_KEYS, r as real, "porcentaje", PCT_KEYS, q, num, used);
    case (Amount(r), Amount(q)) => KindDecides("monto", AMOUNT_KEYS, r as real, "monto", AMOUNT_KEYS, q as real, num, used);
  }

  lemma LoansDecides(a: bool, b: bool)
    ensures Plain(LoansKey(a)) && (F.Reordered(LoansKey(a), LoansKey(b)) <==> a == b)
  {
    hide Plain, F.Reordered, Obj, GoodKeys;
    LoanKeysAreGood();
    BoolDecides(a, b);
    var vs, ws := [J.Bool(a)], [J.Bool(b)];
    assert vs[0] == J.Bool(a) && ws[0] == J.Bool(b);
    ObjIsPlain(LOAN_KEYS, vs);
    ObjDecides(LOAN_KEYS, vs, ws);
    assert F.Reordered(vs[0], ws[0]) <==> a == b;
  }

  // ----- the differences ----------------------------------------------------------------------------

  const TOPICS := ["Reparto de la utilidad", "Reinversión", "Devolución del capital", "Pago de horas", "Gastos de socios", "Reservas", "Préstamos de socios"]

  function Keys(c: Config, num: Printer): (keys: seq<J.Value>)
    ensures |keys| == |TOPICS|
  {
    [BaseKey(c.base, num), ReinvestmentKey(c.reinvestment, num), RecoveryKey(c.recovery), WorkKey(c.work, num),
     J.String(T.Unicode(c.expenses)), ReservesKey(c.reserves, num), LoansKey(c.repayBeforeCapital)]
  }

  /** The positions, from i on, whose canonical JSON differs. */
  function Changed(was: seq<J.Value>, now: seq<J.Value>, i: nat): seq<nat>
    requires |was| == |now|
    decreases |now| - i
  {
    if i >= |now| then []
    else (if J.Serialize(now[i]) == J.Serialize(was[i]) then [] else [i]) + Changed(was, now, i + 1)
  }

  /** The positions of all topics that differ. */
  function DescribeChanges(before: Config, after: Config, num: Printer): seq<nat> {
    Changed(Keys(before, num), Keys(after, num), 0)
  }

  lemma {:induction false} ChangedIs(was: seq<J.Value>, now: seq<J.Value>, i: nat, k: nat)
    requires |was| == |now|
    ensures k in Changed(was, now, i) <==> i <= k < |now| && J.Serialize(now[k]) != J.Serialize(was[k])
    ensures forall x :: 0 <= x < |Changed(was, now, i)| ==> i <= Changed(was, now, i)[x]
    ensures forall x, y :: 0 <= x < y < |Changed(was, now, i)| ==> Changed(was, now, i)[x] < Changed(was, now, i)[y]
    decreases |now| - i
  {
    if i < |now| {
      ChangedIs(was, now, i + 1, k);
      var rest := Changed(was, now, i + 1);
      var head: seq<nat> := if J.Serialize(now[i]) == J.Serialize(was[i]) then [] else [i];
      assert Changed(was, now, i) == head + rest;
    }
  }

  ghost predicate BasicTexts(c: Config) {
    Basic(c.reinvestment.phase) && Basic(c.recovery.mode) && Basic(c.recovery.timing) && Basic(c.work.order) && Basic(c.expenses)
  }

  /** Whether the agreed content of a topic is the same in two configurations. */
  predicate SameTopic(a: Config, b: Config, k: nat) {
    if k == 0 then a.base == b.base else if k == 1 then a.reinvestment == b.reinvestment else if k == 2 then a.recovery == b.recovery
    else if k == 3 then a.work == b.work else if k == 4 then a.expenses == b.expenses else if k == 5 then a.reserves == b.reserves
    else a.repayBeforeCapital == b.repayBeforeCapital
  }

  lemma NumbersWithin(c: Config)
    ensures var all := NumbersOf(c);
            BaseNumbers(c.base) <= all && ReinvestmentNumbers(c.reinvestment) <= all && PayNumbers(c.work.pay) <= all && ReservesNumbers(c.reserves) <= all
  {
    hide BaseNumbers, ReinvestmentNumbers, PayNumbers, ReservesNumbers;
  }

  lemma TopicKeys(a: Config, b: Config, num: Printer, k: nat)
    requires GoodPrinter(num, NumbersOf(a) + NumbersOf(b)) && BasicTexts(a) && BasicTexts(b) && k < |TOPICS|
    ensures Plain(Keys(b, num)[k]) && (F.Reordered(Keys(b, num)[k], Keys(a, num)[k]) <==> SameTopic(a, b, k))
  {
    var used := NumbersOf(a) + NumbersOf(b);
    NumbersWithin(a);
    NumbersWithin(b);
    hide NumbersOf, BaseNumbers, ReinvestmentNumbers, PayNumbers, ReservesNumbers, BaseKey, ReinvestmentKey, RecoveryKey, WorkKey, ReservesKey, LoansKey, T.Unicode, F.Reordered, Plain, Basic, GoodPrinter;
    if k == 0 { BaseDecides(b.base, a.base, num, used); }
    else if k == 1 { ReinvestmentDecides(b.reinvestment, a.reinvestment, num, used); }
    else if k == 2 { RecoveryDecides(b.recovery, a.recovery); }
    else if k == 3 { WorkDecides(b.work, a.work, num, used); }
    else if k == 4 { TextDecides(b.expenses, a.expenses); }
    else if k == 5 { ReservesDecides(b.reserves, a.reserves, num, used); }
    else { LoansDecides(b.repayBeforeCapital, a.repayBeforeCapital); }
  }

  lemma TopicDecides(a: Config, b: Config, num: Printer, k: nat)
    requires GoodPrinter(num, NumbersOf(a) + NumbersOf(b)) && BasicTexts(a) && BasicTexts(b) && k < |TOPICS|
    ensures J.Serialize(Keys(b, num)[k]) == J.Serialize(Keys(a, num)[k]) <==> SameTopic(a, b, k)
  {
    assert NumbersOf(b) + NumbersOf(a) == NumbersOf(a) + NumbersOf(b);
    TopicKeys(a, b, num, k);
    TopicKeys(b, a, num, k);
    hide Keys, F.Reordered, J.Serialize, SameTopic, GoodPrinter, BasicTexts;
    F.DenseValuesNeverCollapse(Keys(b, num)[k], Keys(a, num)[k]);
  }

  /** The topics listed are exactly the ones whose agreed content differs, each once, in order. */
  lemma ListsExactlyWhatChanged(a: Config, b: Config, num: Printer, k: nat)
    requires GoodPrinter(num, NumbersOf(a) + NumbersOf(b)) && BasicTexts(a) && BasicTexts(b)
    ensures k in DescribeChanges(a, b, num) <==> k < |TOPICS| && !SameTopic(a, b, k)
    ensures forall x, y :: 0 <= x < y < |DescribeChanges(a, b, num)| ==> DescribeChanges(a, b, num)[x] < DescribeChanges(a, b, num)[y]
  {
    ChangedIs(Keys(a, num), Keys(b, num), 0, k);
    if k < |TOPICS| { TopicDecides(a, b, num, k); }
  }

  /** Two configurations show no change exactly when they are equal. */
  lemma NoChangesExactlyWhenEqual(a: Config, b: Config, num: Printer)
    requires GoodPrinter(num, NumbersOf(a) + NumbersOf(b)) && BasicTexts(a) && BasicTexts(b)
    ensures DescribeChanges(a, b, num) == [] <==> a == b
  {
    var changes := DescribeChanges(a, b, num);
    forall k: nat | k < |TOPICS| ensures k in changes <==> !SameTopic(a, b, k) { ListsExactlyWhatChanged(a, b, num, k); }
    hide DescribeChanges;
    assert a == b <==> forall k: nat :: k < |TOPICS| ==> SameTopic(a, b, k) by {
      if forall k: nat :: k < |TOPICS| ==> SameTopic(a, b, k) {
        assert SameTopic(a, b, 0) && SameTopic(a, b, 1) && SameTopic(a, b, 2) && SameTopic(a, b, 3)
            && SameTopic(a, b, 4) && SameTopic(a, b, 5) && SameTopic(a, b, 6);
      }
    }
    if changes != [] {
      ListsExactlyWhatChanged(a, b, num, changes[0]);
      assert changes[0] in changes;
    }
  }

  lemma ListsAreBasic()
    ensures forall t :: t in BUSINESS_PHASES || t in RECOVERY_MODES ==> Basic(t)
    ensures forall t :: t in RECOVERY_TIMINGS || t in WORK_ORDERS || t in PARTNER_EXPENSE_MODES ==> Basic(t)
  {
  }

  /** For configurations that parsed, the list of changes is empty exactly when they are the same. */
  lemma ParsedRulesShowEveryChange(x: Json, y: Json, num: Printer)
    requires Parsed(x).Ok? && Parsed(y).Ok?
    requires GoodPrinter(num, NumbersOf(Parsed(x).value) + NumbersOf(Parsed(y).value))
    ensures DescribeChanges(Parsed(x).value, Parsed(y).value, num) == [] <==> x == y
  {
    var a, b := Parsed(x).value, Parsed(y).value;
    ParsesExactlyTheEncodings(x, a);
    ParsesExactlyTheEncodings(y, b);
    ParsesExactlyTheEncodings(x, b);
    ListsAreBasic();
    hide Basic, Parsed, DescribeChanges, Encode, IsPct, GoodPrinter;
    NoChangesExactlyWhenEqual(a, b, num);
  }

  // ----- such printers exist ----------------------------------------------------------------------

  /** A decimal numeral in code units. */
  function Numeral(n: nat): T.Text { T.Unicode(D.Digits(n)) }

  lemma NumeralsDiffer(m: nat, n: nat)
    ensures J.NumberText(Numeral(n))
    ensures Numeral(m) == Numeral(n) ==> m == n
  {
    var s, t := D.Digits(m), D.Digits(n);
    assert Basic(s) && Basic(t);
    UnicodeInjective(s, t);
    D.ValueOfDigits(m);
    D.ValueOfDigits(n);
  }

  /** The numbers of any two configurations have a printer: number them, and print each one's number. */
  lemma {:induction false} PrinterExists(used: set<real>) returns (num: Printer, next: nat)
    ensures GoodPrinter(num, used)
    ensures forall x :: x in used ==> exists n: nat :: n < next && num(x) == Numeral(n)
  {
    if used == {} {
      num, next := (x: real) => Numeral(0), 0;
    } else {
      var first := Member(used);
      var others := used - {first};
      var before, last := PrinterExists(others);
      num, next := (x: real) => if x == first then Numeral(last) else before(x), last + 1;
      forall x | x in used ensures J.NumberText(num(x)) && exists n: nat :: n < next && num(x) == Numeral(n) {
        NumeralsDiffer(last, last);
        if x == first { assert num(x) == Numeral(last); }
      }
      forall x | x in others ensures num(x) != Numeral(last) {
        var n: nat :| n < last && before(x) == Numeral(n);
        NumeralsDiffer(n, last);
      }
    }
  }
}
