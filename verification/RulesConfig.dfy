/**
 * The strict parser of profit-sharing rules: it rebuilds a clean configuration or reports
 * every problem. Numbers are exact reals; a problem is where it is and what it is.
 */
module RulesConfig {
  import opened Basics

  datatype Json =
    | Null
    | Bool(b: bool)
    | Number(n: real)
    | Text(s: string)
    | List(items: seq<Json>)
    | Dict(fields: Fields)

  type Fields = map<string, Json>

  const MAX_MINOR_UNITS := 2_147_483_647
  const BUSINESS_PHASES := ["arranque", "operacion", "cierre"]
  const RECOVERY_MODES := ["ninguna", "por_diferencia", "total", "proporcional"]
  const RECOVERY_TIMINGS := ["durante", "al_cierre"]
  const WORK_ORDERS := ["antes", "despues"]
  const PARTNER_EXPENSE_MODES := ["no_reembolsar", "reembolsar", "contar_como_aportacion"]

  datatype Base = Base(partner: real, capital: real, work: real)
  datatype Reinvestment = Reinvestment(phase: string, arranque: real, operacion: real, cierre: real, until: Option<int>)
  datatype Recovery = Recovery(mode: string, timing: string)
  datatype Pay = PerHour(rate: int) | Percent(pct: real)
  datatype Work = Work(payHours: bool, order: string, pay: Pay)
  datatype Reserves = Portion(pct: real) | Amount(minor: int)
  datatype Config = Config(
    base: Base, reinvestment: Reinvestment, recovery: Recovery, work: Work,
    expenses: string, reserves: Reserves, repayBeforeCapital: bool)

  datatype What = NotAllowed | NotPct | NotMinor | NotBool | NotChoice | NotObject | NotVersion | NotKind | DoesNotAddUp(hundredths: int)

  datatype Problem = Problem(path: string, key: string, what: What)

  // ----- single values -------------------------------------------------------------------------

  /** Math.round of a hundredfold percentage. */
  function Hundredths(pct: real): int { (pct * 100.0 + 0.5).Floor }

  predicate IsPct(n: real) {
    && 0.0 <= n <= 100.0
    && var off := n * 100.0 - Hundredths(n) as real;
       -0.000001 < off < 0.000001
  }

  predicate IsMinor(n: real) { n == n.Floor as real && 0.0 <= n <= MAX_MINOR_UNITS as real }

  function PctOf(v: Option<Json>): Option<real> {
    if v.Some? && v.value.Number? && IsPct(v.value.n) then Some(v.value.n) else None
  }

  function MinorOf(v: Option<Json>): Option<int> {
    if v.Some? && v.value.Number? && IsMinor(v.value.n) then Some(v.value.n.Floor) else None
  }

  function BoolOf(v: Option<Json>): Option<bool> {
    if v.Some? && v.value.Bool? then Some(v.value.b) else None
  }

  function ChoiceOf(v: Option<Json>, list: seq<string>): Option<string> {
    if v.Some? && v.value.Text? && v.value.s in list then Some(v.value.s) else None
  }

  function ObjectOf(v: Option<Json>): Option<Fields> {
    if v.Some? && v.value.Dict? then Some(v.value.fields) else None
  }

  function Get(raw: Option<Fields>, key: string): Option<Json> {
    if raw.Some? && key in raw.value then Some(raw.value[key]) else None
  }

  // ----- the problems of each section, whatever order they are found in -----------------------

  function Bad(ok: bool, path: string, key: string, what: What): set<Problem> {
    if ok then {} else {Problem(path, key, what)}
  }

  function Unknown(raw: Option<Fields>, path: string, allowed: seq<string>): set<Problem> {
    if raw.None? then {} else set k | k in raw.value && k !in allowed :: Problem(path, k, NotAllowed)
  }

  const ROOT_KEYS := ["schemaVersion", "profitBase", "reinvestment", "capitalRecovery", "work", "partnerExpenses", "reserves", "partnerLoans"]
  const BASE_KEYS := ["partnerPct", "capitalPct", "workPct"]
  const REINVESTMENT_KEYS := ["currentPhase", "arranquePct", "operacionPct", "cierrePct", "untilAmountMinor"]
  const RECOVERY_KEYS := ["mode", "timing"]
  const WORK_KEYS := ["payHours", "order", "pay"]
  const LOAN_KEYS := ["repayBeforeCapital"]

  function RootProblems(f: Fields): set<Problem> {
    Unknown(Some(f), "", ROOT_KEYS) + Bad(Get(Some(f), "schemaVersion") == Some(Number(1.0)), "", "schemaVersion", NotVersion)
  }

  function ReadBase(f: Fields): Option<Base> {
    var raw := ObjectOf(Get(Some(f), "profitBase"));
    match (PctOf(Get(raw, "partnerPct")), PctOf(Get(raw, "capitalPct")), PctOf(Get(raw, "workPct")))
    case (Some(p), Some(c), Some(w)) => Some(Base(p, c, w))
    case _ => None
  }

  function TotalOf(b: Base): int { Hundredths(b.partner) + Hundredths(b.capital) + Hundredths(b.work) }

  function BaseProblems(f: Fields): set<Problem> {
    var raw := ObjectOf(Get(Some(f), "profitBase"));
    Bad(raw.Some?, "", "profitBase", NotObject) + Unknown(raw, "profitBase", BASE_KEYS)
    + Bad(PctOf(Get(raw, "partnerPct")).Some?, "profitBase", "partnerPct", NotPct)
    + Bad(PctOf(Get(raw, "capitalPct")).Some?, "profitBase", "capitalPct", NotPct)
    + Bad(PctOf(Get(raw, "workPct")).Some?, "profitBase", "workPct", NotPct)
    + (match ReadBase(f)
       case Some(b) => Bad(TotalOf(b) == 10000, "profitBase", "", DoesNotAddUp(TotalOf(b)))
       case None => {})
  }

  function UntilOf(raw: Option<Fields>): Option<int> {
    if raw.Some? && Get(raw, "untilAmountMinor") != Some(Null) then MinorOf(Get(raw, "untilAmountMinor")) else None
  }

  function ReadReinvestment(f: Fields): Option<Reinvestment> {
    var raw := ObjectOf(Get(Some(f), "reinvestment"));
    match (ChoiceOf(Get(raw, "currentPhase"), BUSINESS_PHASES), PctOf(Get(raw, "arranquePct")), PctOf(Get(raw, "operacionPct")), PctOf(Get(raw, "cierrePct")))
    case (Some(p), Some(a), Some(o), Some(c)) => Some(Reinvestment(p, a, o, c, UntilOf(raw)))
    case _ => None
  }

  function ReinvestmentProblems(f: Fields): set<Problem> {
    var raw := ObjectOf(Get(Some(f), "reinvestment"));
    var until := Get(raw, "untilAmountMinor");
    Bad(raw.Some?, "", "reinvestment", NotObject) + Unknown(raw, "reinvestment", REINVESTMENT_KEYS)
    + Bad(ChoiceOf(Get(raw, "currentPhase"), BUSINESS_PHASES).Some?, "reinvestment", "currentPhase", NotChoice)
    + Bad(PctOf(Get(raw, "arranquePct")).Some?, "reinvestment", "arranquePct", NotPct)
    + Bad(PctOf(Get(raw, "operacionPct")).Some?, "reinvestment", "operacionPct", NotPct)
    + Bad(PctOf(Get(raw, "cierrePct")).Some?, "reinvestment", "cierrePct", NotPct)
    + Bad(raw.None? || until == Some(Null) || MinorOf(until).Some?, "reinvestment", "untilAmountMinor", NotMinor)
  }

  function ReadRecovery(f: Fields): Option<Recovery> {
    var raw := ObjectOf(Get(Some(f), "capitalRecovery"));
    match (ChoiceOf(Get(raw, "mode"), RECOVERY_MODES), ChoiceOf(Get(raw, "timing"), RECOVERY_TIMINGS))
    case (Some(m), Some(t)) => Some(Recovery(m, t))
    case _ => None
  }

  function RecoveryProblems(f: Fields): set<Problem> {
    var raw := ObjectOf(Get(Some(f), "capitalRecovery"));
    Bad(raw.Some?, "", "capitalRecovery", NotObject) + Unknown(raw, "capitalRecovery", RECOVERY_KEYS)
    + Bad(ChoiceOf(Get(raw, "mode"), RECOVERY_MODES).Some?, "capitalRecovery", "mode", NotChoice)
    + Bad(ChoiceOf(Get(raw, "timing"), RECOVERY_TIMINGS).Some?, "capitalRecovery", "timing", NotChoice)
  }

  function ReadPay(raw: Option<Fields>): Option<Pay> {
    var kind := Get(raw, "kind");
    if kind == Some(Text("por_hora")) then
      match MinorOf(Get(raw, "rateMinorPerHour"))
      case Some(r) => Some(PerHour(r))
      case None => None
    else if kind == Some(Text("porcentaje")) then
      match PctOf(Get(raw, "pct"))
      case Some(p) => Some(Percent(p))
      case None => None
    else None
  }

  function PayProblems(raw: Option<Fields>): set<Problem> {
    var kind := Get(raw, "kind");
    if raw.None? then {}
    else if kind == Some(Text("por_hora")) then
      Unknown(raw, "work.pay", ["kind", "rateMinorPerHour"]) + Bad(MinorOf(Get(raw, "rateMinorPerHour")).Some?, "work.pay", "rateMinorPerHour", NotMinor)
    else if kind == Some(Text("porcentaje")) then
      Unknown(raw, "work.pay", ["kind", "pct"]) + Bad(PctOf(Get(raw, "pct")).Some?, "work.pay", "pct", NotPct)
    else Unknown(raw, "work.pay", ["kind"]) + {Problem("work.pay", "kind", NotKind)}
  }

  function ReadWork(f: Fields): Option<Work> {
    var raw := ObjectOf(Get(Some(f), "work"));
    match (BoolOf(Get(raw, "payHours")), ChoiceOf(Get(raw, "order"), WORK_ORDERS), ReadPay(ObjectOf(Get(raw, "pay"))))
    case (Some(h), Some(o), Some(p)) => Some(Work(h, o, p))
    case _ => None
  }

  function WorkProblems(f: Fields): set<Problem> {
    var raw := ObjectOf(Get(Some(f), "work"));
    Bad(raw.Some?, "", "work", NotObject) + Unknown(raw, "work", WORK_KEYS)
    + Bad(BoolOf(Get(raw, "payHours")).Some?, "work", "payHours", NotBool)
    + Bad(ChoiceOf(Get(raw, "order"), WORK_ORDERS).Some?, "work", "order", NotChoice)
    + Bad(ObjectOf(Get(raw, "pay")).Some?, "work", "pay", NotObject)
    + PayProblems(ObjectOf(Get(raw, "pay")))
  }

  function ReadExpenses(f: Fields): Option<string> { ChoiceOf(Get(Some(f), "partnerExpenses"), PARTNER_EXPENSE_MODES) }

  function ExpenseProblems(f: Fields): set<Problem> {
    Bad(ReadExpenses(f).Some?, "", "partnerExpenses", NotChoice)
  }

  function ReadReserves(f: Fields): Option<Reserves> {
    var raw := ObjectOf(Get(Some(f), "reserves"));
    var kind := Get(raw, "kind");
    if kind == Some(Text("porcentaje")) then
      match PctOf(Get(raw, "pct"))
      case Some(p) => Some(Portion(p))
      case None => None
    else if kind == Some(Text("monto")) then
      match MinorOf(Get(raw, "amountMinor"))
      case Some(a) => Some(Amount(a))
      case None => None
    else None
  }

  function ReserveProblems(f: Fields): set<Problem> {
    var raw := ObjectOf(Get(Some(f), "reserves"));
    var kind := Get(raw, "kind");
    Bad(raw.Some?, "", "reserves", NotObject)
    + if raw.None? then {}
      else if kind == Some(Text("porcentaje")) then
        Unknown(raw, "reserves", ["kind", "pct"]) + Bad(PctOf(Get(raw, "pct")).Some?, "reserves", "pct", NotPct)
      else if kind == Some(Text("monto")) then
        Unknown(raw, "reserves", ["kind", "amountMinor"]) + Bad(MinorOf(Get(raw, "amountMinor")).Some?, "reserves", "amountMinor", NotMinor)
      else Unknown(raw, "reserves", ["kind"]) + {Problem("reserves", "kind", NotKind)}
  }

  function ReadLoans(f: Fields): Option<bool> { BoolOf(Get(ObjectOf(Get(Some(f), "partnerLoans")), "repayBeforeCapital")) }

  function LoanProblems(f: Fields): set<Problem> {
    var raw := ObjectOf(Get(Some(f), "partnerLoans"));
    Bad(raw.Some?, "", "partnerLoans", NotObject) + Unknown(raw, "partnerLoans", LOAN_KEYS)
    + Bad(ReadLoans(f).Some?, "partnerLoans", "repayBeforeCapital", NotBool)
  }

  function Problems(f: Fields): set<Problem> {
    RootProblems(f) + BaseProblems(f) + ReinvestmentProblems(f) + RecoveryProblems(f)
    + WorkProblems(f) + ExpenseProblems(f) + ReserveProblems(f) + LoanProblems(f)
  }

  // ----- the reader, step by step --------------------------------------------------------------

  /** The one list of problems every reader appends to. */
  class Report {
    var problems: seq<Problem>

    ghost function Found(): set<Problem>
      reads this
    {
      set p | p in problems
    }

    constructor ()
      ensures Found() == {} && problems == []
    {
      problems := [];
    }

    method Add(p: Problem)
      modifies this
      ensures Found() == old(Found()) + {p} && problems != []
    {
      problems := problems + [p];
    }
  }

  class Reader {
    const report: Report
    const path: string
    const raw: Option<Fields>

    /** Refuses every key that is not allowed. */
    constructor (report: Report, path: string, raw: Option<Fields>, allowed: seq<string>)
      modifies report
      ensures this.report == report && this.path == path && this.raw == raw
      ensures report.Found() == old(report.Found()) + Unknown(raw, path, allowed)
    {
      this.report, this.path, this.raw := report, path, raw;
      new;
      if raw.Some? {
        var keys := raw.value.Keys;
        while keys != {}
          invariant keys <= raw.value.Keys
          invariant report.Found() == old(report.Found()) + set k | k in raw.value.Keys - keys && k !in allowed :: Problem(path, k, NotAllowed)
          decreases |keys|
        {
          var key := Pick(keys);
          if key !in allowed { report.Add(Problem(path, key, NotAllowed)); }
          keys := keys - {key};
        }
      }
    }

    method Fail(key: string, what: What)
      modifies report
      ensures report.Found() == old(report.Found()) + {Problem(path, key, what)}
    {
      report.Add(Problem(path, key, what));
    }

    method Pct(key: string) returns (r: Option<real>)
      modifies report
      ensures r == PctOf(Get(raw, key))
      ensures report.Found() == old(report.Found()) + Bad(r.Some?, path, key, NotPct)
    {
      r := PctOf(Get(raw, key));
      if r.None? { Fail(key, NotPct); }
    }

    method Minor(key: string) returns (r: Option<int>)
      modifies report
      ensures r == MinorOf(Get(raw, key))
      ensures report.Found() == old(report.Found()) + Bad(r.Some?, path, key, NotMinor)
    {
      r := MinorOf(Get(raw, key));
      if r.None? { Fail(key, NotMinor); }
    }

    method Boolean(key: string) returns (r: Option<bool>)
      modifies report
      ensures r == BoolOf(Get(raw, key))
      ensures report.Found() == old(report.Found()) + Bad(r.Some?, path, key, NotBool)
    {
      r := BoolOf(Get(raw, key));
      if r.None? { Fail(key, NotBool); }
    }

    method Choice(key: string, list: seq<string>) returns (r: Option<string>)
      modifies report
      ensures r == ChoiceOf(Get(raw, key), list)
      ensures report.Found() == old(report.Found()) + Bad(r.Some?, path, key, NotChoice)
    {
      r := ChoiceOf(Get(raw, key), list);
      if r.None? { Fail(key, NotChoice); }
    }

    method Object(key: string) returns (r: Option<Fields>)
      modifies report
      ensures r == ObjectOf(Get(raw, key))
      ensures report.Found() == old(report.Found()) + Bad(r.Some?, path, key, NotObject)
    {
      r := ObjectOf(Get(raw, key));
      if r.None? { Fail(key, NotObject); }
    }
  }

  method ParseBase(root: Reader, f: Fields) returns (r: Option<Base>)
    requires root.raw == Some(f) && root.path == ""
    modifies root.report
    ensures r == ReadBase(f) && root.report.Found() == old(root.report.Found()) + BaseProblems(f)
  {
    hide PctOf, Unknown;
    var raw := root.Object("profitBase");
    var base := new Reader(root.report, "profitBase", raw, BASE_KEYS);
    var partner := base.Pct("partnerPct");
    var capital := base.Pct("capitalPct");
    var work := base.Pct("workPct");
    r := None;
    if partner.Some? && capital.Some? && work.Some? {
      r := Some(Base(partner.value, capital.value, work.value));
      var total := Hundredths(partner.value) + Hundredths(capital.value) + Hundredths(work.value);
      if total != 10000 { root.report.Add(Problem("profitBase", "", DoesNotAddUp(total))); }
    }
  }

  /** The ceiling must be present: null for none, or an amount. */
  method ParseUntil(reader: Reader) returns (until: Option<int>)
    modifies reader.report
    ensures until == UntilOf(reader.raw)
    ensures reader.report.Found() == old(reader.report.Found())
         + Bad(reader.raw.None? || Get(reader.raw, "untilAmountMinor") == Some(Null) || MinorOf(Get(reader.raw, "untilAmountMinor")).Some?,
               reader.path, "untilAmountMinor", NotMinor)
  {
    until := None;
    if reader.raw.Some? && Get(reader.raw, "untilAmountMinor") != Some(Null) { until := reader.Minor("untilAmountMinor"); }
  }

  method ParseReinvestment(root: Reader, f: Fields) returns (r: Option<Reinvestment>)
    requires root.raw == Some(f) && root.path == ""
    modifies root.report
    ensures r == ReadReinvestment(f) && root.report.Found() == old(root.report.Found()) + ReinvestmentProblems(f)
  {
    hide PctOf, ChoiceOf, MinorOf, Unknown, Bad, UntilOf;
    var raw := root.Object("reinvestment");
    var reader := new Reader(root.report, "reinvestment", raw, REINVESTMENT_KEYS);
    var phase := reader.Choice("currentPhase", BUSINESS_PHASES);
    var arranque := reader.Pct("arranquePct");
    var operacion := reader.Pct("operacionPct");
    var cierre := reader.Pct("cierrePct");
    var until := ParseUntil(reader);
    r := if phase.Some? && arranque.Some? && operacion.Some? && cierre.Some?
         then Some(Reinvestment(phase.value, arranque.value, operacion.value, cierre.value, until)) else None;
  }

  method ParseRecovery(root: Reader, f: Fields) returns (r: Option<Recovery>)
    requires root.raw == Some(f) && root.path == ""
    modifies root.report
    ensures r == ReadRecovery(f) && root.report.Found() == old(root.report.Found()) + RecoveryProblems(f)
  {
    var raw := root.Object("capitalRecovery");
    var reader := new Reader(root.report, "capitalRecovery", raw, RECOVERY_KEYS);
    var mode := reader.Choice("mode", RECOVERY_MODES);
    var timing := reader.Choice("timing", RECOVERY_TIMINGS);
    r := if mode.Some? && timing.Some? then Some(Recovery(mode.value, timing.value)) else None;
  }

  method ParsePay(report: Report, raw: Option<Fields>) returns (r: Option<Pay>)
    modifies report
    ensures r == ReadPay(raw) && report.Found() == old(report.Found()) + PayProblems(raw)
  {
    r := None;
    if raw.Some? {
      if Get(raw, "kind") == Some(Text("por_hora")) {
        var reader := new Reader(report, "work.pay", raw, ["kind", "rateMinorPerHour"]);
        var rate := reader.Minor("rateMinorPerHour");
        if rate.Some? { r := Some(PerHour(rate.value)); }
      } else if Get(raw, "kind") == Some(Text("porcentaje")) {
        var reader := new Reader(report, "work.pay", raw, ["kind", "pct"]);
        var pct := reader.Pct("pct");
        if pct.Some? { r := Some(Percent(pct.value)); }
      } else {
        var reader := new Reader(report, "work.pay", raw, ["kind"]);
        reader.Fail("kind", NotKind);
      }
    }
  }

  method ParseWork(root: Reader, f: Fields) returns (r: Option<Work>)
    requires root.raw == Some(f) && root.path == ""
    modifies root.report
    ensures r == ReadWork(f) && root.report.Found() == old(root.report.Found()) + WorkProblems(f)
  {
    hide ChoiceOf, BoolOf, Unknown, PayProblems, ReadPay;
    var raw := root.Object("work");
    var reader := new Reader(root.report, "work", raw, WORK_KEYS);
    var payHours := reader.Boolean("payHours");
    var order := reader.Choice("order", WORK_ORDERS);
    var payRaw := reader.Object("pay");
    var pay := ParsePay(root.report, payRaw);
    r := if payHours.Some? && order.Some? && pay.Some? then Some(Work(payHours.value, order.value, pay.value)) else None;
  }

  method ParseReserves(root: Reader, f: Fields) returns (r: Option<Reserves>)
    requires root.raw == Some(f) && root.path == ""
    modifies root.report
    ensures r == ReadReserves(f) && root.report.Found() == old(root.report.Found()) + ReserveProblems(f)
  {
    r := None;
    var raw := root.Object("reserves");
    if raw.Some? {
      if Get(raw, "kind") == Some(Text("porcentaje")) {
        var reader := new Reader(root.report, "reserves", raw, ["kind", "pct"]);
        var pct := reader.Pct("pct");
        if pct.Some? { r := Some(Portion(pct.value)); }
      } else if Get(raw, "kind") == Some(Text("monto")) {
        var reader := new Reader(root.report, "reserves", raw, ["kind", "amountMinor"]);
        var amount := reader.Minor("amountMinor");
        if amount.Some? { r := Some(Amount(amount.value)); }
      } else {
        var reader := new Reader(root.report, "reserves", raw, ["kind"]);
        reader.Fail("kind", NotKind);
      }
    }
  }

  method ParseLoans(root: Reader, f: Fields) returns (r: Option<bool>)
    requires root.raw == Some(f) && root.path == ""
    modifies root.report
    ensures r == ReadLoans(f) && root.report.Found() == old(root.report.Found()) + LoanProblems(f)
  {
    var raw := root.Object("partnerLoans");
    var reader := new Reader(root.report, "partnerLoans", raw, LOAN_KEYS);
    r := reader.Boolean("repayBeforeCapital");
  }

  // ----- the whole configuration ---------------------------------------------------------------

  /** Without problems nothing is missing: every non-null assertion of the parser holds. */
  lemma NothingIsMissing(f: Fields)
    requires Problems(f) == {}
    ensures ReadBase(f).Some? && ReadReinvestment(f).Some? && ReadRecovery(f).Some? && ReadWork(f).Some?
    ensures ReadExpenses(f).Some? && ReadReserves(f).Some? && ReadLoans(f).Some?
  {
    hide PctOf, ChoiceOf, MinorOf, BoolOf, Unknown, Get, Hundredths;
    assert BaseProblems(f) == {} && ReinvestmentProblems(f) == {} && RecoveryProblems(f) == {} && WorkProblems(f) == {};
    assert ExpenseProblems(f) == {} && ReserveProblems(f) == {} && LoanProblems(f) == {};
    hide Problems;
    assert PayProblems(ObjectOf(Get(ObjectOf(Get(Some(f), "work")), "pay"))) == {};
  }

  function Rebuilt(f: Fields): Config
    requires Problems(f) == {}
  {
    NothingIsMissing(f);
    Config(ReadBase(f).value, ReadReinvestment(f).value, ReadRecovery(f).value, ReadWork(f).value,
           ReadExpenses(f).value, ReadReserves(f).value, ReadLoans(f).value)
  }

  const NOT_A_CONFIG := Problem("", "config", NotObject)

  /** A configuration, or the set of everything wrong with the input. */
  function Parsed(input: Json): Result<Config, set<Problem>> {
    if !input.Dict? then Err({NOT_A_CONFIG})
    else if Problems(input.fields) != {} then Err(Problems(input.fields))
    else Ok(Rebuilt(input.fields))
  }

  /** The parser itself: one shared report, read section by section. */
  method ParseRulesConfig(input: Json) returns (r: Result<Config, seq<Problem>>)
    ensures r.Ok? <==> Parsed(input).Ok?
    ensures r.Ok? ==> r.value == Parsed(input).value
    ensures r.Err? ==> (set p | p in r.error) == Parsed(input).error && r.error != []
  {
    if !input.Dict? { return Err([NOT_A_CONFIG]); }
    var f := input.fields;
    var report := new Report();
    var root := new Reader(report, "", Some(f), ROOT_KEYS);
    if Get(Some(f), "schemaVersion") != Some(Number(1.0)) { root.Fail("schemaVersion", NotVersion); }
    assert report.Found() == RootProblems(f);
    hide RootProblems, BaseProblems, ReinvestmentProblems, RecoveryProblems, WorkProblems, ExpenseProblems, ReserveProblems, LoanProblems;
    hide ReadBase, ReadReinvestment, ReadRecovery, ReadWork, ReadReserves, ReadLoans;
    var base := ParseBase(root, f);
    var reinvestment := ParseReinvestment(root, f);
    var recovery := ParseRecovery(root, f);
    var work := ParseWork(root, f);
    var expenses := root.Choice("partnerExpenses", PARTNER_EXPENSE_MODES);
    ExpensesRead(f);
    var reserves := ParseReserves(root, f);
    var loans := ParseLoans(root, f);
    assert report.Found() == Problems(f);
    if report.problems != [] {
      assert report.problems[0] in Problems(f);
      return Err(report.problems);
    }
    NothingIsMissing(f);
    return Ok(Config(base.value, reinvestment.value, recovery.value, work.value, expenses.value, reserves.value, loans.value));
  }

  lemma ExpensesRead(f: Fields)
    ensures ExpenseProblems(f) == Bad(ChoiceOf(Get(Some(f), "partnerExpenses"), PARTNER_EXPENSE_MODES).Some?, "", "partnerExpenses", NotChoice)
    ensures ReadExpenses(f) == ChoiceOf(Get(Some(f), "partnerExpenses"), PARTNER_EXPENSE_MODES)
  {
  }
}
