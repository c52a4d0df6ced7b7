/** The parser accepts exactly the encodings of valid configurations, and nothing is lost. */
module RulesRoundTrip {
  import opened Basics
  import opened RulesConfig

  // ----- valid configurations and their encoding ------------------------------------------------

  predicate ValidBase(b: Base) { IsPct(b.partner) && IsPct(b.capital) && IsPct(b.work) && TotalOf(b) == 10000 }

  predicate Minor(n: int) { 0 <= n <= MAX_MINOR_UNITS }

  predicate ValidReinvestment(r: Reinvestment) {
    r.phase in BUSINESS_PHASES && IsPct(r.arranque) && IsPct(r.operacion) && IsPct(r.cierre) && (r.until.Some? ==> Minor(r.until.value))
  }

  predicate ValidRecovery(r: Recovery) { r.mode in RECOVERY_MODES && r.timing in RECOVERY_TIMINGS }

  predicate ValidPay(p: Pay) { match p case PerHour(rate) => Minor(rate) case Percent(pct) => IsPct(pct) }

  predicate ValidWork(w: Work) { w.order in WORK_ORDERS && ValidPay(w.pay) }

  predicate ValidReserves(r: Reserves) { match r case Portion(pct) => IsPct(pct) case Amount(minor) => Minor(minor) }

  /** Percentages in hundredths that add up to 100, amounts in range, and choices from their lists. */
  predicate ValidConfig(c: Config) {
    && ValidBase(c.base) && ValidReinvestment(c.reinvestment) && ValidRecovery(c.recovery) && ValidWork(c.work)
    && c.expenses in PARTNER_EXPENSE_MODES && ValidReserves(c.reserves)
  }

  function EncodeBase(b: Base): Json {
    Dict(map["partnerPct" := Number(b.partner), "capitalPct" := Number(b.capital), "workPct" := Number(b.work)])
  }

  function EncodeReinvestment(r: Reinvestment): Json {
    Dict(map["currentPhase" := Text(r.phase), "arranquePct" := Number(r.arranque), "operacionPct" := Number(r.operacion),
             "cierrePct" := Number(r.cierre), "untilAmountMinor" := if r.until.Some? then Number(r.until.value as real) else Null])
  }

  function EncodeRecovery(r: Recovery): Json { Dict(map["mode" := Text(r.mode), "timing" := Text(r.timing)]) }

  function EncodePay(p: Pay): Json {
    match p
    case PerHour(rate) => Dict(map["kind" := Text("por_hora"), "rateMinorPerHour" := Number(rate as real)])
    case Percent(pct) => Dict(map["kind" := Text("porcentaje"), "pct" := Number(pct)])
  }

  function EncodeWork(w: Work): Json {
    Dict(map["payHours" := Bool(w.payHours), "order" := Text(w.order), "pay" := EncodePay(w.pay)])
  }

  function EncodeReserves(r: Reserves): Json {
    match r
    case Portion(pct) => Dict(map["kind" := Text("porcentaje"), "pct" := Number(pct)])
    case Amount(minor) => Dict(map["kind" := Text("monto"), "amountMinor" := Number(minor as real)])
  }

  function EncodeLoans(b: bool): Json { Dict(map["repayBeforeCapital" := Bool(b)]) }

  function Encode(c: Config): Json {
    Dict(map["schemaVersion" := Number(1.0), "profitBase" := EncodeBase(c.base), "reinvestment" := EncodeReinvestment(c.reinvestment),
             "capitalRecovery" := EncodeRecovery(c.recovery), "work" := EncodeWork(c.work), "partnerExpenses" := Text(c.expenses),
             "reserves" := EncodeReserves(c.reserves), "partnerLoans" := EncodeLoans(c.repayBeforeCapital)])
  }

  // ----- single values ----------------------------------------------------------------------------

  /** `k` hundredths, up to a millionth of a hundredth. */
  ghost predicate About(n: real, k: int) { -1.0 < (n * 100.0 - k as real) * 1000000.0 < 1.0 }

  /** A percentage is about a whole number of hundredths between 0 and 100. */
  lemma PctMeans(n: real)
    ensures IsPct(n) <==> 0.0 <= n <= 100.0 && exists k: int :: About(n, k)
  {
    var k := Hundredths(n);
    if IsPct(n) { assert About(n, k); }
    if j: int :| About(n, j) {
      assert j as real <= n * 100.0 + 0.5 < j as real + 1.0;
      assert k == j;
    }
  }

  /** The hundredths that are added up are the nearest ones. */
  lemma HundredthsAreNearest(n: real, k: int)
    ensures k == Hundredths(n) <==> k as real - 0.5 <= n * 100.0 < k as real + 0.5
  {
  }

  /** `n` is the whole number `k`. */
  ghost predicate Whole(n: real, k: int) { n == k as real }

  /** An amount is a whole number that is not negative and fits a signed 32-bit column. */
  lemma MinorMeans(n: real)
    ensures IsMinor(n) <==> exists k: int :: Whole(n, k) && 0 <= k < 0x8000_0000
  {
    if IsMinor(n) { assert Whole(n, n.Floor) && 0 <= n.Floor < 0x8000_0000; }
  }

  /** The choices of each list, by name. */
  lemma ChoicesAre(s: string)
    ensures s in BUSINESS_PHASES <==> s == "arranque" || s == "operacion" || s == "cierre"
    ensures s in RECOVERY_MODES <==> s == "ninguna" || s == "por_diferencia" || s == "total" || s == "proporcional"
    ensures s in RECOVERY_TIMINGS <==> s == "durante" || s == "al_cierre"
    ensures s in WORK_ORDERS <==> s == "antes" || s == "despues"
    ensures s in PARTNER_EXPENSE_MODES <==> s == "no_reembolsar" || s == "reembolsar" || s == "contar_como_aportacion"
  {
  }

  lemma MinorExact(v: Option<Json>, n: int)
    ensures MinorOf(v) == Some(n) <==> Minor(n) && v == Some(Number(n as real))
  {
  }

  lemma PctExact(v: Option<Json>, p: real)
    ensures PctOf(v) == Some(p) <==> IsPct(p) && v == Some(Number(p))
  {
  }

  lemma NoneUnknown(raw: Fields, path: string, allowed: seq<string>)
    ensures Unknown(Some(raw), path, allowed) == {} <==> forall k :: k in raw ==> k in allowed
  {
    forall k | k in raw && k !in allowed ensures Problem(path, k, NotAllowed) in Unknown(Some(raw), path, allowed) {}
  }

  // ----- section by section -------------------------------------------------------------------------

  lemma BaseExact(f: Fields, b: Base)
    ensures BaseProblems(f) == {} && ReadBase(f) == Some(b) <==> ValidBase(b) && Get(Some(f), "profitBase") == Some(EncodeBase(b))
  {
    var raw := ObjectOf(Get(Some(f), "profitBase"));
    if raw.Some? { NoneUnknown(raw.value, "profitBase", BASE_KEYS); }
    hide IsPct, Hundredths, Unknown;
    var e := EncodeBase(b).fields;
    if BaseProblems(f) == {} && ReadBase(f) == Some(b) {
      assert raw.value.Keys == e.Keys;
      assert raw.value == e;
    }
  }

  /** Two objects with the same listed keys and the same values there are one. */
  lemma SameByKeys(f: Fields, e: Fields, keys: seq<string>)
    requires (forall k :: k in f ==> k in keys) && (forall k :: k in e ==> k in keys)
    requires forall i :: 0 <= i < |keys| ==> keys[i] in f && keys[i] in e && f[keys[i]] == e[keys[i]]
    ensures f == e
  {
    assert forall k :: k in keys ==> k in f && k in e && f[k] == e[k];
    assert f.Keys == e.Keys;
  }

  lemma ReinvestmentFields(r: Reinvestment)
    ensures var e := EncodeReinvestment(r).fields;
            && (forall k :: k in e <==> k in REINVESTMENT_KEYS)
            && e["currentPhase"] == Text(r.phase) && e["arranquePct"] == Number(r.arranque) && e["operacionPct"] == Number(r.operacion)
            && e["cierrePct"] == Number(r.cierre) && e["untilAmountMinor"] == if r.until.Some? then Number(r.until.value as real) else Null
  {
    var e := EncodeReinvestment(r).fields;
    forall k ensures k in e <==> k in REINVESTMENT_KEYS {
      assert k in REINVESTMENT_KEYS <==> k == REINVESTMENT_KEYS[0] || k == REINVESTMENT_KEYS[1] || k == REINVESTMENT_KEYS[2]
                                         || k == REINVESTMENT_KEYS[3] || k == REINVESTMENT_KEYS[4];
    }
  }

  lemma ReinvestmentAccepted(f: Fields, r: Reinvestment)
    requires ReinvestmentProblems(f) == {} && ReadReinvestment(f) == Some(r)
    ensures ValidReinvestment(r) && Get(Some(f), "reinvestment") == Some(EncodeReinvestment(r))
  {
    var raw := ObjectOf(Get(Some(f), "reinvestment"));
    NoneUnknown(raw.value, "reinvestment", REINVESTMENT_KEYS);
    var until := Get(raw, "untilAmountMinor");
    if r.until.Some? { MinorExact(until, r.until.value); }
    PctExact(Get(raw, "arranquePct"), r.arranque);
    PctExact(Get(raw, "operacionPct"), r.operacion);
    PctExact(Get(raw, "cierrePct"), r.cierre);
    assert until == Some(Null) || MinorOf(until).Some?;
    hide IsPct, Unknown, MinorOf, PctOf, EncodeReinvestment;
    ReinvestmentFields(r);
    var e := EncodeReinvestment(r).fields;
    forall i | 0 <= i < |REINVESTMENT_KEYS|
      ensures var k := REINVESTMENT_KEYS[i]; k in raw.value && k in e && raw.value[k] == e[k]
    {
      if i == 0 { assert REINVESTMENT_KEYS[i] == "currentPhase"; }
      else if i == 1 { assert REINVESTMENT_KEYS[i] == "arranquePct"; }
      else if i == 2 { assert REINVESTMENT_KEYS[i] == "operacionPct"; }
      else if i == 3 { assert REINVESTMENT_KEYS[i] == "cierrePct"; }
      else { assert REINVESTMENT_KEYS[i] == "untilAmountMinor"; }
    }
    SameByKeys(raw.value, e, REINVESTMENT_KEYS);
  }

  lemma ReinvestmentDecoded(f: Fields, r: Reinvestment)
    requires ValidReinvestment(r) && Get(Some(f), "reinvestment") == Some(EncodeReinvestment(r))
    ensures ReinvestmentProblems(f) == {} && ReadReinvestment(f) == Some(r)
  {
    var e := EncodeReinvestment(r).fields;
    ReinvestmentFields(r);
    NoneUnknown(e, "reinvestment", REINVESTMENT_KEYS);
    if r.until.Some? { MinorExact(Get(Some(e), "untilAmountMinor"), r.until.value); }
    hide IsPct, Unknown, MinorOf, EncodeReinvestment;
  }

  lemma ReinvestmentExact(f: Fields, r: Reinvestment)
    ensures ReinvestmentProblems(f) == {} && ReadReinvestment(f) == Some(r)
       <==> ValidReinvestment(r) && Get(Some(f), "reinvestment") == Some(EncodeReinvestment(r))
  {
    if ReinvestmentProblems(f) == {} && ReadReinvestment(f) == Some(r) { ReinvestmentAccepted(f, r); }
    if ValidReinvestment(r) && Get(Some(f), "reinvestment") == Some(EncodeReinvestment(r)) { ReinvestmentDecoded(f, r); }
  }

  lemma RecoveryExact(f: Fields, r: Recovery)
    ensures RecoveryProblems(f) == {} && ReadRecovery(f) == Some(r)
       <==> ValidRecovery(r) && Get(Some(f), "capitalRecovery") == Some(EncodeRecovery(r))
  {
    var raw := ObjectOf(Get(Some(f), "capitalRecovery"));
    if raw.Some? { NoneUnknown(raw.value, "capitalRecovery", RECOVERY_KEYS); }
    hide Unknown;
    var e := EncodeRecovery(r).fields;
    if RecoveryProblems(f) == {} && ReadRecovery(f) == Some(r) {
      assert raw.value.Keys == e.Keys;
      assert raw.value == e;
    }
  }

  lemma PayExact(v: Option<Json>, p: Pay)
    ensures ObjectOf(v).Some? && PayProblems(ObjectOf(v)) == {} && ReadPay(ObjectOf(v)) == Some(p) <==> ValidPay(p) && v == Some(EncodePay(p))
  {
    var raw := ObjectOf(v);
    if raw.Some? {
      NoneUnknown(raw.value, "work.pay", ["kind", "rateMinorPerHour"]);
      NoneUnknown(raw.value, "work.pay", ["kind", "pct"]);
    }
    if p.PerHour? { MinorExact(Get(raw, "rateMinorPerHour"), p.rate); }
    hide IsPct, Unknown, MinorOf;
    var e := EncodePay(p).fields;
    if raw.Some? && PayProblems(raw) == {} && ReadPay(raw) == Some(p) {
      assert raw.value.Keys == e.Keys;
      assert raw.value == e;
    }
  }

  lemma WorkExact(f: Fields, w: Work)
    ensures WorkProblems(f) == {} && ReadWork(f) == Some(w) <==> ValidWork(w) && Get(Some(f), "work") == Some(EncodeWork(w))
  {
    var raw := ObjectOf(Get(Some(f), "work"));
    if raw.Some? { NoneUnknown(raw.value, "work", WORK_KEYS); }
    PayExact(Get(raw, "pay"), w.pay);
    hide Unknown, ReadPay, PayProblems, EncodePay, ValidPay;
    var e := EncodeWork(w).fields;
    if WorkProblems(f) == {} && ReadWork(f) == Some(w) {
      assert raw.value.Keys == e.Keys;
      assert raw.value == e;
    }
  }

  lemma ReservesExact(f: Fields, r: Reserves)
    ensures ReserveProblems(f) == {} && ReadReserves(f) == Some(r) <==> ValidReserves(r) && Get(Some(f), "reserves") == Some(EncodeReserves(r))
  {
    hide IsPct, Unknown, IsMinor;
    var raw := ObjectOf(Get(Some(f), "reserves"));
    if raw.Some? {
      NoneUnknown(raw.value, "reserves", ["kind", "pct"]);
      NoneUnknown(raw.value, "reserves", ["kind", "amountMinor"]);
    }
    if r.Amount? { MinorExact(Get(raw, "amountMinor"), r.minor); }
    hide IsPct, Unknown, MinorOf;
    var e := EncodeReserves(r).fields;
    if ReserveProblems(f) == {} && ReadReserves(f) == Some(r) {
      assert raw.value.Keys == e.Keys;
      assert raw.value == e;
    }
  }

  lemma LoansExact(f: Fields, b: bool)
    ensures LoanProblems(f) == {} && ReadLoans(f) == Some(b) <==> Get(Some(f), "partnerLoans") == Some(EncodeLoans(b))
  {
    var raw := ObjectOf(Get(Some(f), "partnerLoans"));
    if raw.Some? { NoneUnknown(raw.value, "partnerLoans", LOAN_KEYS); }
    hide Unknown;
    var e := EncodeLoans(b).fields;
    if LoanProblems(f) == {} && ReadLoans(f) == Some(b) {
      assert raw.value.Keys == e.Keys;
      assert raw.value == e;
    }
  }

  lemma ExpensesExact(f: Fields, s: string)
    ensures ExpenseProblems(f) == {} && ReadExpenses(f) == Some(s) <==> s in PARTNER_EXPENSE_MODES && Get(Some(f), "partnerExpenses") == Some(Text(s))
  {
  }

  lemma RootFields(c: Config)
    ensures var e := Encode(c).fields;
            && (forall k :: k in e <==> k in ROOT_KEYS)
            && e["schemaVersion"] == Number(1.0) && e["profitBase"] == EncodeBase(c.base)
            && e["reinvestment"] == EncodeReinvestment(c.reinvestment) && e["capitalRecovery"] == EncodeRecovery(c.recovery)
            && e["work"] == EncodeWork(c.work) && e["partnerExpenses"] == Text(c.expenses)
            && e["reserves"] == EncodeReserves(c.reserves) && e["partnerLoans"] == EncodeLoans(c.repayBeforeCapital)
  {
    hide EncodeBase, EncodeReinvestment, EncodeRecovery, EncodeWork, EncodeReserves, EncodeLoans;
    var e := Encode(c).fields;
    forall k ensures k in e <==> k in ROOT_KEYS {
      assert k in ROOT_KEYS <==> k == ROOT_KEYS[0] || k == ROOT_KEYS[1] || k == ROOT_KEYS[2] || k == ROOT_KEYS[3]
                                 || k == ROOT_KEYS[4] || k == ROOT_KEYS[5] || k == ROOT_KEYS[6] || k == ROOT_KEYS[7];
    }
  }

  ghost predicate SectionsAre(f: Fields, c: Config) {
    && Get(Some(f), "profitBase") == Some(EncodeBase(c.base))
    && Get(Some(f), "reinvestment") == Some(EncodeReinvestment(c.reinvestment))
    && Get(Some(f), "capitalRecovery") == Some(EncodeRecovery(c.recovery))
    && Get(Some(f), "work") == Some(EncodeWork(c.work))
    && Get(Some(f), "partnerExpenses") == Some(Text(c.expenses))
    && Get(Some(f), "reserves") == Some(EncodeReserves(c.reserves))
    && Get(Some(f), "partnerLoans") == Some(EncodeLoans(c.repayBeforeCapital))
  }

  lemma RootAt(f: Fields, c: Config, i: nat)
    requires Get(Some(f), "schemaVersion") == Some(Number(1.0)) && SectionsAre(f, c) && i < |ROOT_KEYS|
    ensures var k := ROOT_KEYS[i]; k in f && k in Encode(c).fields && f[k] == Encode(c).fields[k]
  {
    RootFields(c);
    hide Encode, EncodeBase, EncodeReinvestment, EncodeRecovery, EncodeWork, EncodeReserves, EncodeLoans;
    if i == 0 { assert ROOT_KEYS[i] == "schemaVersion"; }
    else if i == 1 { assert ROOT_KEYS[i] == "profitBase"; }
    else if i == 2 { assert ROOT_KEYS[i] == "reinvestment"; }
    else if i == 3 { assert ROOT_KEYS[i] == "capitalRecovery"; }
    else if i == 4 { assert ROOT_KEYS[i] == "work"; }
    else if i == 5 { assert ROOT_KEYS[i] == "partnerExpenses"; }
    else if i == 6 { assert ROOT_KEYS[i] == "reserves"; }
    else { assert ROOT_KEYS[i] == "partnerLoans"; }
  }

  lemma RootAccepted(f: Fields, c: Config)
    requires RootProblems(f) == {} && SectionsAre(f, c)
    ensures Dict(f) == Encode(c)
  {
    NoneUnknown(f, "", ROOT_KEYS);
    assert Get(Some(f), "schemaVersion") == Some(Number(1.0));
    RootFields(c);
    assert Encode(c).Dict?;
    hide Unknown, Encode, Bad, SectionsAre, Get;
    var e := Encode(c).fields;
    forall i | 0 <= i < |ROOT_KEYS| ensures var k := ROOT_KEYS[i]; k in f && k in e && f[k] == e[k] { RootAt(f, c, i); }
    SameByKeys(f, e, ROOT_KEYS);
  }

  lemma RootDecoded(f: Fields, c: Config)
    requires Dict(f) == Encode(c)
    ensures RootProblems(f) == {} && SectionsAre(f, c)
  {
    NoneUnknown(f, "", ROOT_KEYS);
    RootFields(c);
    hide Unknown, Encode, EncodeBase, EncodeReinvestment, EncodeRecovery, EncodeWork, EncodeReserves, EncodeLoans;
    assert ROOT_KEYS[0] == "schemaVersion" && ROOT_KEYS[1] == "profitBase" && ROOT_KEYS[2] == "reinvestment" && ROOT_KEYS[3] == "capitalRecovery";
    assert ROOT_KEYS[4] == "work" && ROOT_KEYS[5] == "partnerExpenses" && ROOT_KEYS[6] == "reserves" && ROOT_KEYS[7] == "partnerLoans";
  }

  /** An input with exactly the root keys is determined by its sections. */
  lemma RootExact(f: Fields, c: Config)
    ensures Dict(f) == Encode(c) <==> RootProblems(f) == {} && SectionsAre(f, c)
  {
    if Dict(f) == Encode(c) { RootDecoded(f, c); }
    if RootProblems(f) == {} && SectionsAre(f, c) { RootAccepted(f, c); }
  }

  /** The parser succeeds exactly on encodings of valid configurations, and gives back the one encoded. */
  lemma ParsesExactlyTheEncodings(input: Json, c: Config)
    ensures Parsed(input) == Ok(c) <==> ValidConfig(c) && input == Encode(c)
  {
    if input.Dict? {
      var f := input.fields;
      RootExact(f, c);
      BaseExact(f, c.base);
      ReinvestmentExact(f, c.reinvestment);
      RecoveryExact(f, c.recovery);
      WorkExact(f, c.work);
      ExpensesExact(f, c.expenses);
      ReservesExact(f, c.reserves);
      LoansExact(f, c.repayBeforeCapital);
      hide RootProblems, BaseProblems, ReinvestmentProblems, RecoveryProblems, WorkProblems, ExpenseProblems, ReserveProblems, LoanProblems;
      hide ReadBase, ReadReinvestment, ReadRecovery, ReadWork, ReadReserves, ReadLoans, ReadExpenses, Encode;
      hide EncodeBase, EncodeReinvestment, EncodeRecovery, EncodeWork, EncodeReserves, EncodeLoans;
      hide ValidBase, ValidReinvestment, ValidRecovery, ValidWork, ValidReserves, Get;
      if Problems(f) == {} { NothingIsMissing(f); }
    }
  }

  /** Well-formed inputs are the ones that parse. */
  lemma SucceedsExactlyWhenWellFormed(input: Json)
    ensures Parsed(input).Ok? <==> exists c :: ValidConfig(c) && input == Encode(c)
  {
    if Parsed(input).Ok? { ParsesExactlyTheEncodings(input, Parsed(input).value); }
    if c :| ValidConfig(c) && input == Encode(c) { ParsesExactlyTheEncodings(input, c); }
  }

  /** Parsing what was parsed changes nothing. */
  lemma ReparsingIsIdentity(input: Json)
    requires Parsed(input).Ok?
    ensures Parsed(Encode(Parsed(input).value)) == Parsed(input)
  {
    ParsesExactlyTheEncodings(input, Parsed(input).value);
  }
}
