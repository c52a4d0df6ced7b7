/** The weighted-average purchase cost of a product, in whole cents, rounded half up. */
module RestockCost {
  import opened Basics

  const MAX_MINOR_UNITS := 2_147_483_647

  datatype RangeError = RangeError

  /** Amounts that are not cents within the stored range are refused, never persisted. */
  function Cents(amount: int): Result<int, RangeError> {
    if -2_147_483_648 <= amount <= MAX_MINOR_UNITS then Ok(amount) else Err(RangeError)
  }

  /** The exact average of stock at one cost and a purchase at another, rounded half up. */
  function Average(stock: int, current: int, quantity: int, purchase: int): int
    requires stock + quantity > 0
  {
    (2 * (stock * current + quantity * purchase) + (stock + quantity)) / (2 * (stock + quantity))
  }

  /** The cost after a restock; None leaves it as it is. */
  function NextProductCost(stock: int, cost: Option<int>, quantity: int, unitCost: Option<int>): Result<Option<int>, RangeError> {
    if stock < 0 || quantity < 1 then Err(RangeError)
    else
      match unitCost
      case None => Ok(None)
      case Some(purchase) =>
        if purchase < 0 || Cents(purchase).Err? then Err(RangeError)
        else if stock == 0 then Ok(Some(purchase))
        else
          match cost
          case None => Ok(None)
          case Some(current) =>
            if current < 0 || Cents(current).Err? then Err(RangeError)
            else
              match Cents(Average(stock, current, quantity, purchase))
              case Ok(average) => Ok(Some(average))
              case Err(e) => Err(e)
  }

  lemma Halves(total: int, units: int, average: int)
    requires units > 0 && average == (2 * total + units) / (2 * units)
    ensures 2 * total - units < 2 * (average * units) <= 2 * total + units
  {
    var n, d := 2 * total + units, 2 * units;
    assert n == d * (n / d) + n % d;
    assert d * average == 2 * (average * units);
  }

  /** Within half a cent of the exact average, exact ties going up. */
  lemma RoundsHalfUp(stock: int, current: int, quantity: int, purchase: int)
    requires stock + quantity > 0
    ensures var units, total := stock + quantity, stock * current + quantity * purchase;
            2 * total - units < 2 * (Average(stock, current, quantity, purchase) * units) <= 2 * total + units
  {
    Halves(stock * current + quantity * purchase, stock + quantity, Average(stock, current, quantity, purchase));
  }

  lemma Less(a: int, b: int, c: int)
    requires c >= 0
    ensures a <= b ==> c * a <= c * b && a * c <= b * c
  {
  }

  lemma Bounded(low: int, high: int, average: int, units: int, total: int)
    requires units > 0 && low * units <= total <= high * units
    requires 2 * total - units < 2 * (average * units) <= 2 * total + units
    ensures low <= average <= high
  {
    Less(average + 1, low, units);
    Less(high + 1, average, units);
    assert (average + 1) * units == average * units + units && (high + 1) * units == high * units + units;
  }

  lemma Mixed(a: int, b: int, stock: int, quantity: int)
    requires stock >= 0 && quantity >= 0 && a <= b
    ensures a * (stock + quantity) <= stock * a + quantity * b <= b * (stock + quantity)
    ensures a * (stock + quantity) <= stock * b + quantity * a <= b * (stock + quantity)
  {
    Less(a, b, stock);
    Less(a, b, quantity);
    assert a * (stock + quantity) == stock * a + quantity * a && b * (stock + quantity) == stock * b + quantity * b;
  }

  /** The average lies between the two costs. */
  lemma StaysBetween(stock: int, current: int, quantity: int, purchase: int)
    requires stock >= 0 && quantity >= 1
    ensures var average := Average(stock, current, quantity, purchase);
            (current <= average <= purchase) || (purchase <= average <= current)
  {
    var average, units, total := Average(stock, current, quantity, purchase), stock + quantity, stock * current + quantity * purchase;
    RoundsHalfUp(stock, current, quantity, purchase);
    hide Average;
    if current <= purchase {
      Mixed(current, purchase, stock, quantity);
      Bounded(current, purchase, average, units, total);
    } else {
      Mixed(purchase, current, stock, quantity);
      Bounded(purchase, current, average, units, total);
    }
  }

  /** The range check on the result never fires: only an argument can be refused. */
  lemma ResultIsInRange(stock: int, cost: Option<int>, quantity: int, unitCost: Option<int>)
    ensures NextProductCost(stock, cost, quantity, unitCost).Err? <==>
              || stock < 0 || quantity < 1
              || (unitCost.Some? && !(0 <= unitCost.value <= 2_147_483_647))
              || (unitCost.Some? && stock > 0 && cost.Some? && !(0 <= cost.value <= 2_147_483_647))
  {
    if unitCost.Some? && cost.Some? && stock > 0 && quantity >= 1 {
      StaysBetween(stock, cost.value, quantity, unitCost.value);
    }
  }

  /** The cost changes exactly when the purchase cost is given and the old cost, if it counts, is known. */
  lemma ChangesExactlyWhenKnown(stock: int, cost: Option<int>, quantity: int, unitCost: Option<int>)
    requires NextProductCost(stock, cost, quantity, unitCost).Ok?
    ensures NextProductCost(stock, cost, quantity, unitCost).value.Some? <==> unitCost.Some? && (stock == 0 || cost.Some?)
    ensures NextProductCost(stock, cost, quantity, unitCost).value.Some? && stock == 0 ==>
              NextProductCost(stock, cost, quantity, unitCost).value == unitCost
  {
    if unitCost.Some? && cost.Some? && stock > 0 { StaysBetween(stock, cost.value, quantity, unitCost.value); }
  }

  // ----- a whole run ---------------------------------------------------------------------------

  /** A costed restock, or pieces leaving at the product's cost. */
  datatype Event = In(quantity: nat, unitCost: nat) | Out(quantity: nat)

  /** A product with a known cost, and the exact money its stock stands for. */
  datatype Shelf = Shelf(stock: nat, cost: nat, spent: int)

  ghost predicate Possible(s: Shelf, e: Event) {
    match e
    case In(quantity, unitCost) => quantity >= 1 && unitCost <= MAX_MINOR_UNITS
    case Out(quantity) => quantity <= s.stock
  }

  function After(s: Shelf, e: Event): Shelf
    requires Possible(s, e) && s.cost <= MAX_MINOR_UNITS
    ensures After(s, e).cost <= MAX_MINOR_UNITS
  {
    match e
    case In(quantity, unitCost) =>
      ResultIsInRange(s.stock, Some(s.cost), quantity, Some(unitCost));
      ChangesExactlyWhenKnown(s.stock, Some(s.cost), quantity, Some(unitCost));
      CostIsCents(s.stock, s.cost, quantity, unitCost);
      Shelf(s.stock + quantity, NextProductCost(s.stock, Some(s.cost), quantity, Some(unitCost)).value.value, s.spent + quantity * unitCost)
    case Out(quantity) => Shelf(s.stock - quantity, s.cost, s.spent - quantity * s.cost)
  }

  lemma CostIsCents(stock: nat, cost: nat, quantity: nat, unitCost: nat)
    requires cost <= MAX_MINOR_UNITS && unitCost <= MAX_MINOR_UNITS && quantity >= 1
    ensures var next := NextProductCost(stock, Some(cost), quantity, Some(unitCost));
            next.Ok? && next.value.Some? && 0 <= next.value.value <= MAX_MINOR_UNITS
  {
    if stock > 0 { StaysBetween(stock, cost, quantity, unitCost); }
  }

  ghost predicate Runs(s: Shelf, events: seq<Event>)
    decreases |events|
  {
    s.cost <= MAX_MINOR_UNITS && (events == [] || (Possible(s, events[0]) && Runs(After(s, events[0]), events[1..])))
  }

  function End(s: Shelf, events: seq<Event>): Shelf
    requires Runs(s, events)
    decreases |events|
  {
    if events == [] then s else End(After(s, events[0]), events[1..])
  }

  /** The stock levels right after each restock, added up. */
  function Levels(s: Shelf, events: seq<Event>): nat
    requires Runs(s, events)
    decreases |events|
  {
    if events == [] then 0
    else
      var next := After(s, events[0]);
      (if events[0].In? then next.stock else 0) + Levels(next, events[1..])
  }

  function Drift(s: Shelf): int { s.stock * s.cost - s.spent }

  lemma OutDrift(stock: int, cost: int, quantity: int)
    ensures (stock - quantity) * cost == stock * cost - quantity * cost
  {
  }

  lemma InDrift(stock: int, cost: int, quantity: int, unitCost: int, spent: int, a: int)
    requires var units, total := stock + quantity, stock * cost + quantity * unitCost;
             units >= 0 && 2 * total - units < 2 * (a * units) <= 2 * total + units
    ensures Abs(2 * (((stock + quantity) * a - (spent + quantity * unitCost)) - (stock * cost - spent))) <= stock + quantity
  {
    assert (stock + quantity) * a == a * (stock + quantity);
  }

  lemma OneDrift(s: Shelf, e: Event)
    requires Possible(s, e) && s.cost <= MAX_MINOR_UNITS
    ensures e.Out? ==> Drift(After(s, e)) == Drift(s)
    ensures e.In? ==> Abs(2 * (Drift(After(s, e)) - Drift(s))) <= After(s, e).stock
  {
    match e
    case In(quantity, unitCost) =>
      if s.stock > 0 {
        StaysBetween(s.stock, s.cost, quantity, unitCost);
        RoundsHalfUp(s.stock, s.cost, quantity, unitCost);
        var a := After(s, e).cost;
        assert a == Average(s.stock, s.cost, quantity, unitCost);
        hide Average, NextProductCost;
        InDrift(s.stock, s.cost, quantity, unitCost, s.spent, a);
      }
    case Out(quantity) => OutDrift(s.stock, s.cost, quantity);
  }

  /** Over any run, stock times cost drifts from the exact money by at most half the sum of the successive stock levels. */
  lemma {:induction false} DriftIsBounded(s: Shelf, events: seq<Event>)
    requires Runs(s, events)
    ensures Abs(2 * (Drift(End(s, events)) - Drift(s))) <= Levels(s, events)
    decreases |events|
  {
    if events != [] {
      OneDrift(s, events[0]);
      DriftIsBounded(After(s, events[0]), events[1..]);
    }
  }
}
