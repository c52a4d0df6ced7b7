/**
 * Canonical JSON: keys sorted recursively by code unit, arrays in order, no whitespace,
 * and every value JSON cannot carry refused.
 */
module CanonicalJson {
  import opened Basics
  import opened Sorting
  import opened JsonText

  /** A JavaScript value. A finite number stands as the text its printer gives it (so -0 is 0). */
  datatype Value =
    | Null
    | Bool(b: bool)
    | Number(digits: Text)
    | String(s: Text)
    | Array(items: seq<Item>)
    | Object(entries: seq<Entry>)
    | Refused(why: Refusal)

  datatype Refusal = NonFinite | NonPlain | NotJson

  /** An array position: a hole of a sparse array, or a value. */
  datatype Item = Hole | Of(value: Value)

  /** A property, in the object's own order. */
  datatype Entry = Entry(key: Text, value: Value)

  /** A property already printed. */
  datatype Printed = Printed(key: Text, text: Text)

  predicate NumberUnit(c: Unit) {
    48 <= c <= 57 || c == 45 || c == 43 || c == 46 || c == 101
  }

  predicate NumberText(t: Text) {
    t != [] && forall i :: 0 <= i < |t| ==> NumberUnit(t[i])
  }

  /** What every JavaScript value satisfies: numbers print as number texts, keys are distinct. */
  ghost predicate Proper(v: Value) {
    match v
    case Number(d) => NumberText(d)
    case Array(items) => forall i :: 0 <= i < |items| && items[i].Of? ==> Proper(items[i].value)
    case Object(es) =>
      && (forall i, j :: 0 <= i < j < |es| ==> es[i].key != es[j].key)
      && (forall i :: 0 <= i < |es| ==> Proper(es[i].value))
    case _ => true
  }

  /** Nothing inside is refused. */
  ghost predicate Accepted(v: Value) {
    match v
    case Refused(_) => false
    case Array(items) => forall i :: 0 <= i < |items| && items[i].Of? ==> Accepted(items[i].value)
    case Object(es) => forall i :: 0 <= i < |es| ==> Accepted(es[i].value)
    case _ => true
  }

  // ----- the printer -----------------------------------------------------------------------

  const NULL: Text := [110, 117, 108, 108]
  const TRUE: Text := [116, 114, 117, 101]
  const FALSE: Text := [102, 97, 108, 115, 101]

  function Join(parts: seq<Text>): Text {
    if parts == [] then []
    else if |parts| == 1 then parts[0]
    else parts[0] + [COMMA] + Join(parts[1..])
  }

  function KeyOf(): Printed -> Text { (p: Printed) => p.key }

  function Members(ps: seq<Printed>): (parts: seq<Text>)
    ensures |parts| == |ps|
  {
    if ps == [] then [] else [Quote(ps[0].key) + [COLON] + ps[0].text] + Members(ps[1..])
  }

  function Serialize(v: Value): Result<Text, Refusal> {
    match v
    case Null => Ok(NULL)
    case Bool(b) => Ok(if b then TRUE else FALSE)
    case Number(d) => Ok(d)
    case String(s) => Ok(Quote(s))
    case Array(items) =>
      (match SerializeItems(items)
       case Ok(parts) => Ok([OPEN_ARRAY] + Join(parts) + [CLOSE_ARRAY])
       case Err(e) => Err(e))
    case Object(es) =>
      (match SerializeEntries(es)
       case Ok(ps) => Ok([OPEN_OBJECT] + Join(Members(Sort(ps, KeyOf(), Less))) + [CLOSE_OBJECT])
       case Err(e) => Err(e))
    case Refused(why) => Err(why)
  }

  function SerializeItems(items: seq<Item>): Result<seq<Text>, Refusal> {
    if items == [] then Ok([]) else
      match SerializeItem(items[0])
      case Err(e) => Err(e)
      case Ok(t) =>
        match SerializeItems(items[1..])
        case Err(e) => Err(e)
        case Ok(ts) => Ok([t] + ts)
  }

  /** Array.prototype.map skips a hole and join prints nothing for it. */
  function SerializeItem(item: Item): Result<Text, Refusal> {
    match item
    case Hole => Ok([])
    case Of(v) => Serialize(v)
  }

  function SerializeEntries(es: seq<Entry>): Result<seq<Printed>, Refusal> {
    if es == [] then Ok([]) else
      match Serialize(es[0].value)
      case Err(e) => Err(e)
      case Ok(t) =>
        match SerializeEntries(es[1..])
        case Err(e) => Err(e)
        case Ok(ps) => Ok([Printed(es[0].key, t)] + ps)
  }

  // ----- the same value, whatever the key order ---------------------------------------------

  /** An array of one hole prints like an empty one; nothing else is identified. */
  predicate Empty(items: seq<Item>) { items == [] || items == [Hole] }

  /** Equal after reordering keys at every level. */
  ghost predicate Same(v: Value, w: Value)
    decreases v
  {
    match (v, w)
    case (Array(xs), Array(ys)) =>
      (Empty(xs) && Empty(ys))
      || (!Empty(xs) && !Empty(ys) && |xs| == |ys|
          && forall i :: 0 <= i < |xs| ==> xs[i].Of? == ys[i].Of? && (xs[i].Of? ==> Same(xs[i].value, ys[i].value)))
    case (Object(es), Object(fs)) =>
      && (forall i :: 0 <= i < |es| ==> HasKey(fs, es[i].key))
      && (forall j :: 0 <= j < |fs| ==> HasKey(es, fs[j].key))
      && (forall i, j :: 0 <= i < |es| && 0 <= j < |fs| && es[i].key == fs[j].key ==> Same(es[i].value, fs[j].value))
    case _ => v == w
  }

  predicate HasKey(es: seq<Entry>, key: Text) {
    exists i :: 0 <= i < |es| && es[i].key == key
  }

  // ----- canonical form: sort first, then print as it stands ---------------------------------

  function EntryKey(): Entry -> Text { (e: Entry) => e.key }

  function Canon(v: Value): Value {
    match v
    case Array(items) => if Empty(items) then Array([]) else Array(CanonItems(items))
    case Object(es) => Object(Sort(CanonEntries(es), EntryKey(), Less))
    case _ => v
  }

  function CanonItems(items: seq<Item>): (r: seq<Item>)
    ensures |r| == |items|
    ensures forall i :: 0 <= i < |items| ==> r[i] == CanonItem(items[i])
  {
    if items == [] then [] else [CanonItem(items[0])] + CanonItems(items[1..])
  }

  function CanonItem(item: Item): Item {
    match item
    case Hole => Hole
    case Of(v) => Of(Canon(v))
  }

  function CanonEntries(es: seq<Entry>): (r: seq<Entry>)
    ensures |r| == |es|
    ensures forall i :: 0 <= i < |es| ==> r[i] == Entry(es[i].key, Canon(es[i].value))
  {
    if es == [] then [] else [Entry(es[0].key, Canon(es[0].value))] + CanonEntries(es[1..])
  }

  /** Prints a value in the order it has. */
  function Emit(v: Value): Text {
    match v
    case Null => NULL
    case Bool(b) => if b then TRUE else FALSE
    case Number(d) => d
    case String(s) => Quote(s)
    case Array(items) => [OPEN_ARRAY] + Join(EmitItems(items)) + [CLOSE_ARRAY]
    case Object(es) => [OPEN_OBJECT] + Join(Members(EmitEntries(es))) + [CLOSE_OBJECT]
    case Refused(_) => []
  }

  function EmitItems(items: seq<Item>): (parts: seq<Text>)
    ensures |parts| == |items|
  {
    if items == [] then [] else [EmitItem(items[0])] + EmitItems(items[1..])
  }

  function EmitItem(item: Item): Text {
    match item
    case Hole => []
    case Of(v) => Emit(v)
  }

  function EmitEntries(es: seq<Entry>): (ps: seq<Printed>)
    ensures |ps| == |es|
    ensures forall i :: 0 <= i < |es| ==> ps[i].key == es[i].key
  {
    if es == [] then [] else [Printed(es[0].key, Emit(es[0].value))] + EmitEntries(es[1..])
  }

  lemma {:induction false} InsertCommutes(e: Entry, es: seq<Entry>)
    ensures EmitEntries(Insert(e, es, EntryKey(), Less)) == Insert(Printed(e.key, Emit(e.value)), EmitEntries(es), KeyOf(), Less)
  {
    if es != [] && !Less(e.key, es[0].key) {
      InsertCommutes(e, es[1..]);
    } else {
      assert ([e] + es)[1..] == es;
    }
  }

  lemma {:induction false} SortCommutes(es: seq<Entry>)
    ensures EmitEntries(Sort(es, EntryKey(), Less)) == Sort(EmitEntries(es), KeyOf(), Less)
  {
    if es != [] {
      SortCommutes(es[1..]);
      InsertCommutes(es[0], Sort(es[1..], EntryKey(), Less));
    }
  }

  /** The printer is "canonicalize, then print", and refuses exactly what cannot be carried. */
  lemma {:induction false} SerializeIsEmit(v: Value)
    ensures Serialize(v).Ok? <==> Accepted(v)
    ensures Accepted(v) ==> Serialize(v) == Ok(Emit(Canon(v)))
  {
    match v
    case Array(items) =>
      ItemsAreEmitted(items);
      if Empty(items) { assert EmitItems([]) == []; }
    case Object(es) =>
      EntriesAreEmitted(es);
      SortCommutes(CanonEntries(es));
    case _ =>
  }

  lemma {:induction false} ItemsAreEmitted(items: seq<Item>)
    ensures SerializeItems(items).Ok? <==> forall i :: 0 <= i < |items| && items[i].Of? ==> Accepted(items[i].value)
    ensures SerializeItems(items).Ok? ==> SerializeItems(items) == Ok(EmitItems(CanonItems(items)))
  {
    if items != [] {
      ItemsAreEmitted(items[1..]);
      ItemIsEmitted(items[0]);
      assert forall i :: 0 <= i < |items[1..]| ==> items[1..][i] == items[i + 1];
      assert forall i :: 1 <= i < |items| ==> items[i] == items[1..][i - 1];
      assert CanonItems(items)[1..] == CanonItems(items[1..]);
    }
  }

  lemma {:induction false} ItemIsEmitted(item: Item)
    ensures SerializeItem(item).Ok? <==> (item.Of? ==> Accepted(item.value))
    ensures SerializeItem(item).Ok? ==> SerializeItem(item) == Ok(EmitItem(CanonItem(item)))
  {
    match item
    case Hole =>
    case Of(v) => SerializeIsEmit(v);
  }

  lemma {:induction false} EntriesAreEmitted(es: seq<Entry>)
    ensures SerializeEntries(es).Ok? <==> forall i :: 0 <= i < |es| ==> Accepted(es[i].value)
    ensures SerializeEntries(es).Ok? ==> SerializeEntries(es) == Ok(EmitEntries(CanonEntries(es)))
  {
    if es != [] {
      EntriesAreEmitted(es[1..]);
      SerializeIsEmit(es[0].value);
      assert forall i :: 0 <= i < |es[1..]| ==> es[1..][i] == es[i + 1];
      assert forall i :: 1 <= i < |es| ==> es[i] == es[1..][i - 1];
      assert CanonEntries(es)[1..] == CanonEntries(es[1..]);
    }
  }
}
