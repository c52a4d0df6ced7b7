/** Canonical JSON can be read back, so two values print alike exactly when they are the same. */
module CanonicalJsonFacts {
  import opened Basics
  import opened Sorting
  import opened JsonText
  import opened CanonicalJson

  // ----- a reader ---------------------------------------------------------------------------

  function NumberRun(t: Text): (n: nat)
    ensures n <= |t|
    ensures forall i :: 0 <= i < n ==> NumberUnit(t[i])
    ensures n < |t| ==> !NumberUnit(t[n])
  {
    if t == [] || !NumberUnit(t[0]) then 0 else 1 + NumberRun(t[1..])
  }

  function Read(t: Text): (r: Option<(Value, Text)>)
    ensures r.Some? ==> |r.value.1| < |t|
    decreases |t|, 0
  {
    if t == [] then None
    else if NULL <= t then Some((Null, t[4..]))
    else if TRUE <= t then Some((Bool(true), t[4..]))
    else if FALSE <= t then Some((Bool(false), t[5..]))
    else if t[0] == QUOTE then
      match ReadBody(t[1..])
      case Some((s, rest)) => Some((String(s), rest))
      case None => None
    else if t[0] == OPEN_ARRAY then
      if |t| >= 2 && t[1] == CLOSE_ARRAY then Some((Array([]), t[2..]))
      else match ReadItems(t[1..])
        case Some((items, rest)) => Some((Array(items), rest))
        case None => None
    else if t[0] == OPEN_OBJECT then
      if |t| >= 2 && t[1] == CLOSE_OBJECT then Some((Object([]), t[2..]))
      else match ReadEntries(t[1..])
        case Some((es, rest)) => Some((Object(es), rest))
        case None => None
    else if NumberUnit(t[0]) then Some((Number(t[..NumberRun(t)]), t[NumberRun(t)..]))
    else None
  }

  /** Items up to and including the closing bracket. */
  function ReadItems(t: Text): (r: Option<(seq<Item>, Text)>)
    ensures r.Some? ==> |r.value.1| < |t|
    decreases |t|, 1
  {
    if t == [] then None
    else if t[0] == COMMA then MoreItems(Hole, ReadItems(t[1..]))
    else if t[0] == CLOSE_ARRAY then Some(([Hole], t[1..]))
    else match Read(t)
      case None => None
      case Some((v, rest)) =>
        if rest == [] then None
        else if rest[0] == COMMA then MoreItems(Of(v), ReadItems(rest[1..]))
        else if rest[0] == CLOSE_ARRAY then Some(([Of(v)], rest[1..]))
        else None
  }

  function MoreItems(item: Item, r: Option<(seq<Item>, Text)>): Option<(seq<Item>, Text)> {
    match r
    case Some((items, rest)) => Some(([item] + items, rest))
    case None => None
  }

  /** Properties up to and including the closing brace. */
  function ReadEntries(t: Text): (r: Option<(seq<Entry>, Text)>)
    ensures r.Some? ==> |r.value.1| < |t|
    decreases |t|, 1
  {
    if t == [] || t[0] != QUOTE then None
    else match ReadBody(t[1..])
      case None => None
      case Some((key, afterKey)) =>
        if afterKey == [] || afterKey[0] != COLON then None
        else match Read(afterKey[1..])
          case None => None
          case Some((v, rest)) =>
            if rest == [] then None
            else if rest[0] == COMMA then MoreEntries(Entry(key, v), ReadEntries(rest[1..]))
            else if rest[0] == CLOSE_OBJECT then Some(([Entry(key, v)], rest[1..]))
            else None
  }

  function MoreEntries(e: Entry, r: Option<(seq<Entry>, Text)>): Option<(seq<Entry>, Text)> {
    match r
    case Some((es, rest)) => Some(([e] + es, rest))
    case None => None
  }

  // ----- reading what was printed ------------------------------------------------------------

  /** Values the printer leaves in canonical shape, whatever the key order. */
  ghost predicate Printable(v: Value) {
    match v
    case Number(d) => NumberText(d)
    case Array(items) => items != [Hole] && forall i :: 0 <= i < |items| && items[i].Of? ==> Printable(items[i].value)
    case Object(es) => forall i :: 0 <= i < |es| ==> Printable(es[i].value)
    case Refused(_) => false
    case _ => true
  }

  /** The text cannot continue a number. */
  predicate Ends(x: Text) { x == [] || !NumberUnit(x[0]) }

  lemma FirstUnit(v: Value)
    requires Printable(v)
    ensures Emit(v) != []
    ensures Emit(v)[0] != COMMA && Emit(v)[0] != CLOSE_ARRAY && Emit(v)[0] != CLOSE_OBJECT
    ensures v.Number? <==> NumberUnit(Emit(v)[0])
  {
  }

  lemma {:induction false} NumberRunStops(d: Text, x: Text)
    requires (forall i :: 0 <= i < |d| ==> NumberUnit(d[i])) && Ends(x)
    ensures NumberRun(d + x) == |d|
  {
    if d == [] {
      assert d + x == x;
    } else {
      NumberRunStops(d[1..], x);
      assert (d + x)[1..] == d[1..] + x;
    }
  }

  lemma ReadLiteral(v: Value, x: Text)
    requires v.Null? || v.Bool?
    ensures Read(Emit(v) + x) == Some((v, x))
  {
    var t := Emit(v) + x;
    assert t[..|Emit(v)|] == Emit(v) && t[|Emit(v)|..] == x;
    assert t[0] == Emit(v)[0];
    assert Emit(v) <= t;
  }

  lemma ReadNumber(d: Text, x: Text)
    requires NumberText(d) && Ends(x)
    ensures Read(d + x) == Some((Number(d), x))
  {
    var t := d + x;
    NumberRunStops(d, x);
    assert t[0] == d[0] && t[..|d|] == d && t[|d|..] == x;
  }

  lemma ReadString(s: Text, x: Text)
    ensures Read(Quote(s) + x) == Some((String(s), x))
  {
    assert (Quote(s) + x)[0] == QUOTE && (Quote(s) + x)[1..] == Body(s) + x;
    QuoteRoundTrip(s, x);
  }

  lemma {:induction false} ReadEmit(v: Value, x: Text)
    requires Printable(v) && (v.Number? ==> Ends(x))
    ensures Read(Emit(v) + x) == Some((v, x))
    decreases v, 0
  {
    match v
    case Null => ReadLiteral(v, x);
    case Bool(_) => ReadLiteral(v, x);
    case Number(d) => ReadNumber(d, x);
    case String(s) => ReadString(s, x);
    case Array(items) => ReadArray(items, x);
    case Object(es) => ReadObject(es, x);
  }

  lemma OpenArray(inside: Text, items: seq<Item>, x: Text)
    requires inside != [] && inside[0] != CLOSE_ARRAY && ReadItems(inside) == Some((items, x))
    ensures Read([OPEN_ARRAY] + inside) == Some((Array(items), x))
  {
    hide ReadItems, ReadEntries, ReadBody, NumberRun;
    var t := [OPEN_ARRAY] + inside;
    assert t[0] == OPEN_ARRAY && NULL[0] == 110 && TRUE[0] == 116 && FALSE[0] == 102;
    assert t[1..] == inside;
  }

  lemma OpenObject(inside: Text, es: seq<Entry>, x: Text)
    requires inside != [] && inside[0] != CLOSE_OBJECT && ReadEntries(inside) == Some((es, x))
    ensures Read([OPEN_OBJECT] + inside) == Some((Object(es), x))
  {
    hide ReadItems, ReadEntries, ReadBody, NumberRun;
    var t := [OPEN_OBJECT] + inside;
    assert t[0] == OPEN_OBJECT && NULL[0] == 110 && TRUE[0] == 116 && FALSE[0] == 102;
    assert t[1..] == inside;
  }

  lemma ReadEmpty(x: Text)
    ensures Read([OPEN_ARRAY] + [CLOSE_ARRAY] + x) == Some((Array([]), x))
    ensures Read([OPEN_OBJECT] + [CLOSE_OBJECT] + x) == Some((Object([]), x))
  {
    hide ReadItems, ReadEntries, ReadBody, NumberRun;
    var a, o := [OPEN_ARRAY] + [CLOSE_ARRAY] + x, [OPEN_OBJECT] + [CLOSE_OBJECT] + x;
    assert a[0] == OPEN_ARRAY && o[0] == OPEN_OBJECT && NULL[0] == 110 && TRUE[0] == 116 && FALSE[0] == 102;
    assert a[1] == CLOSE_ARRAY && o[1] == CLOSE_OBJECT && a[2..] == x && o[2..] == x;
  }

  lemma Nest(a: Text, b: Text, c: Text, d: Text)
    ensures a + b + c + d == a + (b + c + d)
    ensures a + [] + c == a + c
  {
  }

  lemma {:induction false} ReadArray(items: seq<Item>, x: Text)
    requires Printable(Array(items))
    ensures Read(Emit(Array(items)) + x) == Some((Array(items), x))
    decreases items, 2
  {
    var joined := Join(EmitItems(items));
    assert Emit(Array(items)) == [OPEN_ARRAY] + joined + [CLOSE_ARRAY];
    hide Read, ReadItems, Emit;
    Nest([OPEN_ARRAY], joined, [CLOSE_ARRAY], x);
    if items == [] {
      ReadEmpty(x);
    } else {
      ItemsFirstUnit(items, x);
      ReadEmitItems(items, x);
      OpenArray(joined + [CLOSE_ARRAY] + x, items, x);
    }
  }

  lemma {:induction false} ReadObject(es: seq<Entry>, x: Text)
    requires Printable(Object(es))
    ensures Read(Emit(Object(es)) + x) == Some((Object(es), x))
    decreases es, 2
  {
    var joined := Join(Members(EmitEntries(es)));
    assert Emit(Object(es)) == [OPEN_OBJECT] + joined + [CLOSE_OBJECT];
    hide Read, ReadEntries, Emit;
    Nest([OPEN_OBJECT], joined, [CLOSE_OBJECT], x);
    if es == [] {
      ReadEmpty(x);
    } else {
      ReadEmitEntries(es, x);
      OpenObject(joined + [CLOSE_OBJECT] + x, es, x);
    }
  }

  lemma ItemsFirstUnit(items: seq<Item>, x: Text)
    requires items != [] && items != [Hole] && forall i :: 0 <= i < |items| && items[i].Of? ==> Printable(items[i].value)
    ensures var inside := Join(EmitItems(items)) + [CLOSE_ARRAY] + x;
            |inside| > 0 && inside[0] != CLOSE_ARRAY
  {
    if items[0].Of? { FirstUnit(items[0].value); }
  }

  lemma Glue(a: Text, b: Text, c: Text)
    ensures a + b + c == a + (b + c)
    ensures a == [] ==> a + (b + c) == b + c
  {
  }

  lemma GlueMore(a: Text, b: Text, c: Text, d: Text, e: Text)
    ensures a + b + c + d + e == a + (b + (c + d + e))
    ensures a == [] ==> a + (b + (c + d + e)) == b + (c + d + e)
  {
  }

  lemma HoleFirst(rest: Text, x: Text)
    ensures ReadItems([COMMA] + rest) == MoreItems(Hole, ReadItems(rest))
    ensures ReadItems([CLOSE_ARRAY] + x) == Some(([Hole], x))
  {
    hide Read;
    assert ([COMMA] + rest)[1..] == rest && ([CLOSE_ARRAY] + x)[1..] == x;
  }

  lemma ValueFirst(t: Text, v: Value, rest: Text, x: Text)
    requires t != [] && t[0] != COMMA && t[0] != CLOSE_ARRAY
    ensures Read(t) == Some((v, [COMMA] + rest)) ==> ReadItems(t) == MoreItems(Of(v), ReadItems(rest))
    ensures Read(t) == Some((v, [CLOSE_ARRAY] + x)) ==> ReadItems(t) == Some(([Of(v)], x))
  {
    hide Read;
    assert ([COMMA] + rest)[1..] == rest && ([CLOSE_ARRAY] + x)[1..] == x;
  }

  lemma {:induction false} ReadEmitItems(items: seq<Item>, x: Text)
    requires items != [] && forall i :: 0 <= i < |items| && items[i].Of? ==> Printable(items[i].value)
    ensures ReadItems(Join(EmitItems(items)) + [CLOSE_ARRAY] + x) == Some((items, x))
    decreases items, 1
  {
    hide Read, ReadItems, Emit;
    var first := EmitItem(items[0]);
    assert items == [items[0]] + items[1..];
    if |items| == 1 {
      assert Join(EmitItems(items)) == first;
      Glue(first, [CLOSE_ARRAY], x);
      if items[0].Of? {
        ReadOneItem(items[0], [CLOSE_ARRAY] + x);
        ValueFirst(first + ([CLOSE_ARRAY] + x), items[0].value, [], x);
        assert items == [Of(items[0].value)];
      } else {
        assert items == [Hole] && first == [];
        HoleFirst([], x);
      }
    } else {
      var others := Join(EmitItems(items[1..]));
      var rest := others + [CLOSE_ARRAY] + x;
      assert EmitItems(items)[1..] == EmitItems(items[1..]);
      assert Join(EmitItems(items)) == first + [COMMA] + others;
      GlueMore(first, [COMMA], others, [CLOSE_ARRAY], x);
      ReadEmitItems(items[1..], x);
      if items[0].Of? {
        ReadOneItem(items[0], [COMMA] + rest);
        ValueFirst(first + ([COMMA] + rest), items[0].value, rest, x);
      } else {
        assert items[0] == Hole && first == [];
        HoleFirst(rest, x);
      }
    }
  }

  lemma {:induction false} ReadOneItem(item: Item, x: Text)
    requires item.Of? && Printable(item.value) && Ends(x)
    ensures Read(EmitItem(item) + x) == Some((item.value, x))
    ensures var t := EmitItem(item) + x;
            t != [] && t[0] != COMMA && t[0] != CLOSE_ARRAY
    decreases item, 0
  {
    match item
    case Of(v) =>
      ReadEmit(v, x);
      FirstUnit(v);
  }

  lemma {:induction false} ReadEmitEntries(es: seq<Entry>, x: Text)
    requires es != [] && forall i :: 0 <= i < |es| ==> Printable(es[i].value)
    ensures ReadEntries(Join(Members(EmitEntries(es))) + [CLOSE_OBJECT] + x) == Some((es, x))
    ensures (Join(Members(EmitEntries(es))) + [CLOSE_OBJECT] + x)[0] == QUOTE
    decreases es, 1
  {
    hide Emit, Quote, Read, ReadEntries;
    var first := Members(EmitEntries(es))[0];
    assert es == [es[0]] + es[1..];
    assert first == Quote(es[0].key) + [COLON] + Emit(es[0].value);
    if |es| == 1 {
      assert Join(Members(EmitEntries(es))) == first;
      Glue(first, [CLOSE_OBJECT], x);
      ReadOneEntry(es[0], [CLOSE_OBJECT] + x);
      assert ([CLOSE_OBJECT] + x)[1..] == x && es == [es[0]];
    } else {
      var others := Join(Members(EmitEntries(es[1..])));
      var more := others + [CLOSE_OBJECT] + x;
      assert EmitEntries(es)[1..] == EmitEntries(es[1..]);
      assert Join(Members(EmitEntries(es))) == first + [COMMA] + others;
      GlueMore(first, [COMMA], others, [CLOSE_OBJECT], x);
      ReadOneEntry(es[0], [COMMA] + more);
      ReadEmitEntries(es[1..], x);
      assert ([COMMA] + more)[1..] == more;
    }
  }

  lemma {:induction false} ReadOneEntry(e: Entry, rest: Text)
    requires Printable(e.value) && rest != [] && (rest[0] == COMMA || rest[0] == CLOSE_OBJECT)
    ensures var t := Quote(e.key) + [COLON] + Emit(e.value) + rest;
            t[0] == QUOTE
            && ReadEntries(t) == if rest[0] == COMMA then MoreEntries(e, ReadEntries(rest[1..])) else Some(([e], rest[1..]))
    decreases e, 0
  {
    var t := Quote(e.key) + [COLON] + Emit(e.value) + rest;
    var afterKey := [COLON] + (Emit(e.value) + rest);
    assert t[0] == QUOTE && t[1..] == Body(e.key) + afterKey;
    QuoteRoundTrip(e.key, afterKey);
    ReadEmit(e.value, rest);
    hide Emit, Quote, Body, Read, ReadBody;
    assert afterKey[0] == COLON && afterKey[1..] == Emit(e.value) + rest;
  }

  // ----- what the text decides ------------------------------------------------------------

  lemma LessIsStrictTotal()
    ensures StrictTotal(Less)
  {
    forall a: Text ensures !Less(a, a) { LessIrreflexive(a); }
    forall a: Text, b: Text, c: Text | Less(a, b) && Less(b, c) ensures Less(a, c) { LessTransitive(a, b, c); }
    forall a: Text, b: Text | a != b ensures Less(a, b) || Less(b, a) { LessTotal(a, b); }
  }

  ghost predicate DistinctEntries(es: seq<Entry>) {
    forall i, j :: 0 <= i < j < |es| ==> es[i].key != es[j].key
  }

  lemma SortedEntries(es: seq<Entry>)
    requires DistinctEntries(es)
    ensures var r := Sort(es, EntryKey(), Less);
            && Ascending(r, EntryKey(), Less)
            && (forall i :: 0 <= i < |r| ==> r[i] in es) && (forall i :: 0 <= i < |es| ==> es[i] in r)
  {
    LessIsStrictTotal();
    assert DistinctKeys(es, EntryKey());
    SortAscends(es, EntryKey(), Less);
    SortPermutes(es, EntryKey(), Less);
    SameElements(Sort(es, EntryKey(), Less), es);
    SameElements(es, Sort(es, EntryKey(), Less));
  }

  lemma {:induction false} CanonIsPrintable(v: Value)
    requires Proper(v) && Accepted(v)
    ensures Printable(Canon(v))
  {
    match v
    case Array(items) =>
      forall i | 0 <= i < |items| && items[i].Of? ensures Printable(Canon(items[i].value)) { CanonIsPrintable(items[i].value); }
      if |items| == 1 { assert items == [items[0]]; }
    case Object(es) =>
      var cs := CanonEntries(es);
      forall i | 0 <= i < |es| ensures Printable(cs[i].value) { CanonIsPrintable(es[i].value); }
      SortPermutes(cs, EntryKey(), Less);
      SameElements(Sort(cs, EntryKey(), Less), cs);
    case _ =>
  }

  /** Canonical forms coincide exactly for values equal up to key order. */
  lemma {:induction false} CanonDecidesSame(v: Value, w: Value)
    requires Proper(v) && Proper(w)
    ensures Canon(v) == Canon(w) <==> Same(v, w)
  {
    match (v, w)
    case (Array(xs), Array(ys)) => ArraysAgree(xs, ys);
    case (Object(es), Object(fs)) => ObjectsAgree(es, fs);
    case _ =>
  }

  lemma {:induction false} ArraysAgree(xs: seq<Item>, ys: seq<Item>)
    requires Proper(Array(xs)) && Proper(Array(ys))
    ensures Canon(Array(xs)) == Canon(Array(ys)) <==> Same(Array(xs), Array(ys))
    decreases xs
  {
    forall i | 0 <= i < |xs| && i < |ys| && xs[i].Of? && ys[i].Of?
      ensures Canon(xs[i].value) == Canon(ys[i].value) <==> Same(xs[i].value, ys[i].value)
    {
      CanonDecidesSame(xs[i].value, ys[i].value);
    }
    if !Empty(xs) && !Empty(ys) && |xs| == |ys| {
      var cx, cy := CanonItems(xs), CanonItems(ys);
      forall i | 0 <= i < |xs|
        ensures cx[i] == cy[i] <==> xs[i].Of? == ys[i].Of? && (xs[i].Of? ==> Same(xs[i].value, ys[i].value)) {}
      assert cx == cy <==> forall i :: 0 <= i < |xs| ==> cx[i] == cy[i];
    }
  }

  ghost predicate ValuesAgree(es: seq<Entry>, fs: seq<Entry>) {
    forall i, j :: 0 <= i < |es| && 0 <= j < |fs| && es[i].key == fs[j].key ==> Canon(es[i].value) == Canon(fs[j].value)
  }

  ghost predicate KeysWithin(es: seq<Entry>, fs: seq<Entry>) {
    forall i :: 0 <= i < |es| ==> HasKey(fs, es[i].key)
  }

  ghost function Sorted(es: seq<Entry>): seq<Entry> { Sort(CanonEntries(es), EntryKey(), Less) }

  lemma EntriesWithin(es: seq<Entry>, fs: seq<Entry>)
    requires DistinctEntries(es) && DistinctEntries(fs) && KeysWithin(es, fs) && ValuesAgree(es, fs)
    ensures forall k :: 0 <= k < |Sorted(es)| ==> Sorted(es)[k] in Sorted(fs)
  {
    var ce, cf := CanonEntries(es), CanonEntries(fs);
    SortedEntries(ce);
    SortedEntries(cf);
    forall k | 0 <= k < |Sorted(es)| ensures Sorted(es)[k] in Sorted(fs) {
      var i :| 0 <= i < |ce| && ce[i] == Sorted(es)[k];
      assert HasKey(fs, es[i].key);
      var j :| 0 <= j < |fs| && fs[j].key == es[i].key;
      assert cf[j] == ce[i];
    }
  }

  lemma SortedAlikeKeys(es: seq<Entry>, fs: seq<Entry>, i: nat)
    requires DistinctEntries(es) && DistinctEntries(fs) && Sorted(es) == Sorted(fs) && i < |es|
    ensures HasKey(fs, es[i].key)
  {
    var ce, cf := CanonEntries(es), CanonEntries(fs);
    SortedEntries(ce);
    SortedEntries(cf);
    assert ce[i] in Sorted(fs);
    var k :| 0 <= k < |Sorted(fs)| && Sorted(fs)[k] == ce[i];
    var j :| 0 <= j < |cf| && cf[j] == Sorted(fs)[k];
    assert fs[j].key == es[i].key;
  }

  lemma SortedAlikeValues(es: seq<Entry>, fs: seq<Entry>, i: nat, j: nat)
    requires DistinctEntries(es) && DistinctEntries(fs) && Sorted(es) == Sorted(fs)
    requires i < |es| && j < |fs| && es[i].key == fs[j].key
    ensures Canon(es[i].value) == Canon(fs[j].value)
  {
    var ce, cf, r := CanonEntries(es), CanonEntries(fs), Sorted(es);
    SortedEntries(ce);
    SortedEntries(cf);
    LessIrreflexive(es[i].key);
    var k :| 0 <= k < |r| && r[k] == ce[i];
    var l :| 0 <= l < |r| && r[l] == cf[j];
    assert EntryKey()(r[k]) == es[i].key && EntryKey()(r[l]) == es[i].key;
    assert k == l;
  }

  lemma SortedAlike(es: seq<Entry>, fs: seq<Entry>)
    requires DistinctEntries(es) && DistinctEntries(fs) && Sorted(es) == Sorted(fs)
    ensures KeysWithin(es, fs) && ValuesAgree(es, fs)
  {
    hide Sorted, HasKey;
    forall i | 0 <= i < |es| ensures HasKey(fs, es[i].key) { SortedAlikeKeys(es, fs, i); }
    forall i, j | 0 <= i < |es| && 0 <= j < |fs| && es[i].key == fs[j].key ensures Canon(es[i].value) == Canon(fs[j].value) {
      SortedAlikeValues(es, fs, i, j);
    }
  }

  lemma {:induction false} ObjectsAgree(es: seq<Entry>, fs: seq<Entry>)
    requires Proper(Object(es)) && Proper(Object(fs))
    ensures Canon(Object(es)) == Canon(Object(fs)) <==> Same(Object(es), Object(fs))
    decreases es
  {
    forall i, j | 0 <= i < |es| && 0 <= j < |fs| && es[i].key == fs[j].key
      ensures Canon(es[i].value) == Canon(fs[j].value) <==> Same(es[i].value, fs[j].value)
    {
      CanonDecidesSame(es[i].value, fs[j].value);
    }
    if Same(Object(es), Object(fs)) {
      assert ValuesAgree(es, fs) && ValuesAgree(fs, es);
      EntriesWithin(es, fs);
      EntriesWithin(fs, es);
      SortedEntries(CanonEntries(es));
      SortedEntries(CanonEntries(fs));
      LessIsStrictTotal();
      AscendingUnique(Sorted(es), Sorted(fs), EntryKey(), Less);
    }
    if Sorted(es) == Sorted(fs) {
      SortedAlike(es, fs);
      SortedAlike(fs, es);
    }
  }

  /** Equal texts mean equal printable values. */
  lemma EmitIsInjective(v: Value, w: Value)
    requires Printable(v) && Printable(w) && Emit(v) == Emit(w)
    ensures v == w
  {
    ReadEmit(v, []);
    ReadEmit(w, []);
    assert Emit(v) + [] == Emit(v) && Emit(w) + [] == Emit(w);
  }

  ghost function TextOf(v: Value): Text
    requires Accepted(v)
  {
    SerializeIsEmit(v);
    Serialize(v).value
  }

  /** Two accepted values print the same text exactly when they are equal after reordering keys. */
  lemma PrintsAlikeExactlyWhenSame(v: Value, w: Value)
    requires Proper(v) && Proper(w) && Accepted(v) && Accepted(w)
    ensures Serialize(v) == Serialize(w) <==> Same(v, w)
  {
    SerializeIsEmit(v);
    SerializeIsEmit(w);
    CanonIsPrintable(v);
    CanonIsPrintable(w);
    CanonDecidesSame(v, w);
    if Emit(Canon(v)) == Emit(Canon(w)) { EmitIsInjective(Canon(v), Canon(w)); }
  }

  /** The order of an object's properties never matters. */
  lemma KeyOrderIsIrrelevant(es: seq<Entry>, fs: seq<Entry>)
    requires Proper(Object(es)) && Accepted(Object(es)) && multiset(es) == multiset(fs) && DistinctEntries(fs)
    ensures Serialize(Object(fs)) == Serialize(Object(es))
  {
    hide Serialize, Canon;
    SameElements(es, fs);
    SameElements(fs, es);
    forall i | 0 <= i < |es| ensures HasKey(fs, es[i].key) {
      var j :| 0 <= j < |fs| && fs[j] == es[i];
    }
    forall j | 0 <= j < |fs| ensures HasKey(es, fs[j].key) && Proper(fs[j].value) && Accepted(fs[j].value) {
      var i :| 0 <= i < |es| && es[i] == fs[j];
    }
    forall i, j | 0 <= i < |es| && 0 <= j < |fs| && es[i].key == fs[j].key ensures es[i].value == fs[j].value {
      var k :| 0 <= k < |es| && es[k] == fs[j];
    }
    forall i, j | 0 <= i < |es| && 0 <= j < |fs| && es[i].key == fs[j].key ensures Same(es[i].value, fs[j].value) {
      CanonDecidesSame(es[i].value, es[i].value);
    }
    PrintsAlikeExactlyWhenSame(Object(es), Object(fs));
  }

  /**
   * Where a printed value ends is decided by the text alone: with anything after it that
   * cannot continue a number, no other value can be read at the same position.
   */
  lemma EndsWhereItEnds(v: Value, w: Value, x: Text, y: Text)
    requires Proper(v) && Accepted(v) && Proper(w) && Accepted(w) && Ends(x) && Ends(y)
    ensures TextOf(v) + x == TextOf(w) + y ==> Same(v, w) && x == y
  {
    SerializeIsEmit(v);
    SerializeIsEmit(w);
    CanonIsPrintable(v);
    CanonIsPrintable(w);
    ReadEmit(Canon(v), x);
    ReadEmit(Canon(w), y);
    CanonDecidesSame(v, w);
  }

  /** Only a number can be continued: one printed value is a proper prefix of another exactly for numbers whose digits are. */
  lemma ProperPrefixOnlyBetweenNumbers(v: Value, w: Value)
    requires Proper(v) && Accepted(v) && Proper(w) && Accepted(w)
    ensures TextOf(v) < TextOf(w) <==> v.Number? && w.Number? && v.digits < w.digits
  {
    SerializeIsEmit(v);
    SerializeIsEmit(w);
    CanonIsPrintable(v);
    CanonIsPrintable(w);
    var a, b := Emit(Canon(v)), Emit(Canon(w));
    if a < b {
      var x := b[|a|..];
      assert b == a + x && b == b + [];
      ReadEmit(Canon(w), []);
      FirstUnit(Canon(v));
      FirstUnit(Canon(w));
      assert a[0] == b[0];
      if !v.Number? { ReadEmit(Canon(v), x); }
    }
  }

  // ----- safe to hash ----------------------------------------------------------------------------

  lemma {:induction false} JoinWellFormed(parts: seq<Text>)
    requires forall i :: 0 <= i < |parts| ==> WellFormed(parts[i])
    ensures WellFormed(Join(parts))
  {
    if |parts| > 1 {
      JoinWellFormed(parts[1..]);
      PlainIsWellFormed([COMMA]);
      WellFormedConcat(parts[0], [COMMA]);
      WellFormedConcat(parts[0] + [COMMA], Join(parts[1..]));
    }
  }

  lemma BracketsWellFormed(open: Unit, inside: Text, close: Unit)
    requires !Surrogate(open) && !Surrogate(close) && WellFormed(inside)
    ensures WellFormed([open] + inside + [close])
  {
    PlainIsWellFormed([open]);
    PlainIsWellFormed([close]);
    WellFormedConcat([open], inside);
    WellFormedConcat([open] + inside, [close]);
  }

  lemma QuoteWellFormed(s: Text)
    ensures WellFormed(Quote(s))
  {
    QuotedIsWellFormed(s);
    PlainIsWellFormed([QUOTE]);
    WellFormedConcat([QUOTE], Body(s));
  }

  /** A printed text never holds a lone surrogate, so encoding it as UTF-8 before hashing loses nothing. */
  lemma {:induction false} PrintedIsWellFormed(v: Value)
    requires Printable(v)
    ensures WellFormed(Emit(v))
  {
    match v
    case Number(d) => PlainIsWellFormed(d);
    case String(s) => QuoteWellFormed(s);
    case Array(items) =>
      ItemsWellFormed(items);
      JoinWellFormed(EmitItems(items));
      BracketsWellFormed(OPEN_ARRAY, Join(EmitItems(items)), CLOSE_ARRAY);
    case Object(es) =>
      EntriesWellFormed(es);
      JoinWellFormed(Members(EmitEntries(es)));
      BracketsWellFormed(OPEN_OBJECT, Join(Members(EmitEntries(es))), CLOSE_OBJECT);
    case _ => PlainIsWellFormed(Emit(v));
  }

  lemma {:induction false} ItemsWellFormed(items: seq<Item>)
    requires forall i :: 0 <= i < |items| && items[i].Of? ==> Printable(items[i].value)
    ensures forall i :: 0 <= i < |items| ==> WellFormed(EmitItems(items)[i])
  {
    if items != [] {
      ItemsWellFormed(items[1..]);
      ItemWellFormed(items[0]);
    }
  }

  lemma {:induction false} ItemWellFormed(item: Item)
    requires item.Of? ==> Printable(item.value)
    ensures WellFormed(EmitItem(item))
  {
    match item
    case Hole =>
    case Of(v) => PrintedIsWellFormed(v);
  }

  lemma {:induction false} EntriesWellFormed(es: seq<Entry>)
    requires forall i :: 0 <= i < |es| ==> Printable(es[i].value)
    ensures forall i :: 0 <= i < |es| ==> WellFormed(Members(EmitEntries(es))[i])
  {
    if es != [] {
      EntriesWellFormed(es[1..]);
      PrintedIsWellFormed(es[0].value);
      QuoteWellFormed(es[0].key);
      PlainIsWellFormed([COLON]);
      WellFormedConcat(Quote(es[0].key), [COLON]);
      WellFormedConcat(Quote(es[0].key) + [COLON], Emit(es[0].value));
      assert EmitEntries(es)[1..] == EmitEntries(es[1..]);
    }
  }

  lemma SerializedIsWellFormed(v: Value)
    requires Proper(v) && Accepted(v)
    ensures WellFormed(TextOf(v))
  {
    SerializeIsEmit(v);
    CanonIsPrintable(v);
    PrintedIsWellFormed(Canon(v));
  }

  // ----- dense values ---------------------------------------------------------------------------

  /** No array inside has a hole. */
  ghost predicate Dense(v: Value) {
    match v
    case Array(items) => forall i :: 0 <= i < |items| ==> items[i].Of? && Dense(items[i].value)
    case Object(es) => forall i :: 0 <= i < |es| ==> Dense(es[i].value)
    case _ => true
  }

  /** The same value up to the order of the keys at every level, and nothing more. */
  ghost predicate Reordered(v: Value, w: Value)
    decreases v
  {
    match (v, w)
    case (Array(xs), Array(ys)) =>
      |xs| == |ys| && forall i :: 0 <= i < |xs| ==> xs[i].Of? == ys[i].Of? && (xs[i].Of? ==> Reordered(xs[i].value, ys[i].value))
    case (Object(es), Object(fs)) =>
      && (forall i :: 0 <= i < |es| ==> HasKey(fs, es[i].key))
      && (forall j :: 0 <= j < |fs| ==> HasKey(es, fs[j].key))
      && (forall i, j :: 0 <= i < |es| && 0 <= j < |fs| && es[i].key == fs[j].key ==> Reordered(es[i].value, fs[j].value))
    case _ => v == w
  }

  lemma {:induction false} DenseSame(v: Value, w: Value)
    requires Dense(v) && Dense(w) && Proper(v) && Proper(w)
    ensures Same(v, w) <==> Reordered(v, w)
    decreases v
  {
    match (v, w)
    case (Array(xs), Array(ys)) =>
      forall i | 0 <= i < |xs| && i < |ys| ensures Same(xs[i].value, ys[i].value) <==> Reordered(xs[i].value, ys[i].value) {
        DenseSame(xs[i].value, ys[i].value);
      }
      assert [Hole][0] == Hole;
      assert xs != [] ==> xs[0] != Hole;
      assert ys != [] ==> ys[0] != Hole;
    case (Object(es), Object(fs)) =>
      forall i, j | 0 <= i < |es| && 0 <= j < |fs| ensures Same(es[i].value, fs[j].value) <==> Reordered(es[i].value, fs[j].value) {
        DenseSame(es[i].value, fs[j].value);
      }
    case _ =>
  }

  /** For values without array holes, printing alike is being equal up to key order. */
  lemma DenseValuesNeverCollapse(v: Value, w: Value)
    requires Proper(v) && Proper(w) && Accepted(v) && Accepted(w) && Dense(v) && Dense(w)
    ensures Serialize(v) == Serialize(w) <==> Reordered(v, w)
  {
    PrintsAlikeExactlyWhenSame(v, w);
    DenseSame(v, w);
  }

  /** With holes two different values do collapse: an array of one hole prints like an empty one. */
  lemma LoneHoleCollapses()
    ensures Serialize(Array([Hole])) == Serialize(Array([])) && !Reordered(Array([Hole]), Array([]))
  {
    assert SerializeItem(Hole) == Ok([]);
    assert [Hole][1..] == [];
    assert SerializeItems([]) == Ok([]);
  }
}
