/**
 * What the printed text is, unit by unit: its literals, its separators, the order of its
 * keys, and what a quoted string escapes.
 */
module CanonicalJsonText {
  import opened Basics
  import opened Sorting
  import opened JsonText
  import opened CanonicalJson
  import opened CanonicalJsonFacts

  // ----- key order --------------------------------------------------------------------------

  /** At the first place where two keys differ, the first one has ended or has the smaller unit. */
  ghost predicate KeyBefore(a: Text, b: Text) {
    exists i :: DiffersAt(a, b, i) && (i == |a| || a[i] < b[i])
  }

  /** The keys agree up to place i, where the second goes on and the first ends or differs. */
  predicate DiffersAt(a: Text, b: Text, i: int) {
    0 <= i <= |a| && i < |b| && (forall j :: 0 <= j < i ==> a[j] == b[j]) && (i < |a| ==> a[i] != b[i])
  }

  lemma {:induction false} LessMeans(a: Text, b: Text)
    ensures Less(a, b) <==> KeyBefore(a, b)
  {
    if a == [] || b == [] {
      if b != [] { assert DiffersAt(a, b, 0); }
    } else if a[0] != b[0] {
      assert DiffersAt(a, b, 0);
    } else {
      LessMeans(a[1..], b[1..]);
      if KeyBefore(a[1..], b[1..]) {
        var i :| DiffersAt(a[1..], b[1..], i) && (i == |a[1..]| || a[1..][i] < b[1..][i]);
        assert forall j :: 1 <= j < i + 1 ==> a[j] == a[1..][j - 1] && b[j] == b[1..][j - 1];
        assert DiffersAt(a, b, i + 1);
      }
      if KeyBefore(a, b) {
        var i :| DiffersAt(a, b, i) && (i == |a| || a[i] < b[i]);
        assert i > 0;
        assert forall j :: 0 <= j < i - 1 ==> a[1..][j] == a[j + 1] && b[1..][j] == b[j + 1];
        assert DiffersAt(a[1..], b[1..], i - 1);
      }
    }
  }

  /** A printed property of an object, whatever the place it has in the text. */
  ghost predicate Prints(e: Entry, p: Printed) { p.key == e.key && Serialize(e.value) == Ok(p.text) }

  ghost predicate ComesFrom(p: Printed, es: seq<Entry>) { exists k :: 0 <= k < |es| && Prints(es[k], p) }

  ghost predicate AppearsIn(e: Entry, ps: seq<Printed>) { exists i :: 0 <= i < |ps| && Prints(e, ps[i]) }

  lemma {:induction false} EntriesPrinted(es: seq<Entry>)
    requires forall i :: 0 <= i < |es| ==> Accepted(es[i].value)
    ensures SerializeEntries(es).Ok? && |SerializeEntries(es).value| == |es|
    ensures forall i :: 0 <= i < |es| ==>
              Serialize(es[i].value).Ok? && SerializeEntries(es).value[i] == Printed(es[i].key, Serialize(es[i].value).value)
  {
    if es != [] {
      SerializeIsEmit(es[0].value);
      var rest := es[1..];
      assert forall i :: 0 <= i < |rest| ==> rest[i] == es[i + 1];
      EntriesPrinted(rest);
      hide Serialize;
      assert forall i :: 1 <= i < |es| ==> es[i] == rest[i - 1];
    }
  }

  lemma MembersAre(ps: seq<Printed>)
    ensures |Members(ps)| == |ps|
    ensures forall i :: 0 <= i < |ps| ==> Members(ps)[i] == Quote(ps[i].key) + Unicode(":") + ps[i].text
  {
    if ps != [] {
      MembersAre(ps[1..]);
      assert [COLON] == Unicode(":");
      assert forall i :: 1 <= i < |ps| ==> ps[i] == ps[1..][i - 1];
      hide Quote;
    }
  }

  /** The parts of a list are set apart by single commas. */
  lemma {:induction false} JoinMeans(parts: seq<Text>, last: Text)
    ensures Join([]) == [] && Join([last]) == last
    ensures parts != [] ==> Join(parts + [last]) == Join(parts) + Unicode(",") + last
  {
    assert [COMMA] == Unicode(",");
    if |parts| > 1 {
      var all := parts + [last];
      JoinMeans(parts[1..], last);
      assert all[1..] == parts[1..] + [last] && all[0] == parts[0];
    } else if |parts| == 1 {
      assert (parts + [last])[1..] == [last];
    }
  }

  /** The properties printed, sorted by key. */
  lemma SortedProperties(es: seq<Entry>) returns (ps: seq<Printed>)
    requires DistinctEntries(es) && forall i :: 0 <= i < |es| ==> Accepted(es[i].value)
    ensures SerializeEntries(es).Ok? && ps == Sort(SerializeEntries(es).value, KeyOf(), Less) && |ps| == |es|
    ensures multiset(ps) == multiset(SerializeEntries(es).value) && Ascending(ps, KeyOf(), Less)
  {
    EntriesPrinted(es);
    var printed := SerializeEntries(es).value;
    hide Serialize, SerializeEntries, Less;
    assert DistinctKeys(printed, KeyOf()) by {
      forall i, j | 0 <= i < j < |printed| ensures KeyOf()(printed[i]) != KeyOf()(printed[j]) { assert es[i].key != es[j].key; }
    }
    LessIsStrictTotal();
    SortAscends(printed, KeyOf(), Less);
    SortPermutes(printed, KeyOf(), Less);
    ps := Sort(printed, KeyOf(), Less);
    assert |multiset(ps)| == |multiset(printed)|;
  }

  lemma ObjectIs(es: seq<Entry>, ps: seq<Printed>)
    requires SerializeEntries(es).Ok? && ps == Sort(SerializeEntries(es).value, KeyOf(), Less)
    ensures Serialize(Object(es)) == Ok(Unicode("{") + Join(Members(ps)) + Unicode("}"))
  {
    assert [OPEN_OBJECT] == Unicode("{") && [CLOSE_OBJECT] == Unicode("}");
    hide Sort, Join, Members;
  }

  /**
   * A printed object: in braces, every property once as its quoted key, a colon and its
   * printed value, with the keys in ascending order of code units.
   */
  lemma ObjectText(es: seq<Entry>) returns (ps: seq<Printed>, parts: seq<Text>)
    requires Proper(Object(es)) && Accepted(Object(es))
    ensures Serialize(Object(es)) == Ok(Unicode("{") + Join(parts) + Unicode("}"))
    ensures |parts| == |ps| == |es|
    ensures forall i :: 0 <= i < |ps| ==> parts[i] == Quote(ps[i].key) + Unicode(":") + ps[i].text
    ensures forall i :: 0 <= i < |ps| ==> ComesFrom(ps[i], es)
    ensures forall k :: 0 <= k < |es| ==> AppearsIn(es[k], ps)
    ensures forall i :: 0 <= i < |ps| - 1 ==> KeyBefore(ps[i].key, ps[i + 1].key)
  {
    hide Sort, Serialize, SerializeEntries, Quote, Join, Less, Members, Unicode, KeyBefore, Ascending, ComesFrom, AppearsIn;
    EntriesPrinted(es);
    ps := SortedProperties(es);
    ObjectIs(es, ps);
    parts := Members(ps);
    MembersAre(ps);
    OnceEach(es, SerializeEntries(es).value, ps);
    KeysAscend(ps);
  }

  lemma OnceEach(es: seq<Entry>, printed: seq<Printed>, ps: seq<Printed>)
    requires multiset(ps) == multiset(printed) && |printed| == |es| && forall k :: 0 <= k < |es| ==> Prints(es[k], printed[k])
    ensures forall i :: 0 <= i < |ps| ==> ComesFrom(ps[i], es)
    ensures forall k :: 0 <= k < |es| ==> AppearsIn(es[k], ps)
  {
    hide Prints, ComesFrom, AppearsIn;
    SameElements(ps, printed);
    SameElements(printed, ps);
    forall i | 0 <= i < |ps| ensures ComesFrom(ps[i], es) {
      var k :| 0 <= k < |printed| && printed[k] == ps[i];
      Comes(es, k, ps[i]);
    }
    forall k | 0 <= k < |es| ensures AppearsIn(es[k], ps) {
      var i :| 0 <= i < |ps| && ps[i] == printed[k];
      Appears(es[k], ps, i);
    }
  }

  lemma Comes(es: seq<Entry>, k: nat, p: Printed)
    requires k < |es| && Prints(es[k], p)
    ensures ComesFrom(p, es)
  {
  }

  lemma Appears(e: Entry, ps: seq<Printed>, i: nat)
    requires i < |ps| && Prints(e, ps[i])
    ensures AppearsIn(e, ps)
  {
  }

  lemma KeysAscend(ps: seq<Printed>)
    requires Ascending(ps, KeyOf(), Less)
    ensures forall i :: 0 <= i < |ps| - 1 ==> KeyBefore(ps[i].key, ps[i + 1].key)
  {
    hide Less, KeyBefore;
    forall i | 0 <= i < |ps| - 1 ensures KeyBefore(ps[i].key, ps[i + 1].key) {
      assert Less(KeyOf()(ps[i]), KeyOf()(ps[i + 1]));
      LessMeans(ps[i].key, ps[i + 1].key);
    }
  }

  lemma {:induction false} ItemsPrinted(items: seq<Item>)
    requires forall i :: 0 <= i < |items| && items[i].Of? ==> Accepted(items[i].value)
    ensures SerializeItems(items).Ok? && |SerializeItems(items).value| == |items|
    ensures forall i :: 0 <= i < |items| ==> Ok(SerializeItems(items).value[i]) == if items[i].Of? then Serialize(items[i].value) else Ok([])
  {
    if items != [] {
      if items[0].Of? { SerializeIsEmit(items[0].value); }
      var rest := items[1..];
      assert forall i :: 0 <= i < |rest| ==> rest[i] == items[i + 1];
      ItemsPrinted(rest);
      hide Serialize;
      assert forall i :: 1 <= i < |items| ==> items[i] == rest[i - 1];
    }
  }

  /** A printed array: in brackets, its items in their order, and nothing for a hole. */
  lemma ArrayText(items: seq<Item>) returns (parts: seq<Text>)
    requires Accepted(Array(items))
    ensures Serialize(Array(items)) == Ok(Unicode("[") + Join(parts) + Unicode("]")) && |parts| == |items|
    ensures forall i :: 0 <= i < |items| ==> Ok(parts[i]) == if items[i].Of? then Serialize(items[i].value) else Ok([])
  {
    ItemsPrinted(items);
    parts := SerializeItems(items).value;
    assert [OPEN_ARRAY] == Unicode("[") && [CLOSE_ARRAY] == Unicode("]");
  }

  /** The values that print as they are spelled. */
  lemma Literals(d: Text, s: Text, why: Refusal)
    ensures Serialize(Null) == Ok(Unicode("null"))
    ensures Serialize(Bool(true)) == Ok(Unicode("true")) && Serialize(Bool(false)) == Ok(Unicode("false"))
    ensures Serialize(Number(d)) == Ok(d) && Serialize(String(s)) == Ok(Quote(s))
    ensures Serialize(Refused(why)) == Err(why)
  {
    assert NULL == Unicode("null") && TRUE == Unicode("true") && FALSE == Unicode("false");
  }

  // ----- quoting ------------------------------------------------------------------------------

  /** Neither a control unit, a quotation mark, nor a backslash. */
  predicate Unescaped(s: Text) {
    forall i :: 0 <= i < |s| ==> s[i] >= 32 && s[i] != Unicode("\"")[0] && s[i] != Unicode("\\")[0]
  }

  /** Ordinary text is quoted as it stands, whatever its alphabet. */
  lemma {:induction false} BodyOfOrdinary(s: Text)
    requires Unescaped(s) && WellFormed(s)
    ensures Body(s) == s + Unicode("\"")
    decreases |s|
  {
    if s == [] {
      assert Body(s) == Unicode("\"");
    } else if StartsWithPair(s) {
      WellFormedAfterPair(s);
      BodyOfOrdinary(s[2..]);
      assert s == [s[0], s[1]] + s[2..];
    } else {
      BodyOfOrdinary(s[1..]);
      assert Escaped(s[0]) == [s[0]];
      assert s == [s[0]] + s[1..];
    }
  }

  lemma WellFormedAfterPair(s: Text)
    requires StartsWithPair(s) && WellFormed(s)
    ensures WellFormed(s[2..])
  {
  }

  lemma OrdinaryIsQuotedAsItStands(s: Text)
    requires Unescaped(s) && WellFormed(s)
    ensures Quote(s) == Unicode("\"") + s + Unicode("\"")
  {
    BodyOfOrdinary(s);
    assert [QUOTE] == Unicode("\"");
  }

  /** A unit on its own, quoted. */
  lemma OneQuoted(c: Unit)
    ensures Quote([c]) == Unicode("\"") + Escaped(c) + Unicode("\"")
  {
    assert [QUOTE] == Unicode("\"");
    assert [c][1..] == [] && Body([]) == [QUOTE];
    assert Body([c]) == Escaped(c) + Body([c][1..]);
  }

  /** The escapes by example: the short ones. */
  lemma ShortEscapes()
    ensures Escaped(8) == Unicode("\\b") && Escaped(9) == Unicode("\\t") && Escaped(10) == Unicode("\\n")
    ensures Escaped(12) == Unicode("\\f") && Escaped(13) == Unicode("\\r")
    ensures Escaped(34) == Unicode("\\\"") && Escaped(92) == Unicode("\\\\")
  {
  }

  /** The first control, one without a short escape, the last. */
  lemma ControlEscapes()
    ensures Escaped(0) == Unicode("\\u0000") && Escaped(11) == Unicode("\\u000b") && Escaped(31) == Unicode("\\u001f")
  {
  }

  /** Halves of a surrogate pair on their own. */
  lemma SurrogateEscapes()
    ensures Escaped(0xD83D) == Unicode("\\ud83d") && Escaped(0xDC00) == Unicode("\\udc00")
  {
  }
}
