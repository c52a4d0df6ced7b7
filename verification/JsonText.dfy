/** JavaScript strings as UTF-16 code units, and how JSON quotes them (section 7 of RFC 8259). */
module JsonText {
  import opened Basics

  type Unit = c: int | 0 <= c < 0x10000
  type Text = seq<Unit>

  /** The code units of a string of the basic plane. */
  function Unicode(s: string): (t: Text)
    ensures |t| == |s| && forall i :: 0 <= i < |s| && s[i] as int < 0x10000 ==> t[i] == s[i] as int
  {
    seq(|s|, i requires 0 <= i < |s| => if s[i] as int < 0x10000 then s[i] as int else 0)
  }

  const QUOTE: Unit := 34
  const BACKSLASH: Unit := 92
  const COMMA: Unit := 44
  const COLON: Unit := 58
  const OPEN_ARRAY: Unit := 91
  const CLOSE_ARRAY: Unit := 93
  const OPEN_OBJECT: Unit := 123
  const CLOSE_OBJECT: Unit := 125
  const LETTER_U: Unit := 117

  predicate High(c: Unit) { 0xD800 <= c <= 0xDBFF }
  predicate Low(c: Unit) { 0xDC00 <= c <= 0xDFFF }
  predicate Surrogate(c: Unit) { High(c) || Low(c) }

  // ----- escapes ------------------------------------------------------------------------

  function HexDigit(d: int): Unit
    requires 0 <= d < 16
  {
    if d < 10 then 48 + d else 87 + d
  }

  function HexValue(c: Unit): Option<int> {
    if 48 <= c <= 57 then Some(c - 48)
    else if 97 <= c <= 102 then Some(c - 87)
    else None
  }

  /** The six-unit escape, lower-case hexadecimal. */
  function UnicodeEscape(c: Unit): Text {
    [BACKSLASH, LETTER_U, HexDigit(c / 4096), HexDigit(c / 256 % 16), HexDigit(c / 16 % 16), HexDigit(c % 16)]
  }

  /** The letter after the backslash for the units with a short escape. */
  function ShortEscape(c: Unit): Option<Unit> {
    if c == 8 then Some(98)
    else if c == 9 then Some(116)
    else if c == 10 then Some(110)
    else if c == 12 then Some(102)
    else if c == 13 then Some(114)
    else if c == QUOTE || c == BACKSLASH then Some(c)
    else None
  }

  function ShortMeaning(letter: Unit): Option<Unit> {
    if letter == 98 then Some(8)
    else if letter == 116 then Some(9)
    else if letter == 110 then Some(10)
    else if letter == 102 then Some(12)
    else if letter == 114 then Some(13)
    else if letter == QUOTE || letter == BACKSLASH then Some(letter)
    else None
  }

  /** One unit that is not half of a surrogate pair. */
  function Escaped(c: Unit): Text {
    match ShortEscape(c)
    case Some(letter) => [BACKSLASH, letter]
    case None => if c < 32 || Surrogate(c) then UnicodeEscape(c) else [c]
  }

  predicate StartsWithPair(s: Text) {
    |s| >= 2 && High(s[0]) && Low(s[1])
  }

  /** Everything after the opening quote: pairs raw, lone surrogates and controls escaped. */
  function Body(s: Text): Text {
    if s == [] then [QUOTE]
    else if StartsWithPair(s) then [s[0], s[1]] + Body(s[2..])
    else Escaped(s[0]) + Body(s[1..])
  }

  function Quote(s: Text): Text { [QUOTE] + Body(s) }

  // ----- reading a quoted string back -------------------------------------------------------

  function ReadUnicode(t: Text): Option<Unit>
    requires |t| >= 4
  {
    match (HexValue(t[0]), HexValue(t[1]), HexValue(t[2]), HexValue(t[3]))
    case (Some(a), Some(b), Some(c), Some(d)) => Some(a * 4096 + b * 256 + c * 16 + d)
    case _ => None
  }

  /** What follows an opening quote: the string, and the text after its closing quote. */
  function ReadBody(t: Text): (r: Option<(Text, Text)>)
    ensures r.Some? ==> |r.value.1| < |t|
  {
    if t == [] then None
    else if t[0] == QUOTE then Some(([], t[1..]))
    else if t[0] != BACKSLASH then Prepend(t[0], ReadBody(t[1..]))
    else if |t| < 2 then None
    else if t[1] != LETTER_U then
      match ShortMeaning(t[1])
      case Some(c) => Prepend(c, ReadBody(t[2..]))
      case None => None
    else if |t| < 6 then None
    else
      match ReadUnicode(t[2..6])
      case Some(c) => Prepend(c, ReadBody(t[6..]))
      case None => None
  }

  function Prepend(c: Unit, r: Option<(Text, Text)>): Option<(Text, Text)> {
    match r
    case Some((s, rest)) => Some(([c] + s, rest))
    case None => None
  }

  lemma HexDigitsOf(c: Unit)
    ensures 0 <= c / 4096 < 16
    ensures c == c / 4096 * 4096 + c / 256 % 16 * 256 + c / 16 % 16 * 16 + c % 16
  {
    assert c / 256 == c / 4096 * 16 + c / 256 % 16;
    assert c / 16 == c / 256 * 16 + c / 16 % 16;
  }

  lemma HexRoundTrip(d: int)
    requires 0 <= d < 16
    ensures HexValue(HexDigit(d)) == Some(d)
  {
  }

  lemma UnicodeRoundTrip(c: Unit, rest: Text)
    ensures ReadBody(UnicodeEscape(c) + rest) == Prepend(c, ReadBody(rest))
  {
    var t := UnicodeEscape(c) + rest;
    HexDigitsOf(c);
    HexRoundTrip(c / 4096);
    HexRoundTrip(c / 256 % 16);
    HexRoundTrip(c / 16 % 16);
    HexRoundTrip(c % 16);
    assert t[6..] == rest;
    assert t[2..6] == [HexDigit(c / 4096), HexDigit(c / 256 % 16), HexDigit(c / 16 % 16), HexDigit(c % 16)];
    assert ReadUnicode(t[2..6]) == Some(c);
  }

  lemma RawRoundTrip(c: Unit, rest: Text)
    requires c != QUOTE && c != BACKSLASH
    ensures ReadBody([c] + rest) == Prepend(c, ReadBody(rest))
  {
    assert ([c] + rest)[1..] == rest;
  }

  lemma EscapeRoundTrip(c: Unit, rest: Text)
    ensures ReadBody(Escaped(c) + rest) == Prepend(c, ReadBody(rest))
  {
    match ShortEscape(c)
    case Some(letter) => assert (Escaped(c) + rest)[2..] == rest;
    case None =>
      if c < 32 || Surrogate(c) { UnicodeRoundTrip(c, rest); } else { RawRoundTrip(c, rest); }
  }

  lemma ClosingQuote(rest: Text)
    ensures ReadBody([QUOTE] + rest) == Some(([], rest))
  {
    assert ([QUOTE] + rest)[1..] == rest;
  }

  lemma Regroup(a: Text, b: Text, c: Text)
    ensures a + b + c == a + (b + c)
  {
  }

  /** Quoting loses nothing, and a quoted string ends where it ends whatever follows. */
  lemma {:induction false} QuoteRoundTrip(s: Text, rest: Text)
    ensures ReadBody(Body(s) + rest) == Some((s, rest))
    decreases |s|
  {
    hide ReadBody, Escaped;
    if s == [] {
      ClosingQuote(rest);
    } else if StartsWithPair(s) {
      var tail := Body(s[2..]) + rest;
      QuoteRoundTrip(s[2..], rest);
      RawRoundTrip(s[1], tail);
      RawRoundTrip(s[0], [s[1]] + tail);
      Regroup([s[0], s[1]], Body(s[2..]), rest);
      hide Body;
      assert [s[0], s[1]] + tail == [s[0]] + ([s[1]] + tail);
      assert s == [s[0]] + ([s[1]] + s[2..]);
    } else {
      QuoteRoundTrip(s[1..], rest);
      EscapeRoundTrip(s[0], Body(s[1..]) + rest);
      Regroup(Escaped(s[0]), Body(s[1..]), rest);
      hide Body;
      assert s == [s[0]] + s[1..];
    }
  }

  // ----- well-formed UTF-16 -----------------------------------------------------------------

  /** No lone surrogate: encoding the text as UTF-8 loses nothing. */
  predicate WellFormed(t: Text) {
    t == []
    || (StartsWithPair(t) && WellFormed(t[2..]))
    || (!Surrogate(t[0]) && WellFormed(t[1..]))
  }

  lemma {:induction false} WellFormedConcat(a: Text, b: Text)
    requires WellFormed(a) && WellFormed(b)
    ensures WellFormed(a + b)
    decreases |a|
  {
    if a == [] {
      assert a + b == b;
    } else if StartsWithPair(a) && WellFormed(a[2..]) {
      WellFormedConcat(a[2..], b);
      assert (a + b)[2..] == a[2..] + b;
    } else {
      WellFormedConcat(a[1..], b);
      assert (a + b)[1..] == a[1..] + b;
    }
  }

  lemma {:induction false} PlainIsWellFormed(t: Text)
    requires forall i :: 0 <= i < |t| ==> !Surrogate(t[i])
    ensures WellFormed(t)
  {
    if t != [] { PlainIsWellFormed(t[1..]); }
  }

  /** A quoted string is well formed even when the string is not. */
  lemma {:induction false} QuotedIsWellFormed(s: Text)
    ensures WellFormed(Body(s))
    decreases |s|
  {
    if s == [] {
    } else if StartsWithPair(s) {
      QuotedIsWellFormed(s[2..]);
      assert Body(s)[2..] == Body(s[2..]);
    } else {
      QuotedIsWellFormed(s[1..]);
      PlainIsWellFormed(Escaped(s[0]));
      WellFormedConcat(Escaped(s[0]), Body(s[1..]));
    }
  }

  // ----- code-unit order ----------------------------------------------------------------------

  /** The order of Array.prototype.sort on strings (section 3.2.3 of RFC 8785). */
  predicate Less(a: Text, b: Text) {
    if b == [] then false
    else if a == [] then true
    else a[0] < b[0] || (a[0] == b[0] && Less(a[1..], b[1..]))
  }

  lemma {:induction false} LessIrreflexive(a: Text)
    ensures !Less(a, a)
  {
    if a != [] { LessIrreflexive(a[1..]); }
  }

  lemma {:induction false} LessTransitive(a: Text, b: Text, c: Text)
    requires Less(a, b) && Less(b, c)
    ensures Less(a, c)
  {
    if a != [] && b != [] && c != [] && a[0] == b[0] == c[0] {
      LessTransitive(a[1..], b[1..], c[1..]);
    }
  }

  lemma {:induction false} LessTotal(a: Text, b: Text)
    requires a != b
    ensures Less(a, b) || Less(b, a)
  {
    if a != [] && b != [] && a[0] == b[0] {
      assert a == [a[0]] + a[1..] && b == [b[0]] + b[1..];
      LessTotal(a[1..], b[1..]);
    }
  }
}
