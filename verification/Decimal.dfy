/** Decimal numerals, zero padding and folios. */
module Decimal {

  predicate IsDigit(c: char) { '0' <= c <= '9' }

  predicate AllDigits(s: string) { forall i :: 0 <= i < |s| ==> IsDigit(s[i]) }

  function DigitOf(d: int): (c: char)
    requires 0 <= d < 10
    ensures IsDigit(c)
  {
    '0' + d as char
  }

  function Digits(n: nat): (s: string)
    ensures AllDigits(s) && |s| >= 1
  {
    if n < 10 then [DigitOf(n)] else Digits(n / 10) + [DigitOf(n % 10)]
  }

  function Value(s: string): nat
    requires AllDigits(s)
  {
    if s == "" then 0 else Value(s[..|s| - 1]) * 10 + (s[|s| - 1] as int - '0' as int)
  }

  /** String.prototype.padStart with zeros. */
  function Pad(s: string, width: nat): (p: string)
    ensures AllDigits(s) ==> AllDigits(p)
    ensures |p| == if |s| >= width then |s| else width
    decreases width - |s|
  {
    if |s| >= width then s else Pad("0" + s, width)
  }

  lemma {:induction false} ValueOfDigits(n: nat)
    ensures Value(Digits(n)) == n
  {
    if n >= 10 {
      ValueOfDigits(n / 10);
      assert Digits(n)[..|Digits(n)| - 1] == Digits(n / 10);
    }
  }

  lemma {:induction false} LeadingZero(s: string)
    requires AllDigits(s)
    ensures Value("0" + s) == Value(s)
  {
    if s == "" {
      assert ("0" + s)[..0] == "";
    } else {
      LeadingZero(s[..|s| - 1]);
      assert ("0" + s)[..|s|] == "0" + s[..|s| - 1];
    }
  }

  lemma {:induction false} ValueOfPad(s: string, width: nat)
    requires AllDigits(s)
    ensures Value(Pad(s, width)) == Value(s)
    decreases width - |s|
  {
    if |s| < width {
      LeadingZero(s);
      ValueOfPad("0" + s, width);
    }
  }

  /** A padded numeral reads back as its number. */
  lemma PaddedValue(n: nat, width: nat)
    ensures AllDigits(Pad(Digits(n), width)) && Value(Pad(Digits(n), width)) == n
  {
    ValueOfDigits(n);
    ValueOfPad(Digits(n), width);
  }

  lemma DigitCount(n: nat)
    ensures |Digits(n)| <= 2 <==> n < 100
    ensures |Digits(n)| <= 3 <==> n < 1000
    ensures |Digits(n)| <= 4 <==> n < 10000
  {
    if n >= 10 {
      assert |Digits(n)| == 1 + |Digits(n / 10)|;
      if n >= 100 {
        assert |Digits(n / 10)| == 1 + |Digits(n / 100)| by { assert n / 10 / 10 == n / 100; }
        if n >= 1000 {
          assert |Digits(n / 100)| == 1 + |Digits(n / 1000)| by { assert n / 100 / 10 == n / 1000; }
        }
      }
    }
  }

  // ----- folios ---------------------------------------------------------------------------

  const FOLIO_PREFIX := "AC-"

  /** The year on at least four digits, the number on at least five. */
  function FormatFolio(year: nat, number: nat): string {
    FOLIO_PREFIX + Pad(Digits(year), 4) + "-" + Pad(Digits(number), 5)
  }

  lemma {:induction false} NoLeadingZero(n: nat)
    requires n >= 10
    ensures Digits(n)[0] != '0'
  {
    if n >= 100 {
      NoLeadingZero(n / 10);
    } else {
      assert Digits(n / 10) == [DigitOf(n / 10)];
    }
  }

  /** A numeral of the number on at least `width` digits, no more of them than needed. */
  ghost predicate Written(s: string, n: nat, width: nat) {
    AllDigits(s) && Value(s) == n && |s| >= width && (|s| > width ==> |s| == 1 || s[0] != '0')
  }

  lemma PadIsWritten(n: nat, width: nat)
    requires width >= 1
    ensures Written(Pad(Digits(n), width), n, width)
  {
    PaddedValue(n, width);
    if n >= 10 { NoLeadingZero(n); }
    assert |Digits(n)| > width ==> Pad(Digits(n), width) == Digits(n);
  }

  /** AC, the year on four digits or more, the number on five or more. */
  lemma FolioReads(year: nat, number: nat)
    ensures exists y, n :: FormatFolio(year, number) == "AC-" + y + "-" + n && Written(y, year, 4) && Written(n, number, 5)
  {
    PadIsWritten(year, 4);
    PadIsWritten(number, 5);
    var y, n := Pad(Digits(year), 4), Pad(Digits(number), 5);
    assert FormatFolio(year, number) == "AC-" + y + "-" + n;
  }

  lemma DashSplits(a: string, b: string, c: string, d: string)
    requires AllDigits(a) && AllDigits(c) && a + "-" + b == c + "-" + d
    ensures a == c && b == d
  {
    var t := a + "-" + b;
    assert t[|a|] == '-' && t[|c|] == '-';
    assert forall i :: 0 <= i < |a| ==> t[i] == a[i];
    assert forall i :: 0 <= i < |c| ==> t[i] == c[i];
    assert |a| == |c|;
    assert t[..|a|] == a && t[..|c|] == c;
    assert t[|a| + 1..] == b && t[|c| + 1..] == d;
  }

  /** Different (year, number) pairs never share a folio, however large they grow. */
  lemma FolioIsInjective(year: nat, number: nat, year': nat, number': nat)
    requires FormatFolio(year, number) == FormatFolio(year', number')
    ensures year == year' && number == number'
  {
    var a, b := Pad(Digits(year), 4), Pad(Digits(number), 5);
    var c, d := Pad(Digits(year'), 4), Pad(Digits(number'), 5);
    assert FormatFolio(year, number)[|FOLIO_PREFIX|..] == a + "-" + b;
    assert FormatFolio(year', number')[|FOLIO_PREFIX|..] == c + "-" + d;
    PaddedValue(year, 4);
    PaddedValue(year', 4);
    DashSplits(a, b, c, d);
    PaddedValue(number, 5);
    PaddedValue(number', 5);
  }
}
