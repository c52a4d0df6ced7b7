/**
 * Local calendar days and weeks of a fixed UTC-6 zone. Instants are milliseconds since
 * the epoch; dates follow section 21.4.1 of ECMA-262.
 */
module BusinessTime {
  import opened Basics
  import opened Decimal

  const MS_PER_DAY := 86_400_000
  const OFFSET_MS := -21_600_000

  // ----- the proleptic Gregorian calendar ----------------------------------------------------

  function Day(t: int): int { t / MS_PER_DAY }

  predicate Leap(y: int) { (y % 4 == 0 && y % 100 != 0) || y % 400 == 0 }

  function DayFromYear(y: int): int {
    365 * (y - 1970) + (y - 1969) / 4 - (y - 1901) / 100 + (y - 1601) / 400
  }

  lemma YearLength(y: int)
    ensures DayFromYear(y + 1) == DayFromYear(y) + if Leap(y) then 366 else 365
  {
    Steps(y - 1969, 4);
    Steps(y - 1901, 100);
    Steps(y - 1601, 400);
    SameCycle(y);
  }

  /** The calendar repeats every 400 years, 97 of them leap years; of the full centuries only every fourth is one. */
  lemma FourCenturies(y: int)
    ensures DayFromYear(y + 400) == DayFromYear(y) + 146_097
    ensures Leap(4 * y) <==> y % 25 != 0 || y % 100 == 0
    ensures !Leap(4 * y + 1) && !Leap(4 * y + 2) && !Leap(4 * y + 3)
  {
    Ahead(y - 1969, 4, 100);
    Ahead(y - 1901, 100, 4);
    Ahead(y - 1601, 400, 1);
    FourfoldYear(y);
    hide Leap;
    NotFourfold(4 * y + 1, y, 1);
    NotFourfold(4 * y + 2, y, 2);
    NotFourfold(4 * y + 3, y, 3);
  }

  lemma Ahead(x: int, n: int, k: int)
    requires n > 0
    ensures (x + n * k) / n == x / n + k
  {
    assert x == n * (x / n) + x % n && n * (x / n + k) == n * (x / n) + n * k;
    DivisionIs(x + n * k, n, x / n + k, x % n);
  }

  lemma FourfoldYear(y: int)
    ensures Leap(4 * y) <==> y % 25 != 0 || y % 100 == 0
  {
    DivisionIs(4 * y, 4, y, 0);
    DivisionIs(4 * y, 100, y / 25, 4 * (y % 25));
    DivisionIs(4 * y, 400, y / 100, 4 * (y % 100));
  }

  lemma NotFourfold(y: int, q: int, r: int)
    requires y == 4 * q + r && 0 < r < 4
    ensures !Leap(y)
  {
    DivisionIs(y, 4, q, r);
    if y % 400 == 0 { DivisionIs(y, 4, 100 * (y / 400), 0); }
  }

  lemma SameCycle(y: int)
    ensures ((y - 1968) % 4 == 0 <==> y % 4 == 0) && ((y - 1900) % 100 == 0 <==> y % 100 == 0) && ((y - 1600) % 400 == 0 <==> y % 400 == 0)
    ensures y % 400 == 0 ==> y % 100 == 0
    ensures y % 100 == 0 ==> y % 4 == 0
  {
    ShiftMod(y, 4, 492);
    ShiftMod(y, 100, 19);
    ShiftMod(y, 400, 4);
    if y % 400 == 0 { DivisionIs(y, 100, 4 * (y / 400), 0); }
    if y % 100 == 0 { DivisionIs(y, 4, 25 * (y / 100), 0); }
  }

  lemma ShiftMod(y: int, n: int, k: int)
    requires n > 0
    ensures (y - n * k) % n == y % n
  {
    assert y == n * (y / n) + y % n;
    assert n * (y / n - k) == n * (y / n) - n * k;
    DivisionIs(y - n * k, n, y / n - k, y % n);
  }

  lemma Steps(x: int, n: int)
    requires n > 1
    ensures (x + 1) / n == x / n + if (x + 1) % n == 0 then 1 else 0
  {
    var q, r := x / n, x % n;
    assert x == n * q + r;
    if r == n - 1 {
      assert x + 1 == n * (q + 1);
      DivisionIs(x + 1, n, q + 1, 0);
    } else {
      DivisionIs(x + 1, n, q, r + 1);
    }
  }

  lemma DivisionIs(x: int, n: int, q: int, r: int)
    requires n > 0 && x == n * q + r && 0 <= r < n
    ensures x / n == q && x % n == r
  {
    var d := x / n - q;
    assert n * d == r - x % n;
    assert d >= 1 ==> n * d >= n;
    assert d <= -1 ==> n * d <= -n;
  }

  function YearUp(day: int, y: int): (r: int)
    requires DayFromYear(y) <= day
    ensures DayFromYear(r) <= day < DayFromYear(r + 1)
    decreases day - DayFromYear(y)
  {
    YearLength(y);
    if day < DayFromYear(y + 1) then y else YearUp(day, y + 1)
  }

  function YearDown(day: int, y: int): (r: int)
    requires day < DayFromYear(y + 1)
    ensures DayFromYear(r) <= day < DayFromYear(r + 1)
    decreases DayFromYear(y + 1) - day
  {
    YearLength(y);
    if DayFromYear(y) <= day then y else YearDown(day, y - 1)
  }

  /** The year whose first day is the last one not after the day. */
  function YearOf(day: int): (y: int)
    ensures DayFromYear(y) <= day < DayFromYear(y + 1)
  {
    if day >= DayFromYear(1970) then YearUp(day, 1970) else YearDown(day, 1970)
  }

  /** Days before a month (0 to 11) within its year. */
  function MonthStart(m: int, leap: bool): int
    requires 0 <= m <= 12
  {
    var extra := if leap then 1 else 0;
    if m == 0 then 0 else if m == 1 then 31
    else if m == 2 then 59 + extra else if m == 3 then 90 + extra else if m == 4 then 120 + extra else if m == 5 then 151 + extra
    else if m == 6 then 181 + extra else if m == 7 then 212 + extra else if m == 8 then 243 + extra else if m == 9 then 273 + extra
    else if m == 10 then 304 + extra else if m == 11 then 334 + extra else 365 + extra
  }

  function MonthUp(d: int, leap: bool, m: int): (r: int)
    requires 0 <= m <= 11 && MonthStart(m, leap) <= d < MonthStart(12, leap)
    ensures 0 <= r <= 11 && MonthStart(r, leap) <= d < MonthStart(r + 1, leap)
    decreases 11 - m
  {
    if d < MonthStart(m + 1, leap) then m else MonthUp(d, leap, m + 1)
  }

  lemma InYear(day: int)
    ensures var y := YearOf(day); 0 <= day - DayFromYear(y) < MonthStart(12, Leap(y))
  {
    YearLength(YearOf(day));
    hide DayFromYear, Leap, YearOf;
  }

  function MonthOf(day: int): (m: int)
    ensures 0 <= m <= 11
    ensures MonthStart(m, Leap(YearOf(day))) <= day - DayFromYear(YearOf(day)) < MonthStart(m + 1, Leap(YearOf(day)))
  {
    var y := YearOf(day);
    InYear(day);
    MonthUp(day - DayFromYear(y), Leap(y), 0)
  }

  /** Thirty days have the fourth, sixth, ninth and eleventh month; the second has 28 or 29, all others 31. */
  lemma MonthLength(m: int, leap: bool)
    requires 0 <= m <= 11
    ensures MonthStart(0, leap) == 0
    ensures MonthStart(m + 1, leap) - MonthStart(m, leap)
         == if m == 1 then (if leap then 29 else 28) else if m in {3, 5, 8, 10} then 30 else 31
  {
  }

  lemma DateInMonth(day: int)
    ensures 1 <= day - DayFromYear(YearOf(day)) - MonthStart(MonthOf(day), Leap(YearOf(day))) + 1 <= 31
  {
    MonthLength(MonthOf(day), Leap(YearOf(day)));
    hide YearOf, DayFromYear, MonthStart, Leap, MonthUp;
  }

  /** The day of the month, from 1. */
  function DateOf(day: int): (d: int)
    ensures 1 <= d <= 31
  {
    var y := YearOf(day);
    DateInMonth(day);
    day - DayFromYear(y) - MonthStart(MonthOf(day), Leap(y)) + 1
  }

  /** 0 is Sunday. */
  function WeekDay(day: int): int { (day + 4) % 7 }

  /** MakeDay: months and dates outside their usual range carry over. */
  function MakeDay(y: int, m: int, date: int): int {
    DayFromYear(y + m / 12) + MonthStart(m % 12, Leap(y + m / 12)) + date - 1
  }

  /** Date.UTC takes a year from 0 to 99 as one of the 1900s. */
  function UtcYear(y: int): int { if 0 <= y <= 99 then 1900 + y else y }

  function Utc(y: int, m: int, date: int, timeOfDay: int): int {
    MakeDay(UtcYear(y), m, date) * MS_PER_DAY + timeOfDay
  }

  lemma {:induction false} YearsAscend(y: int, z: int)
    requires y <= z
    ensures DayFromYear(y) + 365 * (z - y) <= DayFromYear(z)
    decreases z - y
  {
    if y < z {
      YearsAscend(y, z - 1);
      YearLength(z - 1);
    }
  }

  lemma YearIsUnique(day: int, y: int)
    requires DayFromYear(y) <= day < DayFromYear(y + 1)
    ensures YearOf(day) == y
  {
    var z := YearOf(day);
    if z < y { YearsAscend(z + 1, y); }
    if y < z { YearsAscend(y + 1, z); }
  }

  /** MakeDay undoes the split of a day into year, month and date. */
  lemma MakeDayRebuilds(day: int)
    ensures MakeDay(YearOf(day), MonthOf(day), DateOf(day)) == day
  {
    var y, m := YearOf(day), MonthOf(day);
    assert DateOf(day) == day - DayFromYear(y) - MonthStart(m, Leap(y)) + 1;
    hide YearOf, MonthOf, DateOf, DayFromYear, MonthStart, Leap;
    assert m / 12 == 0 && m % 12 == m;
  }

  /** Moving the date moves the day. */
  lemma MakeDayShifts(y: int, m: int, date: int, back: int)
    ensures MakeDay(y, m, date - back) == MakeDay(y, m, date) - back
  {
    hide DayFromYear, MonthStart, Leap;
  }

  lemma {:induction false} MonthsAscend(m: int, r: int, leap: bool)
    requires 0 <= m < r <= 11
    ensures MonthStart(m + 1, leap) <= MonthStart(r, leap)
    decreases r - m
  {
    if m + 1 < r {
      MonthLength(m + 1, leap);
      MonthsAscend(m + 1, r, leap);
    }
  }

  lemma MonthIsUnique(day: int, m: int)
    requires 0 <= m <= 11
    requires MonthStart(m, Leap(YearOf(day))) <= day - DayFromYear(YearOf(day)) < MonthStart(m + 1, Leap(YearOf(day)))
    ensures MonthOf(day) == m
  {
    hide YearOf, DayFromYear, MonthStart, Leap;
    var r, leap := MonthOf(day), Leap(YearOf(day));
    if m < r { MonthsAscend(m, r, leap); }
    if r < m { MonthsAscend(r, m, leap); }
  }

  lemma MakeDayIs(y: int, m: int, date: int)
    requires 0 <= m <= 11
    ensures MakeDay(y, m, date) == DayFromYear(y) + MonthStart(m, Leap(y)) + date - 1
  {
    hide DayFromYear, MonthStart, Leap;
    assert m / 12 == 0 && m % 12 == m;
  }

  lemma WithinYear(m: int, leap: bool)
    requires 0 <= m <= 11
    ensures 0 <= MonthStart(m, leap) && MonthStart(m + 1, leap) <= if leap then 366 else 365
  {
  }

  /** And the split undoes MakeDay on real calendar dates. */
  lemma SplitRebuilds(y: int, m: int, date: int)
    requires 0 <= m <= 11 && 1 <= date <= MonthStart(m + 1, Leap(y)) - MonthStart(m, Leap(y))
    ensures var day := MakeDay(y, m, date); YearOf(day) == y && MonthOf(day) == m && DateOf(day) == date
  {
    var day := MakeDay(y, m, date);
    hide YearUp, YearDown, DayFromYear, MonthStart, Leap, MakeDay, MonthOf;
    MakeDayIs(y, m, date);
    YearLength(y);
    WithinYear(m, Leap(y));
    YearIsUnique(day, y);
    MonthIsUnique(day, m);
  }

  // ----- local days and weeks ------------------------------------------------------------------

  function ToLocal(t: int): int { t + OFFSET_MS }
  function FromLocal(local: int): int { local - OFFSET_MS }
  function LocalDay(t: int): int { Day(ToLocal(t)) }
  function LocalYear(t: int): int { YearOf(LocalDay(t)) }

  datatype Range = Range(from: int, to: int) {
    predicate Contains(t: int) { from <= t <= to }
  }

  function CurrentWeekRange(t: int): Range {
    var day := LocalDay(t);
    var start := Utc(YearOf(day), MonthOf(day), DateOf(day) - WeekDay(day), 0);
    Range(FromLocal(start), FromLocal(start + 7 * MS_PER_DAY - 1))
  }

  lemma WeekStart(t: int)
    requires !(0 <= LocalYear(t) <= 99)
    ensures CurrentWeekRange(t).from == FromLocal((LocalDay(t) - WeekDay(LocalDay(t))) * MS_PER_DAY)
    ensures CurrentWeekRange(t).to == CurrentWeekRange(t).from + 7 * MS_PER_DAY - 1
  {
    var day := LocalDay(t);
    MakeDayRebuilds(day);
    MakeDayShifts(YearOf(day), MonthOf(day), DateOf(day), WeekDay(day));
    hide LocalDay, MakeDay, YearOf, MonthOf, DateOf, WeekDay;
  }

  lemma DayOf(local: int)
    ensures Day(local) * MS_PER_DAY <= local < Day(local) * MS_PER_DAY + MS_PER_DAY
  {
  }

  lemma DayIs(day: int, time: int)
    requires 0 <= time < MS_PER_DAY
    ensures Day(day * MS_PER_DAY + time) == day && (day * MS_PER_DAY + time) % MS_PER_DAY == time
  {
  }

  /** The range runs from a local Sunday midnight to the last millisecond of its Saturday. */
  lemma WeekIsSundayToSaturday(t: int)
    requires !(0 <= LocalYear(t) <= 99)
    ensures var r := CurrentWeekRange(t);
            && ToLocal(r.from) % MS_PER_DAY == 0 && WeekDay(LocalDay(r.from)) == 0
            && r.to == r.from + 7 * MS_PER_DAY - 1 && WeekDay(LocalDay(r.to)) == 6
  {
    WeekStart(t);
    var day := LocalDay(t);
    var sunday := day - WeekDay(day);
    Sundays(day);
    var r := CurrentWeekRange(t);
    hide CurrentWeekRange, LocalYear, YearOf, Day, WeekDay;
    LocalDayIs(r.from, sunday, 0);
    LocalDayIs(r.to, sunday + 6, MS_PER_DAY - 1);
  }

  lemma Sundays(day: int)
    ensures WeekDay(day - WeekDay(day)) == 0 && WeekDay(day - WeekDay(day) + 6) == 6
  {
  }

  lemma LocalDayIs(t: int, day: int, time: int)
    requires ToLocal(t) == day * MS_PER_DAY + time && 0 <= time < MS_PER_DAY
    ensures LocalDay(t) == day && ToLocal(t) % MS_PER_DAY == time
  {
    DayIs(day, time);
  }

  lemma DayFromYearLater(y: int)
    requires 0 <= y <= 99
    ensures DayFromYear(y + 1) + 366 < DayFromYear(1900 + y)
  {
    YearsAscend(y + 1, 100);
    YearsAscend(1900, 1900 + y);
    assert DayFromYear(100) + 366 < DayFromYear(1900);
  }

  lemma MakeDayAtLeast(y: int, m: int, date: int)
    requires 0 <= m <= 11
    ensures MakeDay(y, m, date) >= DayFromYear(y) + date - 1
  {
    assert m / 12 == 0 && m % 12 == m;
  }

  lemma RangeFrom(t: int)
    ensures var day := LocalDay(t);
            CurrentWeekRange(t).from == FromLocal(MakeDay(UtcYear(LocalYear(t)), MonthOf(day), DateOf(day) - WeekDay(day)) * MS_PER_DAY)
  {
    hide MakeDay, YearOf, MonthOf, DateOf, LocalDay, WeekDay;
  }

  lemma DayWithinYear(t: int)
    ensures LocalDay(t) < DayFromYear(LocalYear(t) + 1) && t < FromLocal((LocalDay(t) + 1) * MS_PER_DAY)
    ensures 0 <= MonthOf(LocalDay(t)) <= 11 && 1 <= DateOf(LocalDay(t)) && WeekDay(LocalDay(t)) <= 6
  {
    DayOf(ToLocal(t));
    hide DayFromYear;
  }

  lemma EarlyYears(t: int)
    requires 0 <= LocalYear(t) <= 99
    ensures CurrentWeekRange(t).from > t
  {
    RangeFrom(t);
    DayWithinYear(t);
    hide *;
    var day, y := LocalDay(t), LocalYear(t);
    var m, date, back := MonthOf(day), DateOf(day), WeekDay(day);
    DayFromYearLater(y);
    MakeDayAtLeast(1900 + y, m, date - back);
    EarlyMath(t, day, MakeDay(1900 + y, m, date - back));
    UtcYearOf(y);
  }

  lemma UtcYearOf(y: int)
    requires 0 <= y <= 99
    ensures UtcYear(y) == 1900 + y
  {
  }

  lemma EarlyMath(t: int, day: int, start: int)
    requires start > day && t < FromLocal((day + 1) * MS_PER_DAY)
    ensures FromLocal(start * MS_PER_DAY) > t
  {
  }

  /** An instant lies in its own week exactly when its local year is not one Date.UTC reads as a year of the 1900s. */
  lemma InOwnWeek(t: int)
    ensures CurrentWeekRange(t).Contains(t) <==> !(0 <= LocalYear(t) <= 99)
  {
    if 0 <= LocalYear(t) <= 99 {
      EarlyYears(t);
    } else {
      WeekStart(t);
      DayOf(ToLocal(t));
      hide CurrentWeekRange, LocalYear, YearOf, Day;
    }
  }

  function WeekOf(t: int): int { (LocalDay(t) + 4) / 7 }

  lemma WeekFrom(t: int)
    requires !(0 <= LocalYear(t) <= 99)
    ensures CurrentWeekRange(t).from == FromLocal((7 * WeekOf(t) - 4) * MS_PER_DAY)
    ensures CurrentWeekRange(t).to == CurrentWeekRange(t).from + 7 * MS_PER_DAY - 1
  {
    WeekStart(t);
    hide CurrentWeekRange, LocalYear, YearOf, LocalDay;
    var d := LocalDay(t) + 4;
    assert d == 7 * (d / 7) + d % 7;
  }

  /** Weeks tile the time line: two ranges are equal or disjoint, and equal exactly for instants of the same week. */
  lemma WeeksTile(t: int, u: int)
    requires !(0 <= LocalYear(t) <= 99) && !(0 <= LocalYear(u) <= 99)
    ensures var a, b := CurrentWeekRange(t), CurrentWeekRange(u);
            && (a == b || a.to < b.from || b.to < a.from)
            && (a == b <==> a.Contains(u))
  {
    WeekFrom(t);
    WeekFrom(u);
    InOwnWeek(u);
    var a, b := CurrentWeekRange(t), CurrentWeekRange(u);
    hide CurrentWeekRange, LocalYear, WeekOf;
    RangesTile(a, b, WeekOf(t), WeekOf(u));
  }

  lemma RangesTile(a: Range, b: Range, w: int, v: int)
    requires a.from == FromLocal((7 * w - 4) * MS_PER_DAY) && a.to == a.from + 7 * MS_PER_DAY - 1
    requires b.from == FromLocal((7 * v - 4) * MS_PER_DAY) && b.to == b.from + 7 * MS_PER_DAY - 1
    ensures a == b || a.to < b.from || b.to < a.from
  {
    assert w < v ==> 7 * w - 4 + 7 <= 7 * v - 4;
    assert v < w ==> 7 * v - 4 + 7 <= 7 * w - 4;
  }

  /** A local day runs from 06:00 UTC, 21600000 milliseconds after midnight, to the same hour of the next day. */
  lemma LocalMidnight(t: int, day: int)
    ensures LocalDay(t) == day <==> day * 86_400_000 + 21_600_000 <= t < (day + 1) * 86_400_000 + 21_600_000
  {
    DayOf(ToLocal(t));
    if day * 86_400_000 + 21_600_000 <= t < (day + 1) * 86_400_000 + 21_600_000 { DayIs(day, ToLocal(t) - day * MS_PER_DAY); }
  }

  /** Day 0 is 1 January 1970, a Thursday; each day has its own date and follows its weekday. */
  lemma Epoch(day: int)
    ensures YearOf(0) == 1970 && MonthOf(0) == 0 && DateOf(0) == 1 && WeekDay(0) == 4
    ensures WeekDay(day + 1) == (WeekDay(day) + 1) % 7
  {
    hide YearOf, MonthOf, YearUp, YearDown, MonthUp;
    FirstYear();
    FirstMonth();
  }

  lemma FirstYear()
    ensures YearOf(0) == 1970 && DayFromYear(1970) == 0
  {
    hide YearOf, YearUp, YearDown;
    assert DayFromYear(1971) == 365;
    YearIsUnique(0, 1970);
  }

  lemma FirstMonth()
    ensures MonthOf(0) == 0
  {
    hide YearOf, YearUp, YearDown, MonthOf, MonthUp;
    FirstYear();
    MonthLength(0, Leap(1970));
    MonthIsUnique(0, 0);
  }

  // ----- business dates ------------------------------------------------------------------------

  function Plain(n: int): string { if n < 0 then "-" + Digits(-n) else Digits(n) }

  /** The year as it prints, month and day on two digits. */
  function CurrentBusinessDate(t: int): string {
    var day := LocalDay(t);
    Plain(YearOf(day)) + "-" + Pad(Digits(MonthOf(day) + 1), 2) + "-" + Pad(Digits(DateOf(day)), 2)
  }

  predicate DateOnly(s: string) {
    |s| == 10 && AllDigits(s[..4]) && s[4] == '-' && AllDigits(s[5..7]) && s[7] == '-' && AllDigits(s[8..])
  }

  /** A date-only value is a whole local day; anything else is what the engine's own parser makes of it. */
  function ParseRangeBoundary(value: string, end: bool, parsed: Option<int>): Result<int, string> {
    if DateOnly(value) then
      var time := if end then MS_PER_DAY - 1 else 0;
      Ok(FromLocal(Utc(Value(value[..4]), Value(value[5..7]) - 1, Value(value[8..]), time)))
    else
      match parsed
      case Some(t) => Ok(t)
      case None => Err("Invalid date: " + value)
  }

  lemma TwoDigits(n: nat)
    requires n < 100
    ensures |Pad(Digits(n), 2)| == 2 && AllDigits(Pad(Digits(n), 2)) && Value(Pad(Digits(n), 2)) == n
  {
    PaddedValue(n, 2);
    DigitCount(n);
  }

  lemma DateParts(t: int)
    requires LocalYear(t) >= 0
    ensures var day := LocalDay(t); var s := CurrentBusinessDate(t);
            var n := |Digits(LocalYear(t))|;
            && |s| == n + 6 && s[..n] == Digits(YearOf(day)) && s[n] == '-'
            && s[n + 1..n + 3] == Pad(Digits(MonthOf(day) + 1), 2) && s[n + 3] == '-'
            && s[n + 4..] == Pad(Digits(DateOf(day)), 2)
  {
    var day := LocalDay(t);
    var a, b, c := Digits(YearOf(day)), Pad(Digits(MonthOf(day) + 1), 2), Pad(Digits(DateOf(day)), 2);
    TwoDigits(MonthOf(day) + 1);
    TwoDigits(DateOf(day));
    Glued(a, b, c);
  }

  lemma Glued(a: string, b: string, c: string)
    ensures var s := a + "-" + b + "-" + c;
            && |s| == |a| + |b| + |c| + 2 && s[..|a|] == a && s[|a|] == '-' && s[|a| + 1..|a| + 1 + |b|] == b
            && s[|a| + 1 + |b|] == '-' && s[|a| + |b| + 2..] == c
  {
  }

  /** The printed day is a date-only value exactly for local years 1000 to 9999. */
  lemma PrintsDateOnly(t: int)
    ensures DateOnly(CurrentBusinessDate(t)) <==> 1000 <= LocalYear(t) <= 9999
  {
    var y, s := LocalYear(t), CurrentBusinessDate(t);
    if y >= 0 {
      DateParts(t);
      DigitCount(y);
      TwoDigits(MonthOf(LocalDay(t)) + 1);
      TwoDigits(DateOf(LocalDay(t)));
    } else {
      assert s[0] == '-';
      assert |s| >= 4 ==> s[..4][0] == '-';
    }
  }

  lemma ReadsParts(s: string, y: int, m: int, date: int, end: bool, parsed: Option<int>)
    requires DateOnly(s) && Value(s[..4]) == y && Value(s[5..7]) == m + 1 && Value(s[8..]) == date && y > 99
    ensures ParseRangeBoundary(s, end, parsed) == Ok(FromLocal(MakeDay(y, m, date) * MS_PER_DAY + if end then MS_PER_DAY - 1 else 0))
  {
    hide MakeDay, Value;
  }

  lemma PartValues(t: int)
    requires 1000 <= LocalYear(t) <= 9999
    ensures var s, day := CurrentBusinessDate(t), LocalDay(t);
            && DateOnly(s) && Value(s[..4]) == YearOf(day) && Value(s[5..7]) == MonthOf(day) + 1 && Value(s[8..]) == DateOf(day)
  {
    hide CurrentBusinessDate, MonthOf, DateOf, LocalDay, YearUp, YearDown, DayFromYear;
    var day := LocalDay(t);
    PrintsDateOnly(t);
    DateParts(t);
    DigitCount(YearOf(day));
    ValueOfDigits(YearOf(day));
    TwoDigits(MonthOf(day) + 1);
    TwoDigits(DateOf(day));
  }

  lemma BoundaryIs(t: int, end: bool, parsed: Option<int>)
    requires 1000 <= LocalYear(t) <= 9999
    ensures ParseRangeBoundary(CurrentBusinessDate(t), end, parsed)
         == Ok(FromLocal(LocalDay(t) * MS_PER_DAY + if end then MS_PER_DAY - 1 else 0))
  {
    hide CurrentBusinessDate, MonthOf, DateOf, LocalDay, YearUp, YearDown, DayFromYear, MakeDay, DateOnly, Value, ParseRangeBoundary;
    var day := LocalDay(t);
    PartValues(t);
    MakeDayRebuilds(day);
    ReadsParts(CurrentBusinessDate(t), YearOf(day), MonthOf(day), DateOf(day), end, parsed);
  }

  /** Feeding the printed day back brackets the instant by its whole local day. */
  lemma BusinessDateBrackets(t: int, parsed: Option<int>)
    requires 1000 <= LocalYear(t) <= 9999
    ensures var s := CurrentBusinessDate(t);
            var from, to := ParseRangeBoundary(s, false, parsed), ParseRangeBoundary(s, true, parsed);
            && from.Ok? && to.Ok? && from.value <= t <= to.value
            && to.value == from.value + MS_PER_DAY - 1
            && ToLocal(from.value) % MS_PER_DAY == 0
  {
    hide CurrentBusinessDate, LocalYear, ParseRangeBoundary, Day, YearOf;
    BoundaryIs(t, false, parsed);
    BoundaryIs(t, true, parsed);
    DayOf(ToLocal(t));
    DayIs(LocalDay(t), 0);
  }

  /** Two instants print the same day exactly when they fall on the same local day. */
  lemma SameDateSameDay(t: int, u: int)
    requires 1000 <= LocalYear(t) <= 9999 && 1000 <= LocalYear(u) <= 9999
    ensures CurrentBusinessDate(t) == CurrentBusinessDate(u) <==> LocalDay(t) == LocalDay(u)
  {
    hide LocalDay, LocalYear, ParseRangeBoundary, YearOf, MonthOf, DateOf, Plain, Pad, Digits;
    BoundaryIs(t, false, None);
    BoundaryIs(u, false, None);
    assert LocalDay(t) == LocalDay(u) ==> CurrentBusinessDate(t) == CurrentBusinessDate(u);
  }

  lemma DayBefore(now: int)
    ensures LocalDay(now - MS_PER_DAY) == LocalDay(now) - 1
  {
  }

  /** Yesterday ends one millisecond before today starts. */
  lemma YesterdayMeetsToday(now: int, parsed: Option<int>)
    requires 1000 <= LocalYear(now) <= 9999 && 1000 <= LocalYear(now - MS_PER_DAY) <= 9999
    ensures var today, yesterday := CurrentBusinessDate(now), CurrentBusinessDate(now - MS_PER_DAY);
            var end, start := ParseRangeBoundary(yesterday, true, parsed), ParseRangeBoundary(today, false, parsed);
            end.Ok? && start.Ok? && end.value + 1 == start.value
  {
    BoundaryIs(now, false, parsed);
    BoundaryIs(now - MS_PER_DAY, true, parsed);
    DayBefore(now);
    hide CurrentBusinessDate, LocalYear, LocalDay, ParseRangeBoundary;
  }

  /** The folio year: the first four characters of the printed day, read as a number; none when they are not digits. */
  function FolioYear(t: int): Option<nat> {
    var s := CurrentBusinessDate(t);
    if |s| >= 4 && AllDigits(s[..4]) then Some(Value(s[..4])) else None
  }

  /** It is the local year exactly for the years that print with four digits. */
  lemma FolioYearIsLocalYear(t: int)
    requires LocalYear(t) >= 0
    ensures FolioYear(t) == Some(LocalYear(t)) <==> 1000 <= LocalYear(t) <= 9999
  {
    var y, s := LocalYear(t), CurrentBusinessDate(t);
    DateParts(t);
    DigitCount(y);
    ValueOfDigits(y);
    var n := |Digits(y)|;
    if n < 4 {
      assert s[..4][n] == '-';
    } else if n == 4 {
      assert s[..4] == Digits(y);
    } else {
      ValueOfFour(s[..4]);
    }
  }

  lemma ValueOfFour(s: string)
    requires |s| == 4
    ensures AllDigits(s) ==> Value(s) <= 9999
  {
    if AllDigits(s) {
      assert s[..3][..2] == s[..2] && s[..2][..1] == s[..1] && s[..1][..0] == "";
      LastDigit(s[..1]);
      LastDigit(s[..2]);
      LastDigit(s[..3]);
      LastDigit(s);
    }
  }

  lemma LastDigit(s: string)
    requires AllDigits(s) && s != ""
    ensures Value(s) <= Value(s[..|s| - 1]) * 10 + 9
  {
  }

  lemma DaysAdvance(t: int, u: int)
    requires t <= u
    ensures LocalDay(t) <= LocalDay(u)
  {
  }

  /** The year a folio is counted in never goes back as time passes. */
  lemma FolioYearAdvances(t: int, u: int)
    requires t <= u
    ensures LocalYear(t) <= LocalYear(u)
  {
    hide LocalDay, DayFromYear, Leap, MonthStart, YearUp, YearDown;
    var y, z := LocalYear(t), LocalYear(u);
    DaysAdvance(t, u);
    assert DayFromYear(y) <= LocalDay(t) && LocalDay(u) < DayFromYear(z + 1);
    if z < y { YearsAscend(z + 1, y); }
  }
}
