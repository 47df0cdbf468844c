/** Day counts and week numbers. Years count from 1900 and months from 0, as in struct tm. */
module Calendar {
  // ---- the Gregorian calendar, day by day ----

  predicate Leap(year: int)
  {
    var y := year + 1900;
    y % 4 == 0 && (y % 100 != 0 || y % 400 == 0)
  }

  function YearLength(year: int): int { if Leap(year) then 366 else 365 }

  function MonthLength(year: int, mon: int): int
    requires 0 <= mon < 12
  {
    if mon == 1 then (if Leap(year) then 29 else 28)
    else if mon == 3 || mon == 5 || mon == 8 || mon == 10 then 30
    else 31
  }

  datatype Date = Date(year: int, mon: int, mday: int)

  predicate ValidDate(d: Date)
  {
    0 <= d.mon < 12 && 1 <= d.mday <= MonthLength(d.year, d.mon)
  }

  function NextDay(d: Date): (n: Date)
    requires ValidDate(d)
    ensures ValidDate(n)
  {
    if d.mday < MonthLength(d.year, d.mon) then Date(d.year, d.mon, d.mday + 1)
    else if d.mon < 11 then Date(d.year, d.mon + 1, 1)
    else Date(d.year + 1, 0, 1)
  }

  const EPOCH := Date(70, 0, 1)

  /** Leap years before the given one, counted from year 1. */
  function LeapsBefore(year: int): int
  {
    (year + 1899) / 4 - (year + 1899) / 100 + (year + 1899) / 400
  }

  lemma StepDiv(n: int, k: int)
    requires k == 4 || k == 100 || k == 400
    ensures (n + 1) / k - n / k == if (n + 1) % k == 0 then 1 else 0
  {
  }

  lemma Multiples(n: int)
    ensures n % 400 == 0 ==> n % 100 == 0
    ensures n % 100 == 0 ==> n % 4 == 0
  {
  }

  lemma LeapsNext(year: int)
    ensures LeapsBefore(year + 1) == LeapsBefore(year) + if Leap(year) then 1 else 0
  {
    StepDiv(year + 1899, 4);
    StepDiv(year + 1899, 100);
    StepDiv(year + 1899, 400);
    Multiples(year + 1900);
  }

  /** Days in the year before the month. */
  function MonthToDays(mon: int, leap: bool): int
    requires 0 <= mon < 12
  {
    [0, 31, 59, 90, 120, 151, 181, 212, 243, 273, 304, 334][mon] + if leap && mon >= 2 then 1 else 0
  }

  /** The number of a day, 0 for the first of January 1970. */
  function DayNumber(d: Date): int
    requires 0 <= d.mon < 12
  {
    365 * (d.year - 70) + LeapsBefore(d.year) - 477 + MonthToDays(d.mon, Leap(d.year)) + d.mday - 1
  }

  /** It is the day-by-day count: 0 at the epoch, and one more on each next day, for every year. */
  lemma DayNumberCounts(d: Date)
    requires ValidDate(d)
    ensures DayNumber(NextDay(d)) == DayNumber(d) + 1 && DayNumber(EPOCH) == 0
  {
    LeapsNext(d.year);
    assert LeapsBefore(70) == 477;
  }

  // ---- division as C does it ----

  function CDiv(a: int, b: int): int
    requires b > 0
  {
    if a >= 0 then a / b else -((-a) / b)
  }

  function CMod(a: int, b: int): int
    requires b > 0
  {
    a - CDiv(a, b) * b
  }

  // ---- geti: years that start in March ----

  function DayOffset(mon: int): int
    requires 0 <= mon < 12
  {
    [306, 337, 0, 31, 61, 92, 122, 153, 184, 214, 245, 275][mon]
  }

  function GetiDays(d: Date): int
    requires 0 <= d.mon < 12
  {
    var year := if d.mon < 2 then d.year - 1 else d.year;
    year * 365 + CDiv(year, 4) - CDiv(year, 100) + CDiv(CDiv(year, 100) + 3, 4) + DayOffset(d.mon) + d.mday - 1 - 25508
  }

  lemma NestedDiv(y: nat)
    ensures (y / 100 + 3) / 4 == (y + 300) / 400
  {
    var q, r := y / 100, y % 100;
    var s, u := (q + 3) / 4, (q + 3) % 4;
    assert y + 300 == 400 * s + (100 * u + r);
  }

  lemma ShiftDiv(y: int)
    ensures (y + 1900) / 4 == y / 4 + 475 && (y + 1900) / 100 == y / 100 + 19 && (y + 1900) / 400 == (y + 300) / 400 + 4
  {
  }

  lemma GetiLeaps(year: int)
    requires year >= -1
    ensures CDiv(year, 4) - CDiv(year, 100) + CDiv(CDiv(year, 100) + 3, 4) == LeapsBefore(year + 1) - 460
  {
    if year >= 0 {
      NestedDiv(year);
      ShiftDiv(year);
    }
  }

  /** Below zero C division rounds up. */
  lemma CDivUp(y: int, k: int)
    requires y < 0 && (k == 4 || k == 100)
    ensures CDiv(y, k) == y / k + if y % k == 0 then 0 else 1
  {
  }

  lemma NestedUp(y: int)
    requires y <= -300
    ensures CDiv(CDiv(y, 100) + 3, 4) == (y + 300) / 400 + if (y + 300) % 400 == 0 then 0 else 1
  {
    var m := -y - 300;
    var q, r := m / 100, m % 100;
    var s, u := q / 4, q % 4;
    assert CDiv(y, 100) + 3 == -q;
    assert CDiv(-q, 4) == -s;
    assert m == 400 * s + (100 * u + r);
  }

  lemma NestedNear(y: int)
    requires -300 < y < 0
    ensures CDiv(CDiv(y, 100) + 3, 4) == 0 && (y + 300) / 400 == 0
  {
    assert -3 < CDiv(y, 100) <= 0;
  }

  lemma LeapParts(y: int)
    ensures Leap(y) <==> y % 4 == 0 && (y % 100 != 0 || (y + 300) % 400 == 0)
    ensures (y + 300) % 400 == 0 ==> y % 100 == 0
    ensures y % 100 == 0 ==> y % 4 == 0
  {
    Later4(y);
    Later100(y);
    Later400(y);
    Multiples(y);
    Centuries(y);
  }

  lemma Later4(y: int)
    ensures (y + 1900) % 4 == y % 4
  {
    assert y + 1900 == 4 * (y / 4 + 475) + y % 4;
  }

  lemma Later100(y: int)
    ensures (y + 1900) % 100 == y % 100
  {
    assert y + 1900 == 100 * (y / 100 + 19) + y % 100;
  }

  lemma Later400(y: int)
    ensures (y + 1900) % 400 == (y + 300) % 400
  {
    assert y + 1900 == 400 * ((y + 300) / 400 + 4) + (y + 300) % 400;
  }

  lemma Centuries(y: int)
    ensures (y + 300) % 400 == 0 ==> y % 100 == 0
  {
    if (y + 300) % 400 == 0 {
      assert y == 100 * (4 * ((y + 300) / 400) - 3);
    }
  }

  /** The leap days counted before 1900 are off by one, or not, depending on the year alone. */
  lemma GetiLeapsBefore(year: int)
    requires year < 0
    ensures CDiv(year, 4) - CDiv(year, 100) + CDiv(CDiv(year, 100) + 3, 4) == LeapsBefore(year + 1) - 460
      <==> if year > -300 then !Leap(year) else Leap(year)
  {
    CDivUp(year, 4);
    CDivUp(year, 100);
    ShiftDiv(year);
    LeapParts(year);
    if year > -300 {
      NestedNear(year);
    } else {
      NestedUp(year);
    }
  }

  /** The year a date falls in when years start in March. */
  function MarchYear(d: Date): int { if d.mon < 2 then d.year - 1 else d.year }

  lemma GetiByLeaps(d: Date)
    requires 0 <= d.mon < 12
    ensures var y := MarchYear(d);
      GetiDays(d) - DayNumber(d) == CDiv(y, 4) - CDiv(y, 100) + CDiv(CDiv(y, 100) + 3, 4) - (LeapsBefore(y + 1) - 460)
  {
    LeapsNext(d.year);
  }

  /**
    The March-based form counts days exactly in these years: all from March 1900 on; back to 1601 the
    March years that are no leap years, because C division rounds up below zero; and before that only
    the leap years.
   */
  lemma GetiExact(d: Date)
    requires 0 <= d.mon < 12
    ensures var y := MarchYear(d); GetiDays(d) == DayNumber(d) <==> (y >= 0 || if y > -300 then !Leap(y) else Leap(y))
  {
    GetiByLeaps(d);
    if MarchYear(d) >= 0 {
      GetiLeaps(MarchYear(d));
    } else {
      GetiLeapsBefore(MarchYear(d));
    }
  }

  /** In particular for every date from 1900 on. */
  lemma GetiIsDayNumber(d: Date)
    requires 0 <= d.mon < 12 && d.year >= 0
    ensures GetiDays(d) == DayNumber(d)
  {
    GetiExact(d);
    LeapParts(-1);
  }

  /** The first of March 1896 is one day off. */
  lemma GetiBefore1900()
    ensures GetiDays(Date(-4, 2, 1)) == DayNumber(Date(-4, 2, 1)) - 1
  {
  }

  // ---- __tm_to_secs: 400-year cycles from 2000 on ----

  /** Days from 1970 to the start of the year, and whether the year is a leap year. */
  function YearToDays(year: int): (int, bool)
  {
    if 2 <= year <= 138 then
      var leap := (year - 68) % 4 == 0;
      var leaps := (year - 68) / 4 - if leap then 1 else 0;
      (365 * (year - 70) + leaps, leap)
    else
      var cycles0, rem0 := CDiv(year - 100, 400), CMod(year - 100, 400);
      if rem0 < 0 then CycleDays(year, cycles0 - 1, rem0 + 400) else CycleDays(year, cycles0, rem0)
  }

  function CycleDays(year: int, cycles: int, rem: int): (int, bool)
  {
    var centuries := if rem >= 200 then (if rem >= 300 then 3 else 2) else if rem >= 100 then 1 else 0;
    var rest := rem - 100 * centuries;
    var leap := if rem == 0 then true else rest != 0 && rest % 4 == 0;
    var leaps := (if rest == 0 then 0 else rest / 4) + 97 * cycles + 24 * centuries - if leap then 1 else 0;
    ((year - 100) * 365 + leaps + 10957 + 1, leap)
  }

  lemma FloorCycle(n: int)
    ensures var c, r := CDiv(n, 400), CMod(n, 400); (if r < 0 then c - 1 else c) == n / 400 && (if r < 0 then r + 400 else r) == n % 400
  {
  }

  lemma CycleIs(year: int, cycles: int, rem: int)
    requires 0 <= rem < 400 && year - 100 == 400 * cycles + rem
    ensures CycleDays(year, cycles, rem) == (365 * (year - 70) + LeapsBefore(year) - 477, Leap(year))
  {
    var centuries := if rem >= 200 then (if rem >= 300 then 3 else 2) else if rem >= 100 then 1 else 0;
    var rest := rem - 100 * centuries;
    InCycle(cycles, centuries, rest, year + 1900);
    InCycleBefore(cycles, centuries, rest, year + 1899);
  }

  lemma InCycle(c: int, h: int, r: int, n: int)
    requires 0 <= h < 4 && 0 <= r < 100 && n == 400 * c + 100 * h + r + 2000
    ensures n % 4 == r % 4 && n % 100 == r && n % 400 == 100 * h + r
  {
    InCycle4(c, h, r, n);
    assert n == 100 * (4 * c + h + 20) + r;
    assert n == 400 * (c + 5) + (100 * h + r);
  }

  lemma InCycle4(c: int, h: int, r: int, n: int)
    requires n == 400 * c + 100 * h + r + 2000
    ensures n % 4 == r % 4
  {
    assert n == 4 * (100 * c + 25 * h + 500 + r / 4) + r % 4;
  }

  lemma InCycleBefore(c: int, h: int, r: int, n: int)
    requires 0 <= h < 4 && 0 <= r < 100 && n == 400 * c + 100 * h + r + 1999
    ensures n / 4 == 100 * c + 25 * h + 499 + (r + 3) / 4
    ensures n / 100 == 4 * c + h + 19 + if r > 0 then 1 else 0
    ensures n / 400 == c + 4 + if h > 0 || r > 0 then 1 else 0
  {
  }

  lemma FastIs(year: int)
    requires 2 <= year <= 138
    ensures YearToDays(year) == (365 * (year - 70) + LeapsBefore(year) - 477, Leap(year))
  {
  }

  /** Both the fast path and the cycles count days, for every year. */
  lemma YearToDaysIs(year: int)
    ensures YearToDays(year) == (365 * (year - 70) + LeapsBefore(year) - 477, Leap(year))
  {
    if 2 <= year <= 138 {
      FastIs(year);
    } else {
      FloorCycle(year - 100);
      CycleIs(year, (year - 100) / 400, (year - 100) % 400);
    }
  }

  /** A broken-down time; months and all smaller units may be out of range. */
  datatype Tm = Tm(sec: int, min: int, hour: int, mday: int, mon: int, year: int)

  /** The seconds, once month and year are in range. */
  function SecsOf(year: int, month: int, tm: Tm): int
    requires 0 <= month < 12
  {
    var (days, leap) := YearToDays(year);
    86400 * days + 86400 * MonthToDays(month, leap) + 86400 * (tm.mday - 1) + 3600 * tm.hour + 60 * tm.min + tm.sec
  }

  lemma FloorMonth(m: int)
    ensures var c, r := CDiv(m, 12), CMod(m, 12); (if r < 0 then c - 1 else c) == m / 12 && (if r < 0 then r + 12 else r) == m % 12
  {
  }

  lemma MonthInRange(m: int)
    ensures 0 <= m < 12 ==> m / 12 == 0 && m % 12 == m
  {
  }

  /** A month out of range, as years and a month in range. */
  function MonthCarry(mon: int): (r: (int, int))
    ensures r.0 == mon / 12 && r.1 == mon % 12
  {
    FloorMonth(mon);
    MonthInRange(mon);
    if 0 <= mon < 12 then (0, mon)
    else
      var adj, m := CDiv(mon, 12), CMod(mon, 12);
      if m < 0 then (adj - 1, m + 12) else (adj, m)
  }

  function TmToSecs(tm: Tm): int
  {
    SecsOf(tm.year + MonthCarry(tm.mon).0, MonthCarry(tm.mon).1, tm)
  }

  lemma SecsOfIs(year: int, month: int, tm: Tm)
    requires 0 <= month < 12
    ensures SecsOf(year, month, tm) == 86400 * DayNumber(Date(year, month, tm.mday)) + 3600 * tm.hour + 60 * tm.min + tm.sec
  {
    YearToDaysIs(year);
  }

  /** For every input: months carry into years, and the result is the day number in seconds plus the time of day. */
  lemma TmToSecsIs(tm: Tm)
    ensures TmToSecs(tm) == 86400 * DayNumber(Date(tm.year + tm.mon / 12, tm.mon % 12, tm.mday)) + 3600 * tm.hour + 60 * tm.min + tm.sec
  {
    CarriedSecs(tm);
    SecsOfIs(tm.year + tm.mon / 12, tm.mon % 12, tm);
  }

  lemma CarriedSecs(tm: Tm)
    ensures TmToSecs(tm) == SecsOf(tm.year + tm.mon / 12, tm.mon % 12, tm)
  {
    var c := MonthCarry(tm.mon);
    assert c.0 == tm.mon / 12 && c.1 == tm.mon % 12;
  }

  /** geti in seconds, without the microseconds. */
  function GetiSecs(tm: Tm): int
    requires 0 <= tm.mon < 12
  {
    ((GetiDays(Date(tm.year, tm.mon, tm.mday)) * 24 + tm.hour) * 60 + tm.min) * 60 + tm.sec
  }

  /** The two algorithms agree from 1900 on. */
  lemma GetiAgrees(tm: Tm)
    requires 0 <= tm.mon < 12 && tm.year >= 0
    ensures GetiSecs(tm) == TmToSecs(tm)
  {
    TmToSecsIs(tm);
    assert tm.mon / 12 == 0 && tm.mon % 12 == tm.mon;
    GetiIsDayNumber(Date(tm.year, tm.mon, tm.mday));
    InSeconds(DayNumber(Date(tm.year, tm.mon, tm.mday)), tm.hour, tm.min, tm.sec);
  }

  lemma InSeconds(d: int, h: int, m: int, s: int)
    ensures ((d * 24 + h) * 60 + m) * 60 + s == 86400 * d + 3600 * h + 60 * m + s
  {
  }

  // ---- is_leap and week_num ----

  const INT_MAX := 0x7FFF_FFFF

  function IsLeap(y0: int): bool
  {
    var y := (if y0 > INT_MAX - 1900 then y0 - 2000 else y0) + 1900;
    CMod(y, 4) == 0 && (CMod(y, 100) != 0 || CMod(y, 400) == 0)
  }

  lemma CModZero(a: int)
    ensures (CMod(a, 4) == 0 <==> a % 4 == 0) && (CMod(a, 100) == 0 <==> a % 100 == 0) && (CMod(a, 400) == 0 <==> a % 400 == 0)
  {
    CModZero4(a);
    CModZero100(a);
    CModZero400(a);
  }

  lemma CModZero4(a: int)
    ensures CMod(a, 4) == 0 <==> a % 4 == 0
  {
  }

  lemma CModZero100(a: int)
    ensures CMod(a, 100) == 0 <==> a % 100 == 0
  {
  }

  lemma CModZero400(a: int)
    ensures CMod(a, 400) == 0 <==> a % 400 == 0
  {
  }

  lemma Leap2000(y: int)
    ensures Leap(y - 2000) == Leap(y)
  {
    LeapPeriod(y - 2000, 5);
    assert y - 2000 + 400 * 5 == y;
  }

  /** is_leap is right for every year and never overflows. */
  lemma IsLeapIs(y: int)
    requires -INT_MAX - 1 <= y <= INT_MAX
    ensures IsLeap(y) == Leap(y) && (if y > INT_MAX - 1900 then y - 2000 else y) + 1900 <= INT_MAX
  {
    var n := (if y > INT_MAX - 1900 then y - 2000 else y) + 1900;
    CModZero(n);
    Leap2000(y);
  }

  function WeekNum(year: int, yday: int, wday: int): int
  {
    var val0 := (yday + 7 - (wday + 6) % 7) / 7;
    var val := if (wday + 371 - yday - 2) % 7 <= 2 then val0 + 1 else val0;
    if val == 0 then
      var dec31 := (wday + 7 - yday - 1) % 7;
      if dec31 == 4 || (dec31 == 5 && IsLeap(CMod(year, 400) - 1)) then 53 else 52
    else if val == 53 then
      var jan1 := (wday + 371 - yday) % 7;
      if jan1 != 4 && (jan1 != 3 || !IsLeap(year)) then 1 else 53
    else val
  }

  /** ISO 8601: a week belongs to the year of its Thursday, and is numbered by that Thursday's day of the year. */
  function IsoWeek(year: int, yday: int, wday: int): int
  {
    var thursday := yday - (wday + 6) % 7 + 3;
    if thursday < 0 then (thursday + YearLength(year - 1)) / 7 + 1
    else if thursday >= YearLength(year) then (thursday - YearLength(year)) / 7 + 1
    else thursday / 7 + 1
  }

  lemma WeekPlain(yday: int, wday: int)
    requires 0 <= yday < 366 && 0 <= wday < 7
    ensures var m := (wday + 6) % 7; var val := (yday + 7 - m) / 7 + if (wday + 371 - yday - 2) % 7 <= 2 then 1 else 0;
      yday - m + 3 >= 0 ==> val == (yday - m + 3) / 7 + 1
    ensures var m := (wday + 6) % 7; var val := (yday + 7 - m) / 7 + if (wday + 371 - yday - 2) % 7 <= 2 then 1 else 0;
      yday - m + 3 < 0 ==> val == 0
  {
  }

  /** Days of the last year that remain in this week. */
  lemma WeekBefore(yday: int, wday: int, leap: bool)
    requires 0 <= yday && 0 <= wday < 7 && yday - (wday + 6) % 7 + 3 < 0
    ensures var dec31 := (wday + 7 - yday - 1) % 7; var len := if leap then 366 else 365;
      (yday - (wday + 6) % 7 + 3 + len) / 7 + 1 == if dec31 == 4 || (dec31 == 5 && leap) then 53 else 52
  {
  }

  lemma WeekLast(yday: int, wday: int, leap: bool)
    requires var len := if leap then 366 else 365; 0 <= yday < len && 0 <= wday < 7
    requires (yday - (wday + 6) % 7 + 3) / 7 + 1 == 53
    ensures var jan1 := (wday + 371 - yday) % 7; var len := if leap then 366 else 365;
      (jan1 == 4 || (jan1 == 3 && leap)) <==> yday - (wday + 6) % 7 + 3 < len
    ensures yday - (wday + 6) % 7 + 3 < 371
  {
  }

  lemma LeapBefore(year: int)
    requires -INT_MAX - 1 <= year <= INT_MAX
    ensures IsLeap(CMod(year, 400) - 1) == Leap(year - 1)
  {
    var r := CMod(year, 400);
    IsLeapIs(r - 1);
    var c := CDiv(year, 400);
    assert year == 400 * c + r;
    LeapPeriod(r - 1, c);
  }

  lemma LeapPeriod(y: int, c: int)
    ensures Leap(y + 400 * c) == Leap(y)
  {
    Shift4(y + 1900, c);
    Shift100(y + 1900, c);
    Shift400(y + 1900, c);
  }

  lemma Shift4(n: int, c: int)
    ensures (n + 400 * c) % 4 == n % 4
  {
    assert n + 400 * c == 4 * (n / 4 + 100 * c) + n % 4;
  }

  lemma Shift100(n: int, c: int)
    ensures (n + 400 * c) % 100 == n % 100
  {
    assert n + 400 * c == 100 * (n / 100 + 4 * c) + n % 100;
  }

  lemma Shift400(n: int, c: int)
    ensures (n + 400 * c) % 400 == n % 400
  {
    assert n + 400 * c == 400 * (n / 400 + c) + n % 400;
  }

  /** week_num is the ISO 8601 week for every year, day of the year and weekday. */
  lemma WeekNumIsIso(year: int, yday: int, wday: int)
    requires -INT_MAX - 1 <= year <= INT_MAX && 0 <= yday < YearLength(year) && 0 <= wday < 7
    ensures WeekNum(year, yday, wday) == IsoWeek(year, yday, wday)
  {
    IsLeapIs(year);
    LeapBefore(year);
    WeekPlain(yday, wday);
    var thursday := yday - (wday + 6) % 7 + 3;
    if thursday < 0 {
      WeekBefore(yday, wday, Leap(year - 1));
    } else if thursday / 7 + 1 == 53 {
      WeekLast(yday, wday, Leap(year));
    }
  }
}
