/** The printed texts of dates, written out. */
module DateForms {
  import opened Calendar
  import opened DateText
  import opened DateTrips

  const DAYS := ["Sun", "Mon", "Tue", "Wed", "Thu", "Fri", "Sat"]

  const MONTHS := ["Jan", "Feb", "Mar", "Apr", "May", "Jun", "Jul", "Aug", "Sep", "Oct", "Nov", "Dec"]

  /** A decimal digit. */
  function Dec(n: int): char { if 0 <= n <= 9 then "0123456789"[n] else '?' }

  function Two(n: int): (s: string)
    ensures |s| == 2
  {
    [Dec(n / 10), Dec(n % 10)]
  }

  function Four(n: int): (s: string)
    ensures |s| == 4
  {
    Two(n / 100) + Two(n % 100)
  }

  lemma DecIs(n: int)
    requires 0 <= n <= 9
    ensures IsDigit(Dec(n)) && Num(Dec(n)) == n && Digit(n) == Dec(n)
  {
    assert n == 0 || n == 1 || n == 2 || n == 3 || n == 4 || n == 5 || n == 6 || n == 7 || n == 8 || n == 9;
  }

  lemma TwoIs(n: int)
    requires 0 <= n <= 99
    ensures Two(n) == [Tens(n), Ones(n)] && IsDigit(Two(n)[0]) && IsDigit(Two(n)[1]) && Num2(Two(n)[0], Two(n)[1]) == n
  {
    DecIs(n / 10);
    DecIs(n % 10);
  }

  lemma FourIs(n: int)
    requires 0 <= n <= 9999
    ensures forall i :: 0 <= i < 4 ==> IsDigit(Four(n)[i])
    ensures Num2(Four(n)[0], Four(n)[1]) == n / 100 && Num2(Four(n)[2], Four(n)[3]) == n % 100
  {
    TwoIs(n / 100);
    TwoIs(n % 100);
  }

  lemma YearDigitsAre(n: int)
    requires 0 <= n <= 9999
    ensures Four(n) == YearText(n - 1900)
  {
    FourIs(n);
    FourDigits(n - 1900);
    var s, t := Four(n), YearText(n - 1900);
    PairTells(s[0], s[1], t[0], t[1]);
    PairTells(s[2], s[3], t[2], t[3]);
  }

  /** Two digits are told by their number. */
  lemma PairTells(a: char, b: char, c: char, d: char)
    requires IsDigit(a) && IsDigit(b) && IsDigit(c) && IsDigit(d) && Num2(a, b) == Num2(c, d)
    ensures a == c && b == d
  {
  }

  lemma DayNameIs(wday: int)
    requires 0 <= wday < 7
    ensures DayName(wday) == DAYS[wday]
  {
    assert wday == 0 || wday == 1 || wday == 2 || wday == 3 || wday == 4 || wday == 5 || wday == 6;
  }

  lemma MonthNameIs(mon: int)
    requires 0 <= mon < 12
    ensures MonthName(mon) == MONTHS[mon]
  {
    assert mon == 0 || mon == 1 || mon == 2 || mon == 3 || mon == 4 || mon == 5 || mon == 6 || mon == 7 || mon == 8 || mon == 9
        || mon == 10 || mon == 11;
  }

  function TimeText(tm: TimeExp): string { Two(tm.hour) + ":" + Two(tm.min) + ":" + Two(tm.sec) }

  lemma ClockIs(tm: TimeExp)
    requires Printable(tm)
    ensures Clock(tm) == TimeText(tm)
  {
    TwoIs(tm.hour);
    TwoIs(tm.min);
    TwoIs(tm.sec);
  }

  lemma Row822(t: string, m: string, y: string)
    requires |t| == 2 && |m| == 3 && |y| == 4
    ensures t + " " + m + " " + y + " " == [t[0], t[1], ' ', m[0], m[1], m[2], ' ', y[0], y[1], y[2], y[3], ' ']
  {
  }

  lemma RowCTime(d: string, m: string, t: string)
    requires |d| == 3 && |m| == 3 && |t| == 2
    ensures d + " " + m + " " + t + " " == [d[0], d[1], d[2], ' ', m[0], m[1], m[2], ' ', t[0], t[1], ' ']
  {
  }

  /** As in Sun, 06 Nov 1994 08:49:37 GMT. */
  lemma Rfc822TextIs(tm: TimeExp)
    requires Printable(tm) && tm.gmtoff == 0
    ensures Rfc822Text(tm)
         == DAYS[tm.wday] + ", " + (Two(tm.mday) + " " + MONTHS[tm.mon] + " " + Four(tm.year + 1900) + " ") + TimeText(tm) + " " + "GMT"
  {
    DayNameIs(tm.wday);
    MonthNameIs(tm.mon);
    TwoIs(tm.mday);
    YearDigitsAre(tm.year + 1900);
    ClockIs(tm);
    Row822(Two(tm.mday), MONTHS[tm.mon], Four(tm.year + 1900));
  }

  /** As in Sun Nov 06 08:49:37 1994. */
  lemma CTimeTextIs(tm: TimeExp)
    requires Printable(tm)
    ensures CTimeText(tm)
         == (DAYS[tm.wday] + " " + MONTHS[tm.mon] + " " + Two(tm.mday) + " ") + TimeText(tm) + " " + Four(tm.year + 1900)
  {
    DayNameIs(tm.wday);
    MonthNameIs(tm.mon);
    TwoIs(tm.mday);
    YearDigitsAre(tm.year + 1900);
    ClockIs(tm);
    RowCTime(DAYS[tm.wday], MONTHS[tm.mon], Two(tm.mday));
  }

  lemma RowIso(y: string, m: string, t: string)
    requires |y| == 4 && |m| == 2 && |t| == 2
    ensures [y[0], y[1], y[2], y[3], '-', m[0], m[1], '-', t[0], t[1], 'T'] == y + "-" + m + "-" + t + "T"
  {
  }

  lemma IsoPieces(tm: TimeExp, y: string, m: string, t: string)
    requires y == YearText(tm.year) && m == [Tens(tm.mon + 1), Ones(tm.mon + 1)] && t == [Tens(tm.mday), Ones(tm.mday)]
    ensures IsoDate(tm) == y + "-" + m + "-" + t + "T"
  {
    RowIso(y, m, t);
  }

  lemma IsoDateIs(tm: TimeExp)
    requires Printable(tm)
    ensures IsoDate(tm) == Four(tm.year + 1900) + "-" + Two(tm.mon + 1) + "-" + Two(tm.mday) + "T"
  {
    TwoIs(tm.mon + 1);
    TwoIs(tm.mday);
    YearDigitsAre(tm.year + 1900);
    IsoPieces(tm, Four(tm.year + 1900), Two(tm.mon + 1), Two(tm.mday));
  }

  /** As in 1994-11-06T08:49:37Z. */
  lemma IsoTextIs(tm: TimeExp)
    requires Printable(tm) && tm.gmtoff == 0
    ensures IsoText(tm) == (Four(tm.year + 1900) + "-" + Two(tm.mon + 1) + "-" + Two(tm.mday) + "T") + TimeText(tm) + "Z"
  {
    IsoDateIs(tm);
    ClockIs(tm);
  }
}
