/** What the remaining forms of a date read as: the numbers in their places. */
module DateReads {
  import opened Calendar
  import opened DateText
  import opened DateTrips
  import opened DateForms

  lemma YearRead(tm: TimeExp, y: int)
    requires 0 <= y <= 9999
    ensures var o, s := ReadYear(tm, Four(y)[0], Four(y)[1], Four(y)[2], Four(y)[3]), y - 1900;
      (o.ok <==> y >= 1900) && (o.ok ==> o.tm == tm.(year := s))
  {
    FourIs(y);
  }

  /** The dates that the rule for days takes: month 00 passes with any day from 1 to 31. */
  lemma DateTaken(tm: TimeExp)
    requires tm.year >= 0 && tm.mon >= -1
    ensures CheckMon(tm) <==> ValidDate(Date(tm.year, tm.mon, tm.mday)) || (tm.mon == -1 && 1 <= tm.mday <= 31)
  {
    if tm.mon >= 0 {
      CheckMonIsDate(tm);
    }
  }

  predicate NoBlanks(s: string) { forall i :: 0 <= i < |s| ==> !IsBlank(s[i]) }

  lemma NumbersFit(y: int, m: int, d: int)
    requires 0 <= y <= 9999 && 0 <= m <= 99 && 0 <= d <= 99
    ensures forall i :: 0 <= i < 4 ==> IsDigit(Four(y)[i])
    ensures forall i :: 0 <= i < 2 ==> IsDigit(Two(m)[i]) && IsDigit(Two(d)[i])
  {
    FourIs(y);
    TwoIs(m);
    TwoIs(d);
  }

  lemma DotsFit(r: string, y: string, m: string, d: string)
    requires |y| == 4 && |m| == 2 && |d| == 2 && r == d + "." + m + "." + y
    requires (forall i :: 0 <= i < 4 ==> IsDigit(y[i])) && (forall i :: 0 <= i < 2 ==> IsDigit(m[i]) && IsDigit(d[i]))
    ensures r == [d[0], d[1], '.', m[0], m[1], '.', y[0], y[1], y[2], y[3]]
    ensures NoBlanks(r) && Trimmed(r) == r && FitsByPosition(r, MASK_DOTS) && !FitsByPosition(r, MASK_ISO) && !FitsByPosition(r, MASK_DAY)
  {
    assert r[2] == '.' && !CharFits(r[2], MASK_DAY[2]) && !CharFits(r[2], MASK_ISO[2]);
    PlainIso();
    PlainDay();
  }

  lemma DotsForm(r: string)
    requires r != [] && NoBlanks(r)
    requires FitsByPosition(r, MASK_DOTS) && !FitsByPosition(r, MASK_ISO) && !FitsByPosition(r, MASK_DAY)
    ensures FormOf(r) == Dots
  {
    SkipUntilAt(IsBlank, r, |r|);
    PlainIso();
    PlainDay();
    PlainDots();
    MatchesPlain(r, MASK_ISO);
    MatchesPlain(r, MASK_DAY);
    MatchesPlain(r, MASK_DOTS);
  }

  /** A date read by its numbers, with what its zone says. */
  function DateFor(t: TimeExp, y: string, m: int, d: int, zone: string): Outcome
    requires |y| == 4
  {
    var o := ReadYear(t, y[0], y[1], y[2], y[3]);
    var e := o.tm.(mday := d, mon := m - 1);
    if !o.ok then o else if !CheckMon(e) then Outcome(false, e) else Outcome(true, ReadGmt(e, zone))
  }

  lemma DateForIs(t: TimeExp, y: int, m: int, d: int, zone: string)
    requires 0 <= y <= 9999 && 0 <= m <= 99
    ensures var o := DateFor(t, Four(y), m, d, zone);
      && (o.ok <==> y >= 1900 && (ValidDate(Date(y - 1900, m - 1, d)) || (m == 0 && 1 <= d <= 31)))
      && (o.ok ==> o.tm == ReadGmt(t.(year := y - 1900, mon := m - 1, mday := d), zone))
  {
    YearRead(t, y);
    if y >= 1900 {
      DateTaken(t.(year := y - 1900, mday := d, mon := m - 1));
    }
  }

  lemma ZuluIs(t: TimeExp)
    ensures ReadGmt(t, "Z") == t.(gmtoff := 0, gmt := GmtSet)
  {
    assert Leading(IsDigit, "Z"[1..]) == 0;
  }

  lemma DotsText(rd: Numbers, into: TimeExp, r: string, y: string, m: string, d: string)
    requires |y| == 4 && |m| == 2 && |d| == 2 && r == d + "." + m + "." + y
    requires (forall i :: 0 <= i < 4 ==> IsDigit(y[i])) && (forall i :: 0 <= i < 2 ==> IsDigit(m[i]) && IsDigit(d[i]))
    ensures ReadText(rd, into, r) == DateFor(into.(gmt := GmtUnset), y, Num2(m[0], m[1]), Num2(d[0], d[1]), "Z")
  {
    DotsFit(r, y, m, d);
    DotsForm(r);
  }

  /** A text dd.mm.yyyy. */
  lemma DotsRead(rd: Numbers, into: TimeExp, y: int, m: int, d: int)
    requires 0 <= y <= 9999 && 0 <= m <= 99 && 0 <= d <= 99
    ensures var o := ReadText(rd, into, Two(d) + "." + Two(m) + "." + Four(y));
      && (o.ok <==> y >= 1900 && (ValidDate(Date(y - 1900, m - 1, d)) || (m == 0 && 1 <= d <= 31)))
      && (o.ok ==> o.tm == into.(year := y - 1900, mon := m - 1, mday := d, gmtoff := 0, gmt := GmtSet))
  {
    NumbersFit(y, m, d);
    DotsText(rd, into, Two(d) + "." + Two(m) + "." + Four(y), Four(y), Two(m), Two(d));
    TwoIs(m);
    TwoIs(d);
    DateForIs(into.(gmt := GmtUnset), y, m, d, "Z");
    ZuluIs(into.(year := y - 1900, mon := m - 1, mday := d, gmt := GmtUnset));
  }

  // ---- yyyy-mm-dd ----

  lemma DayFit(r: string, y: string, m: string, d: string, zone: string)
    requires |y| == 4 && |m| == 2 && |d| == 2 && r == [y[0], y[1], y[2], y[3], '-', m[0], m[1], '-', d[0], d[1]] + zone
    requires (forall i :: 0 <= i < 4 ==> IsDigit(y[i])) && (forall i :: 0 <= i < 2 ==> IsDigit(m[i]) && IsDigit(d[i]))
    requires NoBlanks(zone) && (zone != [] ==> zone[0] != 'T')
    ensures NoBlanks(r) && Trimmed(r) == r && FitsByPosition(r, MASK_DAY) && !FitsByPosition(r, MASK_ISO)
  {
    PlainIso();
    PlainDay();
    if zone != [] {
      assert r[10] == zone[0] && !CharFits(r[10], MASK_ISO[10]);
    }
  }

  lemma DayForm(r: string)
    requires r != [] && NoBlanks(r) && FitsByPosition(r, MASK_DAY) && !FitsByPosition(r, MASK_ISO)
    ensures FormOf(r) == Day
  {
    SkipUntilAt(IsBlank, r, |r|);
    PlainIso();
    PlainDay();
    MatchesPlain(r, MASK_ISO);
    MatchesPlain(r, MASK_DAY);
  }

  function OrZulu(zone: string): string { if zone == [] then "Z" else zone }

  lemma DayParts(t: TimeExp, r: string, y: string, m: string, d: string, zone: string)
    requires |y| == 4 && |m| == 2 && |d| == 2 && |r| == 10 + |zone|
    requires r == [y[0], y[1], y[2], y[3], '-', m[0], m[1], '-', d[0], d[1]] + zone
    ensures ReadDay(t, r) == DateFor(t, y, Num2(m[0], m[1]), Num2(d[0], d[1]), OrZulu(zone))
  {
    assert r[10..] == zone;
    assert r[0] == y[0] && r[1] == y[1] && r[2] == y[2] && r[3] == y[3] && r[5] == m[0] && r[6] == m[1] && r[8] == d[0] && r[9] == d[1];
  }

  lemma DayText(rd: Numbers, into: TimeExp, r: string, y: string, m: string, d: string, zone: string)
    requires |y| == 4 && |m| == 2 && |d| == 2 && r == [y[0], y[1], y[2], y[3], '-', m[0], m[1], '-', d[0], d[1]] + zone
    requires (forall i :: 0 <= i < 4 ==> IsDigit(y[i])) && (forall i :: 0 <= i < 2 ==> IsDigit(m[i]) && IsDigit(d[i]))
    requires NoBlanks(zone) && (zone != [] ==> zone[0] != 'T')
    ensures ReadText(rd, into, r) == DateFor(into.(gmt := GmtUnset), y, Num2(m[0], m[1]), Num2(d[0], d[1]), OrZulu(zone))
  {
    DayFit(r, y, m, d, zone);
    DayForm(r);
    DayParts(into.(gmt := GmtUnset), r, y, m, d, zone);
  }

  lemma DayRow(y: string, m: string, d: string, zone: string)
    requires |y| == 4 && |m| == 2 && |d| == 2
    ensures y + "-" + m + "-" + d + zone == [y[0], y[1], y[2], y[3], '-', m[0], m[1], '-', d[0], d[1]] + zone
  {
  }

  /** A text yyyy-mm-dd, alone or with a zone behind it. */
  lemma DayRead(rd: Numbers, into: TimeExp, y: int, m: int, d: int, zone: string)
    requires 0 <= y <= 9999 && 0 <= m <= 99 && 0 <= d <= 99
    requires NoBlanks(zone) && (zone != [] ==> zone[0] != 'T')
    ensures var o := ReadText(rd, into, Four(y) + "-" + Two(m) + "-" + Two(d) + zone);
      && (o.ok <==> y >= 1900 && (ValidDate(Date(y - 1900, m - 1, d)) || (m == 0 && 1 <= d <= 31)))
      && (o.ok ==> o.tm == ReadGmt(into.(year := y - 1900, mon := m - 1, mday := d, gmt := GmtUnset), OrZulu(zone)))
  {
    NumbersFit(y, m, d);
    DayRow(Four(y), Two(m), Two(d), zone);
    DayText(rd, into, Four(y) + "-" + Two(m) + "-" + Two(d) + zone, Four(y), Two(m), Two(d), zone);
    TwoIs(m);
    TwoIs(d);
    DateForIs(into.(gmt := GmtUnset), y, m, d, OrZulu(zone));
  }

  // ---- forms with the name of a month ----

  /** What may stand before the day: a name of a day and a comma, of any length but three letters and a blank, and no digit. */
  predicate Heading(h: string)
  {
    && (forall i :: 0 <= i < |h| ==> !IsDigit(h[i]))
    && (h != [] ==> |h| > 3 && h[3] != ' ' && !IsSpace(h[0]))
  }

  lemma HeadGone(h: string, r: string, at: nat)
    requires Heading(h) && |r| > 3 && IsDigit(r[0]) && at < |r| && r[at] == ' '
    ensures Trimmed(h + r) == h + r && FromDigit(h + r) == r && HasBlank(h + r) && !Matches(h + r, MASK_CTIME)
  {
    var s := h + r;
    assert s[0] == if h == [] then r[0] else h[0];
    SkipUntilAt(IsDigit, s, |h|);
    assert s[|h|..] == r;
    BlankFound(s, |h| + at);
    PlainCTime();
    MatchesPlain(s, MASK_CTIME);
    if h == [] {
      assert s == r && !CharFits(s[0], MASK_CTIME[0]);
    } else {
      assert s[3] == h[3] && !CharFits(s[3], MASK_CTIME[3]);
    }
  }

  lemma {:induction false} BlankFound(s: string, at: nat)
    requires at < |s| && s[at] == ' '
    ensures HasBlank(s)
  {
    if at > 0 {
      BlankFound(s[1..], at - 1);
    }
  }

  lemma HeadForm(h: string, r: string, at: nat)
    requires Heading(h) && |r| > 3 && IsDigit(r[0]) && at < |r| && r[at] == ' '
    ensures FormOf(h + r) == if Matches(r, MASK_822) then Rfc822 else if Matches(r, MASK_822_SHORT) then Rfc822Short
                             else if Matches(r, MASK_850) then Rfc850 else NoForm
    ensures Trimmed(h + r) == h + r && FromDigit(h + r) == r
  {
    HeadGone(h, r, at);
  }

  /** The day in one digit, as in 6 Nov 1994. */
  function ShortRow(d: char, m: string, y: string): (s: string)
    requires |m| == 3 && |y| == 4
    ensures |s| == 11
  {
    [d, ' ', m[0], m[1], m[2], ' ', y[0], y[1], y[2], y[3], ' ']
  }

  predicate Named(m: string) { |m| == 3 && IsUpper(m[0]) && IsLower(m[1]) && IsLower(m[2]) }

  predicate AllDigits(s: string) { forall i :: 0 <= i < |s| ==> IsDigit(s[i]) }

  lemma ShortFits(d: char, m: string, y: string, mask: string)
    requires IsDigit(d) && Named(m) && |y| == 4 && AllDigits(y) && |mask| >= 11 && mask[..11] == "# @$$ #### "
    ensures PieceFits(ShortRow(d, m, y), mask, 0)
  {
    assert forall i :: 0 <= i < 11 ==> mask[i] == mask[..11][i];
  }

  lemma SplitShort(mask: string)
    requires mask == MASK_822_SHORT
    ensures |mask| == 21 && mask[..11] == "# @$$ #### " && mask[11..19] == "##:##:##" && mask[19] == ' ' && mask[20] == '*'
  {
  }

  /** The clock stands for itself in what follows. */
  predicate IsClock(c: string, tm: TimeExp)
  {
    Printable(tm) && c == Clock(tm) && |c| == 8
  }

  lemma FitsShort(r: string, d: char, m: string, y: string, c: string, zone: string, tm: TimeExp)
    requires IsDigit(d) && Named(m) && |y| == 4 && AllDigits(y) && IsClock(c, tm) && r == ShortRow(d, m, y) + c + " " + zone
    ensures Matches(r, MASK_822_SHORT)
  {
    var mask := MASK_822_SHORT;
    Plain822Short();
    SplitShort(mask);
    ShortFits(d, m, y, mask);
    ClockFits(tm, mask, 11);
    JoinFits(ShortRow(d, m, y), c, " ", zone, mask);
    MatchesPlain(r, mask);
  }

  lemma NotLong(r: string)
    requires |r| > 3 && r[1] == ' '
    ensures !Matches(r, MASK_822)
  {
    Plain822();
    MatchesPlain(r, MASK_822);
    assert !CharFits(r[1], MASK_822[1]);
  }

  lemma ShortParts(r: string, d: char, m: string, y: string, c: string, zone: string)
    requires |m| == 3 && |y| == 4 && |c| == 8 && r == ShortRow(d, m, y) + c + " " + zone
    ensures |r| == 20 + |zone| && r[0] == d && r[1] == ' ' && r[6] == y[0] && r[7] == y[1] && r[8] == y[2] && r[9] == y[3]
    ensures Sub(r, 2, 3) == m && Sub(r, 11, 8) == c && r[20..] == zone
  {
    var s := ShortRow(d, m, y);
    assert r[..11] == s && r[11..19] == c;
    assert forall k :: 0 <= k < 11 ==> r[k] == s[k];
  }

  lemma ShortBack(into: TimeExp, tm: TimeExp, r: string, zone: string)
    requires Printable(tm) && tm.mday <= 9 && zone != []
    requires r == ShortRow(Dec(tm.mday), MonthName(tm.mon), Four(tm.year + 1900)) + Clock(tm) + " " + zone && |r| == 20 + |zone|
    ensures var o := Read822Short(into, r);
            (o.ok <==> tm.year >= 0 && ValidTm(tm)) && (o.ok ==> o.tm == ReadGmt(Taken(into, tm).(usec := 0), zone))
  {
    ShortParts(r, Dec(tm.mday), MonthName(tm.mon), Four(tm.year + 1900), Clock(tm), zone);
    DecIs(tm.mday);
    YearRead(into, tm.year + 1900);
    if tm.year >= 0 {
      RestBack(into.(year := tm.year, mday := tm.mday), tm, zone);
    }
  }

  lemma ShortForm(h: string, r: string, d: char, m: string, y: string, c: string, zone: string, tm: TimeExp)
    requires Heading(h) && IsDigit(d) && Named(m) && |y| == 4 && AllDigits(y) && IsClock(c, tm) && r == ShortRow(d, m, y) + c + " " + zone
    ensures h + r != [] && Trimmed(h + r) == h + r && FromDigit(h + r) == r && FormOf(h + r) == Rfc822Short
  {
    ShortParts(r, d, m, y, c, zone);
    FitsShort(r, d, m, y, c, zone, tm);
    NotLong(r);
    HeadForm(h, r, 1);
  }

  lemma Chosen(rd: Numbers, into: TimeExp, s: string, r: string)
    requires s != [] && Trimmed(s) == s && FromDigit(s) == r
    ensures FormOf(s) == Rfc822Short ==> |r| >= 20 && ReadText(rd, into, s) == Read822Short(into.(gmt := GmtUnset), r)
    ensures FormOf(s) == Rfc850 ==> |r| >= 19 && ReadText(rd, into, s) == Read850(into.(gmt := GmtUnset), r)
  {
  }

  lemma ShortText(rd: Numbers, into: TimeExp, tm: TimeExp, h: string, r: string, zone: string)
    requires Printable(tm) && tm.mday <= 9 && Heading(h) && zone != []
    requires r == ShortRow(Dec(tm.mday), MonthName(tm.mon), Four(tm.year + 1900)) + Clock(tm) + " " + zone
    ensures var o := ReadText(rd, into, h + r);
      && (o.ok <==> tm.year >= 0 && ValidTm(tm))
      && (o.ok ==> o.tm == ReadGmt(Taken(into, tm).(usec := 0, gmt := GmtUnset), zone))
  {
    DecIs(tm.mday);
    FourIs(tm.year + 1900);
    var d, m, y := Dec(tm.mday), MonthName(tm.mon), Four(tm.year + 1900);
    ShortForm(h, r, d, m, y, Clock(tm), zone, tm);
    ShortParts(r, d, m, y, Clock(tm), zone);
    Chosen(rd, into, h + r, r);
    ShortBack(into.(gmt := GmtUnset), tm, r, zone);
  }

  /** A day of the month in one digit, as in Sunday, 6 Nov 1994 08:49:37 GMT. */
  lemma ShortRead(rd: Numbers, into: TimeExp, tm: TimeExp, h: string, zone: string)
    requires Printable(tm) && tm.mday <= 9 && Heading(h) && zone != []
    ensures var text := h + (ShortRow(Dec(tm.mday), MONTHS[tm.mon], Four(tm.year + 1900)) + TimeText(tm) + " " + zone);
      var o := ReadText(rd, into, text);
      && (o.ok <==> tm.year >= 0 && ValidTm(tm))
      && (o.ok ==> o.tm == ReadGmt(Taken(into, tm).(usec := 0, gmt := GmtUnset), zone))
  {
    ClockIs(tm);
    MonthNameIs(tm.mon);
    var r := ShortRow(Dec(tm.mday), MONTHS[tm.mon], Four(tm.year + 1900)) + TimeText(tm) + " " + zone;
    ShortText(rd, into, tm, h, r, zone);
  }

  // ---- RFC 850 ----

  /** As in 06-Nov-94. */
  function Row850(d: string, m: string, y: string): (s: string)
    requires |d| == 2 && |m| == 3 && |y| == 2
    ensures |s| == 10
  {
    [d[0], d[1], '-', m[0], m[1], m[2], '-', y[0], y[1], ' ']
  }

  lemma Fits850At(d: string, m: string, y: string, mask: string)
    requires |d| == 2 && AllDigits(d) && Named(m) && |y| == 2 && AllDigits(y) && |mask| >= 10 && mask[..10] == "##-@$$-## "
    ensures PieceFits(Row850(d, m, y), mask, 0)
  {
    assert forall i :: 0 <= i < 10 ==> mask[i] == mask[..10][i];
  }

  lemma Split850(mask: string)
    requires mask == MASK_850
    ensures |mask| == 20 && mask[..10] == "##-@$$-## " && mask[10..18] == "##:##:##" && mask[18] == ' ' && mask[19] == '*'
  {
  }

  lemma Fits850(r: string, d: string, m: string, y: string, c: string, zone: string, tm: TimeExp)
    requires |d| == 2 && AllDigits(d) && Named(m) && |y| == 2 && AllDigits(y) && IsClock(c, tm) && r == Row850(d, m, y) + c + " " + zone
    ensures Matches(r, MASK_850)
  {
    var mask := MASK_850;
    Plain850();
    Split850(mask);
    Fits850At(d, m, y, mask);
    ClockFits(tm, mask, 10);
    JoinFits(Row850(d, m, y), c, " ", zone, mask);
    MatchesPlain(r, mask);
  }

  lemma Not822(r: string)
    requires |r| > 3 && r[2] == '-' && IsDigit(r[1])
    ensures !Matches(r, MASK_822) && !Matches(r, MASK_822_SHORT)
  {
    Plain822();
    Plain822Short();
    MatchesPlain(r, MASK_822);
    MatchesPlain(r, MASK_822_SHORT);
    assert !CharFits(r[2], MASK_822[2]) && !CharFits(r[1], MASK_822_SHORT[1]);
  }

  lemma Parts850(r: string, d: string, m: string, y: string, c: string, zone: string)
    requires |d| == 2 && |m| == 3 && |y| == 2 && |c| == 8 && r == Row850(d, m, y) + c + " " + zone
    ensures |r| == 19 + |zone| && r[0] == d[0] && r[1] == d[1] && r[2] == '-' && r[7] == y[0] && r[8] == y[1] && r[9] == ' '
    ensures Sub(r, 3, 3) == m && Sub(r, 10, 8) == c && r[19..] == zone
  {
    var s := Row850(d, m, y);
    assert r[..10] == s && r[10..18] == c;
    assert forall k :: 0 <= k < 10 ==> r[k] == s[k];
  }

  lemma Century(year: int)
    requires 70 <= year < 170
    ensures year == if year % 100 < 70 then year % 100 + 100 else year % 100
  {
  }

  lemma Taken850(into: TimeExp, r: string, d: string, m: string, y: string, c: string, zone: string)
    requires |d| == 2 && |m| == 3 && |y| == 2 && |c| == 8 && r == Row850(d, m, y) + c + " " + zone && |r| == 19 + |zone|
    ensures var n := Num2(y[0], y[1]);
      Read850(into, r) == ReadRest(into.(year := if n < 70 then n + 100 else n, mday := Num2(d[0], d[1])), m, c, zone)
  {
    Parts850(r, d, m, y, c, zone);
  }

  lemma Back850(into: TimeExp, tm: TimeExp, r: string, d: string, y: string, zone: string)
    requires Printable(tm) && 70 <= tm.year < 170 && zone != [] && |d| == 2 && |y| == 2
    requires Num2(d[0], d[1]) == tm.mday && Num2(y[0], y[1]) == tm.year % 100
    requires r == Row850(d, MonthName(tm.mon), y) + Clock(tm) + " " + zone && |r| == 19 + |zone|
    ensures var o := Read850(into, r); (o.ok <==> ValidTm(tm)) && (o.ok ==> o.tm == ReadGmt(Taken(into, tm).(usec := 0), zone))
  {
    Taken850(into, r, d, MonthName(tm.mon), y, Clock(tm), zone);
    Century(tm.year);
    RestBack(into.(year := tm.year, mday := tm.mday), tm, zone);
  }

  lemma Form850(h: string, r: string, d: string, m: string, y: string, c: string, zone: string, tm: TimeExp)
    requires Heading(h) && |d| == 2 && AllDigits(d) && Named(m) && |y| == 2 && AllDigits(y) && IsClock(c, tm)
    requires r == Row850(d, m, y) + c + " " + zone
    ensures h + r != [] && Trimmed(h + r) == h + r && FromDigit(h + r) == r && FormOf(h + r) == Rfc850
  {
    Parts850(r, d, m, y, c, zone);
    Fits850(r, d, m, y, c, zone, tm);
    Not822(r);
    HeadForm(h, r, 9);
  }

  lemma Text850(rd: Numbers, into: TimeExp, tm: TimeExp, h: string, r: string, d: string, y: string, zone: string)
    requires Printable(tm) && 70 <= tm.year < 170 && Heading(h) && zone != [] && |d| == 2 && AllDigits(d) && |y| == 2 && AllDigits(y)
    requires Num2(d[0], d[1]) == tm.mday && Num2(y[0], y[1]) == tm.year % 100
    requires r == Row850(d, MonthName(tm.mon), y) + Clock(tm) + " " + zone
    ensures var o := ReadText(rd, into, h + r);
      (o.ok <==> ValidTm(tm)) && (o.ok ==> o.tm == ReadGmt(Taken(into, tm).(usec := 0, gmt := GmtUnset), zone))
  {
    Form850(h, r, d, MonthName(tm.mon), y, Clock(tm), zone, tm);
    Parts850(r, d, MonthName(tm.mon), y, Clock(tm), zone);
    Chosen(rd, into, h + r, r);
    Back850(into.(gmt := GmtUnset), tm, r, d, y, zone);
  }

  /** A year in two digits, as in Sunday, 06-Nov-94 08:49:37 GMT: it is one of the years from 1970 to 2069. */
  lemma Rfc850Read(rd: Numbers, into: TimeExp, tm: TimeExp, h: string, zone: string)
    requires Printable(tm) && 70 <= tm.year < 170 && Heading(h) && zone != []
    ensures var text := h + (Row850(Two(tm.mday), MONTHS[tm.mon], Two(tm.year % 100)) + TimeText(tm) + " " + zone);
      var o := ReadText(rd, into, text);
      (o.ok <==> ValidTm(tm)) && (o.ok ==> o.tm == ReadGmt(Taken(into, tm).(usec := 0, gmt := GmtUnset), zone))
  {
    ClockIs(tm);
    MonthNameIs(tm.mon);
    TwoIs(tm.mday);
    TwoIs(tm.year % 100);
    var r := Row850(Two(tm.mday), MONTHS[tm.mon], Two(tm.year % 100)) + TimeText(tm) + " " + zone;
    Text850(rd, into, tm, h, r, Two(tm.mday), Two(tm.year % 100), zone);
  }

  // ---- ctime with a day in one digit ----

  function PaddedRow(w: string, m: string, d: char): (s: string)
    requires |w| == 3 && |m| == 3
    ensures |s| == 11
  {
    [w[0], w[1], w[2], ' ', m[0], m[1], m[2], ' ', ' ', d, ' ']
  }

  lemma PaddedFits(w: string, m: string, d: char, mask: string)
    requires Named(w) && Named(m) && IsDigit(d) && |mask| >= 11 && mask[..11] == "@$$ @$$ ~# "
    ensures PieceFits(PaddedRow(w, m, d), mask, 0)
  {
    assert forall i :: 0 <= i < 11 ==> mask[i] == mask[..11][i];
  }

  lemma PaddedForm(r: string, w: string, m: string, d: char, c: string, y: string, tm: TimeExp)
    requires Named(w) && Named(m) && IsDigit(d) && IsClock(c, tm) && r == PaddedRow(w, m, d) + c + " " + y
    ensures r != [] && Trimmed(r) == r && FormOf(r) == CTime
  {
    var mask := MASK_CTIME;
    PlainCTime();
    SplitCTime(mask);
    PaddedFits(w, m, d, mask);
    ClockFits(tm, mask, 11);
    JoinFits(PaddedRow(w, m, d), c, " ", y, mask);
    MatchesPlain(r, mask);
    assert r[0] == w[0] && r[3] == ' ';
    BlankFound(r, 3);
  }

  lemma PaddedParts(r: string, w: string, m: string, d: char, c: string, y: string)
    requires |w| == 3 && |m| == 3 && |c| == 8 && r == PaddedRow(w, m, d) + c + " " + y && |y| == 4 && IsDigit(y[0])
    ensures |r| == 24 && r[8] == ' ' && r[9] == d && Sub(r, 4, 3) == m && Sub(r, 11, 8) == c
    ensures SkipUntil(IsDigit, r[20..]) == y
  {
    var s := PaddedRow(w, m, d);
    assert r[..11] == s && r[11..19] == c && r[20..] == y;
    assert forall k :: 0 <= k < 11 ==> r[k] == s[k];
    SkipUntilAt(IsDigit, r[20..], 0);
  }

  lemma PaddedBack(into: TimeExp, tm: TimeExp, r: string, w: string)
    requires Printable(tm) && tm.mday <= 9 && |w| == 3
    requires r == PaddedRow(w, MonthName(tm.mon), Dec(tm.mday)) + Clock(tm) + " " + Four(tm.year + 1900) && |r| == 24
    ensures var o := ReadCTime(into, r);
            (o.ok <==> tm.year >= 0 && ValidTm(tm)) && (o.ok ==> o.tm == Taken(into, tm).(usec := 0, gmtoff := 0))
  {
    FourIs(tm.year + 1900);
    PaddedParts(r, w, MonthName(tm.mon), Dec(tm.mday), Clock(tm), Four(tm.year + 1900));
    YearRead(into, tm.year + 1900);
    DecIs(tm.mday);
    if tm.year >= 0 {
      var d := into.(year := tm.year, mday := tm.mday);
      ClockBack(d, tm);
      MonthBack(ReadTime(d, Clock(tm)).tm, tm.mon);
    }
  }

  lemma ChosenCTime(rd: Numbers, into: TimeExp, s: string)
    requires s != [] && Trimmed(s) == s && FormOf(s) == CTime
    ensures |s| >= 20 && ReadText(rd, into, s) == ReadCTime(into.(gmt := GmtUnset), s)
  {
  }

  lemma PaddedText(rd: Numbers, into: TimeExp, tm: TimeExp, w: string, r: string)
    requires Printable(tm) && tm.mday <= 9 && Named(w)
    requires r == PaddedRow(w, MonthName(tm.mon), Dec(tm.mday)) + Clock(tm) + " " + Four(tm.year + 1900) && |r| == 24
    ensures var o := ReadText(rd, into, r);
      && (o.ok <==> tm.year >= 0 && ValidTm(tm))
      && (o.ok ==> o.tm == Taken(into, tm).(usec := 0, gmtoff := 0, gmt := GmtUnset))
  {
    DecIs(tm.mday);
    PaddedForm(r, w, MonthName(tm.mon), Dec(tm.mday), Clock(tm), Four(tm.year + 1900), tm);
    ChosenCTime(rd, into, r);
    PaddedBack(into.(gmt := GmtUnset), tm, r, w);
  }

  /** A blank before the day, as in Sun Nov  6 08:49:37 1994. */
  lemma PaddedRead(rd: Numbers, into: TimeExp, tm: TimeExp, w: string)
    requires Printable(tm) && tm.mday <= 9 && Named(w)
    ensures var o := ReadText(rd, into, PaddedRow(w, MONTHS[tm.mon], Dec(tm.mday)) + TimeText(tm) + " " + Four(tm.year + 1900));
      && (o.ok <==> tm.year >= 0 && ValidTm(tm))
      && (o.ok ==> o.tm == Taken(into, tm).(usec := 0, gmtoff := 0, gmt := GmtUnset))
  {
    ClockIs(tm);
    MonthNameIs(tm.mon);
    PaddedText(rd, into, tm, w, PaddedRow(w, MONTHS[tm.mon], Dec(tm.mday)) + TimeText(tm) + " " + Four(tm.year + 1900));
  }

  // ---- before the text, and the letters of a mask ----

  /** White space in front of a text is passed over. */
  lemma SpaceBefore(rd: Numbers, into: TimeExp, w: string, s: string)
    requires forall i :: 0 <= i < |w| ==> w[i] in {' ', '\t', '\n', 11 as char, 12 as char, '\r'}
    ensures ReadText(rd, into, w + s) == ReadText(rd, into, s)
  {
    SpaceGone(w, s);
  }

  lemma {:induction false} SpaceGone(w: string, s: string)
    requires forall i :: 0 <= i < |w| ==> w[i] in {' ', '\t', '\n', 11 as char, 12 as char, '\r'}
    ensures Trimmed(w + s) == Trimmed(s)
  {
    if w == [] {
      assert w + s == s;
    } else {
      SpaceGone(w[1..], s);
      assert (w + s)[1..] == w[1..] + s;
      var n := Leading(IsSpace, w[1..] + s);
      assert (w + s)[1 + n..] == (w[1..] + s)[n..];
    }
  }

  /** What each letter of a mask stands for. */
  lemma MaskLetters(d: char, m: char)
    ensures CharFits(d, '@') <==> exists i :: 0 <= i < 26 && d == "ABCDEFGHIJKLMNOPQRSTUVWXYZ"[i]
    ensures CharFits(d, '$') <==> exists i :: 0 <= i < 26 && d == "abcdefghijklmnopqrstuvwxyz"[i]
    ensures CharFits(d, '#') <==> exists i :: 0 <= i < 10 && d == Dec(i)
    ensures CharFits(d, '~') <==> d == ' ' || CharFits(d, '#')
    ensures m !in "@$#&~" ==> (CharFits(d, m) <==> d == m)
  {
    UpperIs(d);
    LowerIs(d);
    if IsDigit(d) {
      DecIs(d as int - 48);
      assert d == Dec(d as int - 48);
    } else if exists i :: 0 <= i < 10 && d == Dec(i) {
      var i :| 0 <= i < 10 && d == Dec(i);
      DecIs(i);
      assert false;
    }
  }

  lemma UpperIs(d: char)
    ensures IsUpper(d) <==> exists i :: 0 <= i < 26 && d == "ABCDEFGHIJKLMNOPQRSTUVWXYZ"[i]
  {
    var s := "ABCDEFGHIJKLMNOPQRSTUVWXYZ";
    assert forall i :: 0 <= i < 26 ==> s[i] as int == 65 + i;
    if IsUpper(d) {
      assert d == s[d as int - 65];
    }
  }

  lemma LowerIs(d: char)
    ensures IsLower(d) <==> exists i :: 0 <= i < 26 && d == "abcdefghijklmnopqrstuvwxyz"[i]
  {
    var s := "abcdefghijklmnopqrstuvwxyz";
    assert forall i :: 0 <= i < 26 ==> s[i] as int == 97 + i;
    if IsLower(d) {
      assert d == s[d as int - 97];
    }
  }
}
