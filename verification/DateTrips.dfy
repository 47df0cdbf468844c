/** Printed dates are read back, field by field. */
module DateTrips {
  import opened Calendar
  import opened DateText

  // ---- what is printed is read back ----

  /** The fields fit the places they are printed in. */
  predicate Printable(tm: TimeExp)
  {
    && -1900 <= tm.year <= 8099 && 0 <= tm.mon < 12 && 0 <= tm.wday < 7
    && 0 <= tm.mday <= 99 && 0 <= tm.hour <= 99 && 0 <= tm.min <= 99 && 0 <= tm.sec <= 99
  }

  lemma TwoDigits(n: int)
    requires 0 <= n <= 99
    ensures IsDigit(Tens(n)) && IsDigit(Ones(n)) && Num2(Tens(n), Ones(n)) == n
  {
  }

  lemma Digits(y: int)
    requires 0 <= y <= 9999
    ensures 0 <= y / 1000 <= 9 && 0 <= y % 1000 / 100 <= 9 && 0 <= y % 100 / 10 <= 9 && 0 <= y % 10 <= 9
    ensures (y / 1000) * 10 + y % 1000 / 100 == y / 100
    ensures (y % 100 / 10) * 10 + y % 10 == y % 100
  {
  }

  lemma HighDigits(year: int)
    requires -1900 <= year <= 8099
    ensures IsDigit(YearDigit(year, 0)) && Num(YearDigit(year, 0)) == (year + 1900) / 1000
    ensures IsDigit(YearDigit(year, 1)) && Num(YearDigit(year, 1)) == (year + 1900) % 1000 / 100
  {
    Digits(year + 1900);
  }

  lemma DigitBack(n: int)
    requires 0 <= n <= 9
    ensures IsDigit(Digit(n)) && Num(Digit(n)) == n
  {
  }

  lemma PlainDiv(y: int, d: int)
    requires y >= 0 && d > 0
    ensures CDiv(y, d) == y / d && CMod(y, d) == y % d
  {
  }

  lemma ThirdDigit(year: int)
    requires -1900 <= year <= 8099
    ensures IsDigit(YearDigit(year, 2)) && Num(YearDigit(year, 2)) == (year + 1900) % 100 / 10
  {
    Digits(year + 1900);
    PlainDiv(year + 1900, 100);
    PlainDiv((year + 1900) % 100, 10);
    DigitBack((year + 1900) % 100 / 10);
  }

  lemma LowDigits(year: int)
    requires -1900 <= year <= 8099
    ensures IsDigit(YearDigit(year, 2)) && Num(YearDigit(year, 2)) == (year + 1900) % 100 / 10
    ensures IsDigit(YearDigit(year, 3)) && Num(YearDigit(year, 3)) == (year + 1900) % 10
  {
    ThirdDigit(year);
    PlainDiv(year + 1900, 10);
    DigitBack((year + 1900) % 10);
  }

  lemma FourDigits(year: int)
    requires -1900 <= year <= 8099
    ensures IsDigit(YearDigit(year, 0)) && IsDigit(YearDigit(year, 1))
    ensures IsDigit(YearDigit(year, 2)) && IsDigit(YearDigit(year, 3))
    ensures Num2(YearDigit(year, 0), YearDigit(year, 1)) == (year + 1900) / 100
    ensures Num2(YearDigit(year, 2), YearDigit(year, 3)) == (year + 1900) % 100
  {
    HighDigits(year);
    LowDigits(year);
    Digits(year + 1900);
  }

  lemma YearBack(tm: TimeExp, year: int)
    requires -1900 <= year <= 8099
    ensures ReadYear(tm, YearDigit(year, 0), YearDigit(year, 1), YearDigit(year, 2), YearDigit(year, 3)).ok <==> year >= 0
    ensures year >= 0 ==> ReadYear(tm, YearDigit(year, 0), YearDigit(year, 1), YearDigit(year, 2), YearDigit(year, 3)).tm == tm.(year := year)
  {
    FourDigits(year);
  }

  lemma ClockBack(into: TimeExp, tm: TimeExp)
    requires Printable(tm)
    ensures ReadTime(into, Clock(tm)).ok <==> tm.hour <= 23 && tm.min <= 59 && tm.sec <= 61
    ensures ReadTime(into, Clock(tm)).tm == into.(hour := tm.hour, min := tm.min, sec := tm.sec)
  {
    TwoDigits(tm.hour);
    TwoDigits(tm.min);
    TwoDigits(tm.sec);
  }

  lemma MonthBack(into: TimeExp, mon: int)
    requires 0 <= mon < 12 && into.year >= 0
    ensures ReadMon(into, MonthName(mon)).ok <==> ValidDate(Date(into.year, mon, into.mday))
    ensures ReadMon(into, MonthName(mon)).ok ==> ReadMon(into, MonthName(mon)).tm == into.(mon := mon)
  {
    MonthFound(mon);
    CheckMonIsDate(into.(mon := mon));
  }

  /** The fields a reader takes from a text. */
  function Taken(into: TimeExp, tm: TimeExp): TimeExp
  {
    into.(year := tm.year, mon := tm.mon, mday := tm.mday, hour := tm.hour, min := tm.min, sec := tm.sec)
  }

  /** The piece of text that starts at `at` fits the mask there. */
  predicate PieceFits(piece: string, mask: string, at: nat)
  {
    at + |piece| <= |mask| && forall i :: 0 <= i < |piece| ==> CharFits(piece[i], mask[at + i])
  }

  /** A date piece, the clock and one blank fit, and so does the text that they start. */
  lemma JoinFits(date: string, clock: string, blank: string, rest: string, mask: string)
    requires PieceFits(date, mask, 0) && PieceFits(clock, mask, |date|) && PieceFits(blank, mask, |date| + |clock|)
    requires Fixed(mask) == |date| + |clock| + |blank| < |mask|
    ensures FitsByPosition(date + clock + blank + rest, mask)
  {
    var r := date + clock + blank + rest;
    forall i | 0 <= i < Fixed(mask)
      ensures CharFits(r[i], mask[i])
    {
      if i < |date| {
        assert r[i] == date[i] && CharFits(date[i], mask[0 + i]);
      } else if i < |date| + |clock| {
        var k := i - |date|;
        assert r[i] == clock[k] && CharFits(clock[k], mask[|date| + k]);
      } else {
        var k := i - |date| - |clock|;
        assert r[i] == blank[k] && CharFits(blank[k], mask[|date| + |clock| + k]);
      }
    }
  }

  lemma ClockFits(tm: TimeExp, mask: string, at: nat)
    requires Printable(tm) && at + 8 <= |mask| && mask[at..at + 8] == "##:##:##"
    ensures PieceFits(Clock(tm), mask, at)
  {
    TwoDigits(tm.hour);
    TwoDigits(tm.min);
    TwoDigits(tm.sec);
    var piece := mask[at..at + 8];
    assert forall i :: 0 <= i < 8 ==> piece[i] == mask[at + i];
  }

  lemma Date822Fits(tm: TimeExp, mask: string)
    requires Printable(tm) && |mask| >= 12 && mask[..12] == "## @$$ #### "
    ensures PieceFits(Rfc822Date(tm), mask, 0)
  {
    TwoDigits(tm.mday);
    FourDigits(tm.year);
    assert forall i :: 0 <= i < 12 ==> mask[i] == mask[..12][i];
  }

  lemma Split822(mask: string)
    requires mask == MASK_822
    ensures |mask| == 22 && mask[..12] == "## @$$ #### " && mask[12..20] == "##:##:##" && mask[20] == ' ' && mask[21] == '*'
  {
  }

  lemma Fits822(tm: TimeExp, rest: string)
    requires Printable(tm)
    ensures Matches(Rfc822Date(tm) + Clock(tm) + " " + rest, MASK_822)
  {
    var mask := MASK_822;
    Plain822();
    Split822(mask);
    Date822Fits(tm, mask);
    ClockFits(tm, mask, 12);
    JoinFits(Rfc822Date(tm), Clock(tm), " ", rest, mask);
    MatchesPlain(Rfc822Date(tm) + Clock(tm) + " " + rest, mask);
  }

  lemma CTimeDateFits(tm: TimeExp, mask: string)
    requires Printable(tm) && |mask| >= 11 && mask[..11] == "@$$ @$$ ~# "
    ensures PieceFits(CTimeDate(tm), mask, 0)
  {
    TwoDigits(tm.mday);
    assert forall i :: 0 <= i < 11 ==> mask[i] == mask[..11][i];
  }

  lemma SplitCTime(mask: string)
    requires mask == MASK_CTIME
    ensures |mask| == 21 && mask[..11] == "@$$ @$$ ~# " && mask[11..19] == "##:##:##" && mask[19] == ' ' && mask[20] == '*'
  {
  }

  lemma FitsCTime(tm: TimeExp, rest: string)
    requires Printable(tm)
    ensures Matches(CTimeDate(tm) + Clock(tm) + " " + rest, MASK_CTIME)
  {
    var mask := MASK_CTIME;
    PlainCTime();
    SplitCTime(mask);
    CTimeDateFits(tm, mask);
    ClockFits(tm, mask, 11);
    JoinFits(CTimeDate(tm), Clock(tm), " ", rest, mask);
    MatchesPlain(CTimeDate(tm) + Clock(tm) + " " + rest, mask);
  }

  lemma IsoDateFits(tm: TimeExp, mask: string)
    requires Printable(tm) && |mask| >= 11 && mask[..11] == "####-##-##T"
    ensures PieceFits(IsoDate(tm), mask, 0)
  {
    FourDigits(tm.year);
    TwoDigits(tm.mon + 1);
    TwoDigits(tm.mday);
    assert forall i :: 0 <= i < 11 ==> mask[i] == mask[..11][i];
  }

  lemma SplitIso(mask: string)
    requires mask == MASK_ISO
    ensures |mask| == 20 && mask[..11] == "####-##-##T" && mask[11..19] == "##:##:##" && mask[19] == '*'
  {
  }

  lemma FitsIso(tm: TimeExp, rest: string)
    requires Printable(tm)
    ensures Matches(IsoDate(tm) + Clock(tm) + rest, MASK_ISO)
  {
    var mask := MASK_ISO;
    PlainIso();
    SplitIso(mask);
    IsoDateFits(tm, mask);
    ClockFits(tm, mask, 11);
    JoinFits(IsoDate(tm), Clock(tm), "", rest, mask);
    assert IsoDate(tm) + Clock(tm) + "" + rest == IsoDate(tm) + Clock(tm) + rest;
    MatchesPlain(IsoDate(tm) + Clock(tm) + rest, mask);
  }

  // ---- RFC 822 ----

  lemma CommaIsNot(r: string, mask: string)
    requires Plain(mask) && |mask| > 4 && mask[3] == ' ' && |r| > 3 && r[3] == ','
    ensures !Matches(r, mask)
  {
    MatchesPlain(r, mask);
    assert !CharFits(r[3], mask[3]);
  }

  /** What is printed behind the clock. */
  function Zone822(tm: TimeExp): string { if tm.gmtoff == 0 then "GMT" else GmtText(tm.gmtoff, "") }

  lemma Named822(name: string, tail: string, text: string)
    requires |name| == 3 && IsUpper(name[0]) && IsLower(name[1]) && IsLower(name[2])
    requires tail != [] && IsDigit(tail[0]) && Matches(tail, MASK_822) && text == name + ", " + tail
    ensures Trimmed(text) == text && FromDigit(text) == tail && FormOf(text) == Rfc822
  {
    assert text[0] == name[0] && text[1] == name[1] && text[2] == name[2] && text[3] == ',' && text[4] == ' ' && text[5] == tail[0];
    SkipUntilAt(IsBlank, text, 4);
    SkipUntilAt(IsDigit, text, 5);
    assert text[5..] == tail;
    PlainCTime();
    CommaIsNot(text, MASK_CTIME);
  }

  lemma Form822(tm: TimeExp)
    requires Printable(tm)
    ensures Trimmed(Rfc822Text(tm)) == Rfc822Text(tm)
    ensures FromDigit(Rfc822Text(tm)) == Rfc822Date(tm) + Clock(tm) + " " + Zone822(tm)
    ensures FormOf(Rfc822Text(tm)) == Rfc822
  {
    var text := Rfc822Text(tm);
    var tail := Rfc822Date(tm) + Clock(tm) + " " + Zone822(tm);
    assert text == DayName(tm.wday) + ", " + tail;
    TwoDigits(tm.mday);
    Fits822(tm, Zone822(tm));
    Named822(DayName(tm.wday), tail, text);
  }

  lemma Parts822(tm: TimeExp, r: string, zone: string)
    requires 0 <= tm.mon < 12 && r == Rfc822Date(tm) + Clock(tm) + " " + zone
    ensures |r| == 21 + |zone| && r[0] == Tens(tm.mday) && r[1] == Ones(tm.mday)
    ensures Sub(r, 3, 3) == MonthName(tm.mon) && Sub(r, 12, 8) == Clock(tm) && r[21..] == zone
    ensures r[7] == YearDigit(tm.year, 0) && r[8] == YearDigit(tm.year, 1)
    ensures r[9] == YearDigit(tm.year, 2) && r[10] == YearDigit(tm.year, 3)
  {
  }

  /** What the reader of the rest makes of printed pieces. */
  lemma RestBack(into: TimeExp, tm: TimeExp, zone: string)
    requires Printable(tm) && tm.year >= 0 && into.year == tm.year && into.mday == tm.mday && zone != []
    ensures var o := ReadRest(into, MonthName(tm.mon), Clock(tm), zone);
            (o.ok <==> ValidTm(tm)) && (o.ok ==> o.tm == ReadGmt(Taken(into, tm).(usec := 0), zone))
  {
    ClockBack(into, tm);
    MonthBack(ReadTime(into, Clock(tm)).tm, tm.mon);
  }

  lemma Back822(into: TimeExp, tm: TimeExp, r: string, zone: string)
    requires Printable(tm) && r == Rfc822Date(tm) + Clock(tm) + " " + zone && |r| == 21 + |zone| && zone != []
    ensures var o := Read822(into, r);
            (o.ok <==> tm.year >= 0 && ValidTm(tm)) && (o.ok ==> o.tm == ReadGmt(Taken(into, tm).(usec := 0), zone))
  {
    Parts822(tm, r, zone);
    YearBack(into, tm.year);
    TwoDigits(tm.mday);
    if tm.year >= 0 {
      RestBack(into.(year := tm.year, mday := tm.mday), tm, zone);
    }
  }

  /** The text in RFC 822 form, with any offset, is taken by that mask and no earlier one, it is refused exactly when the
      date or the time is not valid or lies before 1900, and otherwise every field comes back but the offset, which is what
      the zone reads as. */
  lemma Rfc822Back(rd: Numbers, into: TimeExp, tm: TimeExp)
    requires Printable(tm)
    ensures FormOf(Trimmed(Rfc822Text(tm))) == Rfc822
    ensures ReadText(rd, into, Rfc822Text(tm)).ok <==> tm.year >= 0 && ValidTm(tm)
    ensures tm.year >= 0 && ValidTm(tm) ==>
              ReadText(rd, into, Rfc822Text(tm)).tm == ReadGmt(Taken(into, tm).(usec := 0, gmt := GmtUnset), Zone822(tm))
  {
    Form822(tm);
    Back822(into.(gmt := GmtUnset), tm, FromDigit(Rfc822Text(tm)), Zone822(tm));
  }

  /** Without an offset every field comes back. */
  lemma Rfc822RoundTrip(rd: Numbers, into: TimeExp, tm: TimeExp)
    requires Printable(tm) && tm.gmtoff == 0
    ensures FormOf(Trimmed(Rfc822Text(tm))) == Rfc822
    ensures ReadText(rd, into, Rfc822Text(tm)).ok <==> tm.year >= 0 && ValidTm(tm)
    ensures tm.year >= 0 && ValidTm(tm) ==>
              ReadText(rd, into, Rfc822Text(tm)).tm == Taken(into, tm).(usec := 0, gmtoff := 0, gmt := GmtSet)
  {
    Rfc822Back(rd, into, tm);
  }

  // ---- ctime ----

  lemma FormCTime(tm: TimeExp)
    requires Printable(tm)
    ensures Trimmed(CTimeText(tm)) == CTimeText(tm)
    ensures FormOf(CTimeText(tm)) == CTime
  {
    var text := CTimeText(tm);
    SkipUntilAt(IsBlank, text, 3);
    FitsCTime(tm, YearText(tm.year));
  }

  lemma PartsCTime(tm: TimeExp)
    requires Printable(tm)
    ensures var r := CTimeText(tm);
            r[8] == Tens(tm.mday) && r[9] == Ones(tm.mday) && Sub(r, 4, 3) == MonthName(tm.mon)
            && Sub(r, 11, 8) == Clock(tm) && SkipUntil(IsDigit, r[20..]) == YearText(tm.year)
  {
    var r := CTimeText(tm);
    assert r[20..] == YearText(tm.year);
    FourDigits(tm.year);
    SkipUntilAt(IsDigit, r[20..], 0);
  }

  lemma CTimeBack(into: TimeExp, tm: TimeExp, r: string)
    requires Printable(tm) && r == CTimeText(tm) && |r| == 24
    ensures var o := ReadCTime(into, r);
            (o.ok <==> tm.year >= 0 && ValidTm(tm)) && (o.ok ==> o.tm == Taken(into, tm).(usec := 0, gmtoff := 0))
  {
    PartsCTime(tm);
    YearBack(into, tm.year);
    TwoDigits(tm.mday);
    if tm.year >= 0 {
      var d := into.(year := tm.year, mday := tm.mday);
      ClockBack(d, tm);
      MonthBack(ReadTime(d, Clock(tm)).tm, tm.mon);
    }
  }

  /** The same for the form of ctime, with or without an offset: it prints none and reads none. */
  lemma CTimeRoundTrip(rd: Numbers, into: TimeExp, tm: TimeExp)
    requires Printable(tm)
    ensures FormOf(Trimmed(CTimeText(tm))) == CTime
    ensures ReadText(rd, into, CTimeText(tm)).ok <==> tm.year >= 0 && ValidTm(tm)
    ensures tm.year >= 0 && ValidTm(tm) ==>
              ReadText(rd, into, CTimeText(tm)).tm == Taken(into, tm).(usec := 0, gmtoff := 0, gmt := GmtUnset)
  {
    FormCTime(tm);
    CTimeBack(into.(gmt := GmtUnset), tm, CTimeText(tm));
  }

  // ---- ISO 8601 ----

  function ZoneIso(tm: TimeExp): (z: string)
    ensures z != []
  {
    if tm.gmtoff != 0 then GmtText(tm.gmtoff, ":") else "Z"
  }

  /** Less than a hundred hours. */
  predicate SmallOffset(off: int) { -360000 < off < 360000 }

  lemma SignedDigit(n: int)
    requires -9 <= n <= 9
    ensures Digit(n) != ' '
  {
  }

  lemma ZoneNoBlank(tm: TimeExp)
    requires Printable(tm) && SmallOffset(tm.gmtoff)
    ensures forall i :: 0 <= i < |ZoneIso(tm)| ==> ZoneIso(tm)[i] != ' '
  {
    var off := tm.gmtoff;
    var h, m := CDiv(off, 3600), CDiv(CMod(off, 3600), 60);
    assert -99 <= h <= 99 && -59 <= m <= 59;
    assert -9 <= CDiv(h, 10) <= 9 && -9 <= CMod(h, 10) <= 9 && -9 <= CDiv(m, 10) <= 9 && -9 <= CMod(m, 10) <= 9;
    SignedDigit(CDiv(h, 10));
    SignedDigit(CMod(h, 10));
    SignedDigit(CDiv(m, 10));
    SignedDigit(CMod(m, 10));
  }

  lemma DateNoBlank(tm: TimeExp)
    requires Printable(tm)
    ensures forall i :: 0 <= i < 11 ==> IsoDate(tm)[i] != ' '
  {
    FourDigits(tm.year);
    TwoDigits(tm.mon + 1);
    TwoDigits(tm.mday);
  }

  lemma ClockNoBlank(tm: TimeExp)
    requires Printable(tm)
    ensures forall i :: 0 <= i < 8 ==> Clock(tm)[i] != ' '
  {
    TwoDigits(tm.hour);
    TwoDigits(tm.min);
    TwoDigits(tm.sec);
  }

  lemma IsoNoBlank(tm: TimeExp)
    requires Printable(tm) && SmallOffset(tm.gmtoff)
    ensures forall i :: 0 <= i < |IsoText(tm)| ==> !IsBlank(IsoText(tm)[i])
  {
    DateNoBlank(tm);
    ClockNoBlank(tm);
    ZoneNoBlank(tm);
    assert IsoText(tm) == IsoDate(tm) + Clock(tm) + ZoneIso(tm);
  }

  lemma FormIso(tm: TimeExp)
    requires Printable(tm) && SmallOffset(tm.gmtoff)
    ensures Trimmed(IsoText(tm)) == IsoText(tm)
    ensures FormOf(IsoText(tm)) == Iso
  {
    var text := IsoText(tm);
    FourDigits(tm.year);
    IsoNoBlank(tm);
    SkipUntilAt(IsBlank, text, |text|);
    FitsIso(tm, ZoneIso(tm));
    assert text == IsoDate(tm) + Clock(tm) + ZoneIso(tm);
  }

  lemma PartsIso(tm: TimeExp)
    ensures var r := IsoText(tm);
            |r| == 19 + |ZoneIso(tm)| && r[5] == Tens(tm.mon + 1) && r[6] == Ones(tm.mon + 1)
            && r[8] == Tens(tm.mday) && r[9] == Ones(tm.mday) && Sub(r, 11, 8) == Clock(tm) && r[19..] == ZoneIso(tm)
    ensures var r := IsoText(tm);
            r[0] == YearDigit(tm.year, 0) && r[1] == YearDigit(tm.year, 1) && r[2] == YearDigit(tm.year, 2) && r[3] == YearDigit(tm.year, 3)
  {
  }

  lemma IsoBack(rd: Numbers, into: TimeExp, tm: TimeExp, r: string)
    requires Printable(tm) && r == IsoText(tm) && |r| == 19 + |ZoneIso(tm)|
    ensures var o := ReadIso(rd, into, r);
            (o.ok <==> tm.year >= 0 && ValidTm(tm)) && (o.ok ==> o.tm == ReadGmt(Taken(into, tm), ZoneIso(tm)))
  {
    PartsIso(tm);
    YearBack(into, tm.year);
    TwoDigits(tm.mon + 1);
    TwoDigits(tm.mday);
    if tm.year >= 0 {
      var d := into.(year := tm.year, mon := tm.mon, mday := tm.mday);
      ClockBack(d, tm);
      CheckMonIsDate(Taken(into, tm));
    }
  }

  /** The same for ISO 8601 without a fraction; the microseconds keep what they held. */
  lemma IsoBackAll(rd: Numbers, into: TimeExp, tm: TimeExp)
    requires Printable(tm) && SmallOffset(tm.gmtoff)
    ensures FormOf(Trimmed(IsoText(tm))) == Iso
    ensures ReadText(rd, into, IsoText(tm)).ok <==> tm.year >= 0 && ValidTm(tm)
    ensures tm.year >= 0 && ValidTm(tm) ==>
              ReadText(rd, into, IsoText(tm)).tm == ReadGmt(Taken(into, tm).(gmt := GmtUnset), ZoneIso(tm))
  {
    FormIso(tm);
    IsoBack(rd, into.(gmt := GmtUnset), tm, IsoText(tm));
  }

  lemma IsoRoundTrip(rd: Numbers, into: TimeExp, tm: TimeExp)
    requires Printable(tm) && tm.gmtoff == 0
    ensures FormOf(Trimmed(IsoText(tm))) == Iso
    ensures ReadText(rd, into, IsoText(tm)).ok <==> tm.year >= 0 && ValidTm(tm)
    ensures tm.year >= 0 && ValidTm(tm) ==>
              ReadText(rd, into, IsoText(tm)).tm == Taken(into, tm).(gmtoff := 0, gmt := GmtSet)
  {
    IsoBackAll(rd, into, tm);
  }

  // ---- printing into a buffer ----

  const RFC822_BUFFER := 32
  const CTIME_BUFFER := 25
  const ISO8601_BUFFER := 33

  /** A buffer after printing: the text and a closing NUL as far as there is room, the rest as before. The result
      counts all but the last character written, and wraps around when there is no room at all. */
  predicate Printed(buf: string, was: string, text: string, n: int)
  {
    var k := if |text| + 1 <= |buf| then |text| + 1 else |buf|;
    && |was| == |buf|
    && buf[..k] == (text + "\0")[..k]
    && buf[k..] == was[k..]
    && n == (k - 1) % 0x1_0000_0000_0000_0000
  }

  method Print(text: string, buf: array<char>) returns (n: int)
    modifies buf
    ensures Printed(buf[..], old(buf[..]), text, n)
  {
    ghost var was := buf[..];
    var all := text + "\0";
    var k := 0;
    while k < |all| && k < buf.Length
      invariant k <= |all| && k <= buf.Length
      invariant buf[..k] == all[..k] && buf[k..] == was[k..]
    {
      buf[k] := all[k];
      k := k + 1;
    }
    n := (k - 1) % 0x1_0000_0000_0000_0000;
    assert buf[..][..k] == buf[..k] && buf[..][k..] == buf[k..];
  }

  method EncodeRfc822(tm: TimeExp, buf: array<char>) returns (n: int)
    requires 0 <= tm.wday < 7 && 0 <= tm.mon < 12
    modifies buf
    ensures Printed(buf[..], old(buf[..]), Rfc822Text(tm), n)
  {
    n := Print(Rfc822Text(tm), buf);
  }

  method EncodeCTime(tm: TimeExp, buf: array<char>) returns (n: int)
    requires 0 <= tm.wday < 7 && 0 <= tm.mon < 12
    modifies buf
    ensures Printed(buf[..], old(buf[..]), CTimeText(tm), n)
  {
    n := Print(CTimeText(tm), buf);
  }

  method EncodeIso8601(tm: TimeExp, buf: array<char>) returns (n: int)
    modifies buf
    ensures Printed(buf[..], old(buf[..]), IsoText(tm), n)
  {
    n := Print(IsoText(tm), buf);
  }

  /** A buffer of the declared size holds the whole text and its NUL, and the result is its length. */
  lemma PrintedWhole(buf: string, was: string, text: string, n: int)
    requires Printed(buf, was, text, n) && |text| < |buf| && |text| < 100
    ensures n == |text| && buf[..n] == text && buf[n] == '\0'
  {
    assert buf[..|text|] == buf[..|text| + 1][..|text|];
    assert buf[|text|] == buf[..|text| + 1][|text|];
  }

  lemma SizesSuffice(tm: TimeExp)
    requires 0 <= tm.wday < 7 && 0 <= tm.mon < 12
    ensures |Rfc822Text(tm)| < RFC822_BUFFER && |CTimeText(tm)| < CTIME_BUFFER && |IsoText(tm)| < ISO8601_BUFFER
  {
  }
}
