/** Offsets from GMT: what is printed, and what is read of it. */
module DateOffsets {
  import opened Calendar
  import opened DateText
  import opened DateTrips

  lemma {:induction false} LeadingAt(p: char -> bool, s: string, k: nat)
    requires k <= |s| && (forall i :: 0 <= i < k ==> p(s[i])) && (k < |s| ==> !p(s[k]))
    ensures Leading(p, s) == k
  {
    if k > 0 {
      LeadingAt(p, s[1..], k - 1);
    }
  }

  /** Of a number below zero at least one of the two characters printed is no digit. */
  lemma BelowZero(n: int)
    requires -99 <= n < 0
    ensures !IsDigit(Tens(n)) || !IsDigit(Ones(n))
    ensures Tens(n) != ':' && Ones(n) != ':'
  {
    var a := -n;
    assert CDiv(n, 10) == -(a / 10) && CMod(n, 10) == -(a % 10);
    if a >= 10 {
      NoDigit(a / 10);
    }
    if a % 10 > 0 {
      NoDigit(a % 10);
    }
  }

  lemma NoDigit(k: int)
    requires 1 <= k <= 9
    ensures !IsDigit(Digit(-k)) && Digit(-k) != ':'
  {
  }

  /** Hours and minutes, with the sign of the offset. */
  function Hours(off: int): int { CDiv(off, 3600) }

  function Minutes(off: int): int { CDiv(CMod(off, 3600), 60) }

  lemma PartsOf(off: int)
    requires SmallOffset(off)
    ensures -99 <= Hours(off) <= 99 && -59 <= Minutes(off) <= 59
    ensures off >= 0 ==> Hours(off) == off / 3600 && Minutes(off) == off % 3600 / 60 && 3600 * Hours(off) + 60 * Minutes(off) == off - off % 60
    ensures off > -60 && off < 0 ==> Hours(off) == 0 && Minutes(off) == 0
    ensures off <= -60 ==> Hours(off) <= 0 && Minutes(off) <= 0 && (Hours(off) < 0 || Minutes(off) < 0)
  {
  }

  // ---- printing ----

  /** The hours and minutes printed are digits, the right ones, if and only if the offset is not a minute or more below zero. */
  lemma DigitsPrinted(off: int, colon: string)
    requires SmallOffset(off) && |colon| <= 1
    ensures var s := GmtText(off, colon);
      && (s[0] == if off > 0 then '+' else '-') && s[3..3 + |colon|] == colon
      && (IsDigit(s[1]) && IsDigit(s[2]) && IsDigit(s[3 + |colon|]) && IsDigit(s[4 + |colon|]) <==> off > -60)
      && (off > -60 ==> Num2(s[1], s[2]) == Hours(off) && Num2(s[3 + |colon|], s[4 + |colon|]) == Minutes(off))
  {
    var h, m := Hours(off), Minutes(off);
    PartsOf(off);
    var s := GmtText(off, colon);
    assert s[1] == Tens(h) && s[2] == Ones(h) && s[3 + |colon|] == Tens(m) && s[4 + |colon|] == Ones(m);
    if h < 0 {
      BelowZero(h);
    } else {
      TwoDigits(h);
    }
    if m < 0 {
      BelowZero(m);
    } else {
      TwoDigits(m);
    }
  }

  /** Five hours west of GMT. */
  lemma FiveHoursWest()
    ensures GmtText(-18000, ":") == "-0+:00"
  {
  }

  // ---- reading ----

  lemma InBaseTwo(s: string, b: nat)
    requires |s| == 2
    ensures InBase(s, b) == b * (s[0] as int - 48) + (s[1] as int - 48)
  {
    assert s[..1][..0] == [] && InBase(s[..1], b) == b * 0 + (s[0] as int - 48);
  }

  lemma InBaseSnoc(s: string, c: char, b: nat)
    ensures InBase(s + [c], b) == b * InBase(s, b) + (c as int - 48)
  {
    assert (s + [c])[..|s|] == s;
  }

  lemma DecimalTwo(s: string)
    requires |s| == 2 && IsDigit(s[0]) && IsDigit(s[1])
    ensures Integer(s, 10) == Num2(s[0], s[1])
  {
    InBaseTwo(s, 10);
  }

  /** What the reader makes of an offset with a colon. */
  lemma ColonRead(t: TimeExp, off: int)
    requires SmallOffset(off) && off != 0
    ensures var r := ReadGmt(t, GmtText(off, ":"));
      if off >= 60 then r == t.(gmtoff := off - off % 60, gmt := GmtLocal)
      else if off > -60 then r == t.(gmtoff := 0, gmt := GmtSet)
      else r == t.(gmtoff := 0, gmt := GmtUnset)
  {
    var s := GmtText(off, ":");
    PartsOf(off);
    DigitsPrinted(off, ":");
    if off > -60 {
      ColonDigits(t, s, off);
    } else {
      ColonNoDigits(t, s);
    }
  }

  lemma ColonDigits(t: TimeExp, s: string, off: int)
    requires |s| == 6 && s[3] == ':' && (s[0] == '+' || s[0] == '-')
    requires IsDigit(s[1]) && IsDigit(s[2]) && IsDigit(s[4]) && IsDigit(s[5])
    ensures var sign, h, m := (if s[0] == '-' then -1 else 1), Num2(s[1], s[2]), Num2(s[4], s[5]);
      ReadGmt(t, s) == WithOffset(t.(gmtoff := 0, gmt := GmtUnset), sign * h * 3600 + sign * m * 60)
  {
    assert s[1..][0] == s[1] && s[1..][1] == s[2] && s[1..][2] == s[3];
    LeadingAt(IsDigit, s[1..], 2);
    var rest := s[1..][2..];
    assert rest == s[3..] && rest[0] == ':' && rest[1..] == s[4..];
    LeadingAt(IsDigit, s[4..], 2);
    DecimalTwo(s[1..][..2]);
    DecimalTwo(rest[1..][..2]);
  }

  lemma ColonNoDigits(t: TimeExp, s: string)
    requires |s| == 6 && s[3] == ':' && s[0] == '-' && !(IsDigit(s[1]) && IsDigit(s[2]) && IsDigit(s[4]) && IsDigit(s[5]))
    requires s[1] != ':' && s[2] != ':'
    ensures ReadGmt(t, s) == t.(gmtoff := 0, gmt := GmtUnset)
  {
    var u := s[1..];
    assert u[0] == s[1] && u[1] == s[2] && u[2] == s[3];
    if !IsDigit(s[1]) {
      LeadingAt(IsDigit, u, 0);
    } else if !IsDigit(s[2]) {
      LeadingAt(IsDigit, u, 1);
    } else {
      LeadingAt(IsDigit, u, 2);
      var rest := u[2..];
      assert rest == s[3..] && rest[1..] == s[4..];
      LeadingAt(IsDigit, s[4..], if IsDigit(s[4]) then 1 else 0);
    }
  }

  // ---- without a colon ----

  lemma InBaseThree(s: string, b: nat)
    requires |s| == 3
    ensures InBase(s, b) == b * (b * (s[0] as int - 48) + (s[1] as int - 48)) + (s[2] as int - 48)
  {
    assert s == s[..2] + [s[2]];
    InBaseTwo(s[..2], b);
    InBaseSnoc(s[..2], s[2], b);
  }

  lemma InBaseFour(s: string, b: nat)
    requires |s| == 4
    ensures InBase(s, b) == b * (b * (b * (s[0] as int - 48) + (s[1] as int - 48)) + (s[2] as int - 48)) + (s[3] as int - 48)
  {
    assert s == s[..3] + [s[3]];
    InBaseThree(s[..3], b);
    InBaseSnoc(s[..3], s[3], b);
  }

  /** The number that the four digits of an offset read as: octal as far as it goes after a leading zero. */
  function FourRead(a: int, b: int, c: int, d: int): int
  {
    if a != 0 then 1000 * a + 100 * b + 10 * c + d
    else if b > 7 then 0
    else if c > 7 then b
    else if d > 7 then 8 * b + c
    else 64 * b + 8 * c + d
  }

  lemma FourIs(s: string)
    requires |s| == 4 && forall i :: 0 <= i < 4 ==> IsDigit(s[i])
    ensures Integer(s, 0) == FourRead(s[0] as int - 48, s[1] as int - 48, s[2] as int - 48, s[3] as int - 48)
  {
    if s[0] != '0' {
      InBaseFour(s, 10);
    } else if !IsOctal(s[1]) {
      LeadingAt(IsOctal, s, 1);
      InBaseSnoc([], s[0], 8);
      assert s[..1] == [] + [s[0]];
    } else if !IsOctal(s[2]) {
      LeadingAt(IsOctal, s, 2);
      InBaseTwo(s[..2], 8);
    } else if !IsOctal(s[3]) {
      LeadingAt(IsOctal, s, 3);
      InBaseThree(s[..3], 8);
    } else {
      LeadingAt(IsOctal, s, 4);
      assert s[..4] == s;
      InBaseFour(s, 8);
    }
  }

  /** The minutes that come of it. */
  function MinutesRead(v: int): int { 60 * CDiv(v, 100) + CMod(v, 100) }

  lemma MinutesAre(v: int)
    requires 0 <= v < 500
    ensures MinutesRead(v) == if v < 100 then v else if v < 200 then v - 40 else if v < 300 then v - 80 else if v < 400 then v - 120 else v - 160
  {
  }

  /** Below ten hours the octal reading is right for two short stretches only. */
  lemma OctalMinutes(h: int, c: int, d: int)
    requires 0 <= h <= 9 && 0 <= c <= 5 && 0 <= d <= 9
    ensures var n := 60 * h + 10 * c + d; MinutesRead(FourRead(0, h, c, d)) == n <==> n <= 7 || 80 <= n <= 87
  {
    var v := FourRead(0, h, c, d);
    MinutesAre(v);
    OctalLinear(h, c, d, v, MinutesRead(v));
  }

  lemma OctalLinear(h: int, c: int, d: int, v: int, r: int)
    requires 0 <= h <= 9 && 0 <= c <= 5 && 0 <= d <= 9
    requires v == if h > 7 then 0 else if d > 7 then 8 * h + c else 64 * h + 8 * c + d
    requires r == if v < 100 then v else if v < 200 then v - 40 else if v < 300 then v - 80 else if v < 400 then v - 120 else v - 160
    ensures var n := 60 * h + 10 * c + d; r == n <==> n <= 7 || 80 <= n <= 87
  {
    assert h == 0 || h == 1 || h == 2 || h == 3 || h == 4 || h == 5 || h == 6 || h == 7 || h == 8 || h == 9;
    assert c == 0 || c == 1 || c == 2 || c == 3 || c == 4 || c == 5;
  }

  lemma DecimalMinutes(a: int, b: int, c: int, d: int)
    requires 1 <= a <= 9 && 0 <= b <= 9 && 0 <= c <= 5 && 0 <= d <= 9
    ensures MinutesRead(FourRead(a, b, c, d)) == 60 * (10 * a + b) + 10 * c + d
  {
    var v := FourRead(a, b, c, d);
    assert v == 100 * (10 * a + b) + (10 * c + d);
    assert v / 100 == 10 * a + b;
  }

  /** What the reader makes of an offset without a colon. */
  lemma PlainEast(t: TimeExp, off: int)
    requires 0 < off && SmallOffset(off)
    ensures var r, n := ReadGmt(t, GmtText(off, "")), off / 60;
      r == t.(gmtoff := r.gmtoff, gmt := r.gmt) && (r.gmtoff == 60 * n <==> n <= 7 || 80 <= n <= 87 || n >= 600)
  {
    var s := GmtText(off, "");
    PartsOf(off);
    DigitsPrinted(off, "");
    PlainDigits(t, s);
    PlainMinutes(t, s, off);
  }

  /** Less than a minute west of GMT. */
  lemma NearWest(t: TimeExp, s: string)
    requires s == "-0000"
    ensures ReadGmt(t, s) == t.(gmtoff := 0, gmt := GmtSet)
  {
    PlainDigits(t, s);
    assert FourRead(0, 0, 0, 0) == 0;
  }

  lemma NearWestText(off: int)
    requires -60 < off < 0
    ensures GmtText(off, "") == "-0000"
  {
    PartsOf(off);
    assert Tens(0) == '0' && Ones(0) == '0';
  }

  lemma FarWest(t: TimeExp, off: int)
    requires off <= -60 && SmallOffset(off)
    ensures ReadGmt(t, GmtText(off, "")) == t.(gmtoff := 0, gmt := GmtUnset)
  {
    DigitsPrinted(off, "");
    NoColon(off);
    PlainNoDigits(t, GmtText(off, ""));
  }

  lemma PlainWest(t: TimeExp, off: int)
    requires off < 0 && SmallOffset(off)
    ensures ReadGmt(t, GmtText(off, "")) == t.(gmtoff := 0, gmt := if off > -60 then GmtSet else GmtUnset)
  {
    if off > -60 {
      NearWestText(off);
      NearWest(t, GmtText(off, ""));
    } else {
      FarWest(t, off);
    }
  }

  lemma NoColon(off: int)
    requires SmallOffset(off)
    ensures GmtText(off, "")[3] != ':'
  {
    var m := Minutes(off);
    PartsOf(off);
    if m < 0 {
      BelowZero(m);
    } else {
      TwoDigits(m);
    }
  }

  lemma PlainDigits(t: TimeExp, s: string)
    requires |s| == 5 && (s[0] == '+' || s[0] == '-') && forall i :: 1 <= i < 5 ==> IsDigit(s[i])
    ensures var sign, v := (if s[0] == '-' then -1 else 1), FourRead(Num(s[1]), Num(s[2]), Num(s[3]), Num(s[4]));
      ReadGmt(t, s) == WithOffset(t.(gmtoff := 0, gmt := GmtUnset), sign * CDiv(v, 100) * 3600 + sign * CMod(v, 100) * 60)
  {
    LeadingAt(IsDigit, s[1..], 4);
    assert s[1..][..4] == s[1..];
    FourIs(s[1..]);
  }

  lemma PlainNoDigits(t: TimeExp, s: string)
    requires |s| == 5 && s[0] == '-' && !(IsDigit(s[1]) && IsDigit(s[2]) && IsDigit(s[3]) && IsDigit(s[4])) && s[3] != ':'
    ensures ReadGmt(t, s) == t.(gmtoff := 0, gmt := GmtUnset)
  {
    var u := s[1..];
    assert u[0] == s[1] && u[1] == s[2] && u[2] == s[3] && u[3] == s[4];
    LeadingAt(IsDigit, u, if !IsDigit(s[1]) then 0 else if !IsDigit(s[2]) then 1 else if !IsDigit(s[3]) then 2 else 3);
  }

  lemma PlainMinutes(t: TimeExp, s: string, off: int)
    requires 0 < off && SmallOffset(off) && |s| == 5 && s[0] == '+' && (forall i :: 1 <= i < 5 ==> IsDigit(s[i]))
    requires Num2(s[1], s[2]) == off / 3600 && Num2(s[3], s[4]) == off % 3600 / 60
    requires var v := FourRead(Num(s[1]), Num(s[2]), Num(s[3]), Num(s[4]));
      ReadGmt(t, s) == WithOffset(t.(gmtoff := 0, gmt := GmtUnset), CDiv(v, 100) * 3600 + CMod(v, 100) * 60)
    ensures var r, n := ReadGmt(t, s), off / 60;
      r == t.(gmtoff := r.gmtoff, gmt := r.gmt) && (r.gmtoff == 60 * n <==> n <= 7 || 80 <= n <= 87 || n >= 600)
  {
    var a, b, c, d := Num(s[1]), Num(s[2]), Num(s[3]), Num(s[4]);
    assert off / 60 == 60 * (10 * a + b) + 10 * c + d && c <= 5;
    if a == 0 {
      OctalMinutes(b, c, d);
    } else {
      DecimalMinutes(a, b, c, d);
    }
  }

  lemma HalfPastFive(off: int)
    requires off == 19800
    ensures Hours(off) == 5 && Minutes(off) == 30 && GmtText(off, "") == "+0530"
  {
    assert Tens(5) == '0' && Ones(5) == '5' && Tens(30) == '3' && Ones(30) == '0';
  }

  /** Half past five hours east comes back as three hours and forty-four minutes. */
  lemma HalfPastFiveEast(t: TimeExp, s: string)
    requires s == GmtText(19800, "")
    ensures s == "+0530" && ReadGmt(t, s).gmtoff == 13440
  {
    HalfPastFive(19800);
    PlainDigits(t, s);
    assert FourRead(0, 5, 3, 0) == 344;
  }

  // ---- round trips ----

  lemma WholeMinutes(off: int)
    ensures off >= 0 ==> CDiv(off, 60) == off / 60 && 60 * CDiv(off, 60) == off - off % 60
    ensures off < 0 ==> (CDiv(off, 60) == 0 <==> off > -60) && CDiv(off, 60) <= 0
  {
  }

  lemma ZoneIsoBack(t: TimeExp, tm: TimeExp)
    requires SmallOffset(tm.gmtoff)
    ensures var r, off := ReadGmt(t, ZoneIso(tm)), tm.gmtoff;
      && r == t.(gmtoff := r.gmtoff, gmt := r.gmt) && (r.gmtoff == 60 * CDiv(off, 60) <==> off > -60)
      && (off <= -60 ==> r.gmtoff == 0 && r.gmt == GmtUnset)
  {
    WholeMinutes(tm.gmtoff);
    if tm.gmtoff != 0 {
      ColonRead(t, tm.gmtoff);
    }
  }

  lemma Zone822Back(t: TimeExp, tm: TimeExp)
    requires SmallOffset(tm.gmtoff)
    ensures var r, n := ReadGmt(t, Zone822(tm)), CDiv(tm.gmtoff, 60);
      && r == t.(gmtoff := r.gmtoff, gmt := r.gmt) && (r.gmtoff == 60 * n <==> 0 <= n <= 7 || 80 <= n <= 87 || n >= 600)
  {
    WholeMinutes(tm.gmtoff);
    if tm.gmtoff > 0 {
      PlainEast(t, tm.gmtoff);
    } else if tm.gmtoff < 0 {
      PlainWest(t, tm.gmtoff);
    }
  }

  /** In ISO 8601 an offset comes back, in whole minutes, if and only if it is not a minute or more below zero; from there on
      the text is still accepted, and the offset is lost. */
  lemma IsoOffset(rd: Numbers, into: TimeExp, tm: TimeExp)
    requires Printable(tm) && SmallOffset(tm.gmtoff) && tm.year >= 0 && ValidTm(tm)
    ensures var o, off := ReadText(rd, into, IsoText(tm)), tm.gmtoff;
      && o.ok && o.tm == Taken(into, tm).(gmtoff := o.tm.gmtoff, gmt := o.tm.gmt)
      && (o.tm.gmtoff == 60 * CDiv(off, 60) <==> off > -60) && (off <= -60 ==> o.tm.gmtoff == 0 && o.tm.gmt == GmtUnset)
  {
    IsoBackAll(rd, into, tm);
    ZoneIsoBack(Taken(into, tm).(gmt := GmtUnset), tm);
  }

  /** In RFC 822 form an offset comes back, in whole minutes n, if and only if n is at least 600, or up to 7, or from 80 to 87:
      with a leading zero the digits are read as octal, and below zero they are no digits. */
  lemma Rfc822Offset(rd: Numbers, into: TimeExp, tm: TimeExp)
    requires Printable(tm) && SmallOffset(tm.gmtoff) && tm.year >= 0 && ValidTm(tm)
    ensures var o, n := ReadText(rd, into, Rfc822Text(tm)), CDiv(tm.gmtoff, 60);
      && o.ok && o.tm == Taken(into, tm).(usec := 0, gmtoff := o.tm.gmtoff, gmt := o.tm.gmt)
      && (o.tm.gmtoff == 60 * n <==> 0 <= n <= 7 || 80 <= n <= 87 || n >= 600)
  {
    Rfc822Back(rd, into, tm);
    Zone822Back(Taken(into, tm).(usec := 0, gmt := GmtUnset), tm);
  }
}
