/** Dates as text: the masks, the reader and the three printers. */
module DateText {
  import opened Calendar

  // ---- characters ----

  predicate IsDigit(c: char) { '0' <= c <= '9' }

  predicate IsUpper(c: char) { 'A' <= c <= 'Z' }

  predicate IsLower(c: char) { 'a' <= c <= 'z' }

  predicate IsHex(c: char) { IsDigit(c) || 'A' <= c <= 'F' || 'a' <= c <= 'f' }

  predicate IsSpace(c: char) { '\t' <= c <= '\r' || c == ' ' }

  predicate IsBlank(c: char) { c == ' ' }

  /** The text from the first character in the class on. */
  function SkipUntil(p: char -> bool, s: string): string
  {
    if s == [] || p(s[0]) then s else SkipUntil(p, s[1..])
  }

  /** How many characters in the class the text starts with. */
  function Leading(p: char -> bool, s: string): (n: nat)
    ensures n <= |s|
  {
    if s == [] || !p(s[0]) then 0 else 1 + Leading(p, s[1..])
  }

  lemma {:induction false} SkipUntilAt(p: char -> bool, s: string, k: nat)
    requires k <= |s|
    requires forall i :: 0 <= i < k ==> !p(s[i])
    requires k < |s| ==> p(s[k])
    ensures SkipUntil(p, s) == s[k..]
  {
    if k > 0 {
      SkipUntilAt(p, s[1..], k - 1);
      assert s[1..][k - 1..] == s[k..];
    }
  }

  /** A character as a number, offset from '0'; char is a signed byte. */
  function Num(c: char): int
  {
    (if c as int < 128 then c as int else c as int - 256) - 48
  }

  function Num2(a: char, b: char): int { Num(a) * 10 + Num(b) }

  // ---- masks ----

  predicate CharFits(d: char, m: char)
  {
    match m
    case '@' => IsUpper(d)
    case '$' => IsLower(d)
    case '#' => IsDigit(d)
    case '&' => IsHex(d)
    case '~' => d == ' ' || IsDigit(d)
    case _ => d == m
  }

  predicate AllStars(mask: string)
  {
    forall i :: 0 <= i < |mask| ==> mask[i] == '*'
  }

  /** What the mask says of the text, one character at a time. */
  predicate Matches(data: string, mask: string)
    decreases |data|
  {
    if mask == [] then data == []
    else if data == [] then AllStars(mask)
    else if mask[0] == '\0' then data[0] == '\0'
    else if mask[0] == '*' then true
    else CharFits(data[0], mask[0]) && Matches(data[1..], mask[1..])
  }

  /** The comparison loop decides it. */
  method CheckMask(data: string, mask: string) returns (r: bool)
    ensures r == Matches(data, mask)
  {
    var i := 0;
    while i < |mask| && i < |data|
      invariant 0 <= i <= |mask| && i <= |data|
      invariant Matches(data, mask) == Matches(data[i..], mask[i..])
    {
      if mask[i] == '\0' {
        return data[i] == '\0';
      }
      if mask[i] == '*' {
        return true;
      }
      if !CharFits(data[i], mask[i]) {
        return false;
      }
      assert data[i..][1..] == data[i + 1..] && mask[i..][1..] == mask[i + 1..];
      i := i + 1;
    }
    var j := i;
    while i == |data| && j < |mask| && mask[j] == '*'
      invariant i <= j <= |mask|
      invariant forall k :: i <= k < j ==> mask[k] == '*'
      invariant i < |data| ==> j == i
    {
      j := j + 1;
    }
    return j == |mask| && i == |data|;
  }

  /** A mask with no NUL and no star except, maybe, as its last character. */
  predicate Plain(mask: string)
  {
    forall i :: 0 <= i < |mask| ==> mask[i] != '\0' && (mask[i] == '*' ==> i == |mask| - 1)
  }

  /** The characters that the mask speaks of one by one. */
  function Fixed(mask: string): (n: nat)
    ensures n <= |mask|
  {
    if |mask| > 0 && mask[|mask| - 1] == '*' then |mask| - 1 else |mask|
  }

  /** What a plain mask means, by position. */
  predicate FitsByPosition(data: string, mask: string)
  {
    && (if Fixed(mask) < |mask| then |data| >= Fixed(mask) else |data| == |mask|)
    && forall i :: 0 <= i < Fixed(mask) ==> CharFits(data[i], mask[i])
  }

  lemma {:induction false} MatchesPlain(data: string, mask: string)
    requires Plain(mask)
    ensures Matches(data, mask) <==> FitsByPosition(data, mask)
  {
    if data == [] || mask == [] || mask[0] == '*' {
      if mask != [] && Fixed(mask) > 0 {
        assert mask[0] != '*';
      }
    } else {
      MatchesPlain(data[1..], mask[1..]);
      PositionStep(data, mask);
    }
  }

  lemma PositionStep(data: string, mask: string)
    requires data != [] && mask != [] && mask[0] != '*'
    ensures FitsByPosition(data, mask) <==> CharFits(data[0], mask[0]) && FitsByPosition(data[1..], mask[1..])
  {
    if FitsByPosition(data, mask) {
      assert forall i :: 0 <= i < Fixed(mask) - 1 ==> data[1..][i] == data[i + 1] && mask[1..][i] == mask[i + 1];
    }
    if CharFits(data[0], mask[0]) && FitsByPosition(data[1..], mask[1..]) {
      assert forall i :: 0 < i < Fixed(mask) ==> data[i] == data[1..][i - 1] && mask[i] == mask[1..][i - 1];
    }
  }

  const MASK_ISO := "####-##-##T##:##:##*"
  const MASK_DAY := "####-##-##*"
  const MASK_DOTS := "##.##.####"
  const MASK_CTIME := "@$$ @$$ ~# ##:##:## *"
  const MASK_822 := "## @$$ #### ##:##:## *"
  const MASK_822_SHORT := "# @$$ #### ##:##:## *"
  const MASK_850 := "##-@$$-## ##:##:## *"

  // ---- the time structure ----

  datatype GmtType = GmtUnset | GmtLocal | GmtSet

  datatype TimeExp = TimeExp(
    year: int, mon: int, mday: int,
    hour: int, min: int, sec: int, usec: int,
    wday: int, yday: int,
    gmtoff: int, gmt: GmtType)

  /** A reader leaves the structure as far as it came, also when it fails. */
  datatype Outcome = Outcome(ok: bool, tm: TimeExp)

  /** Reading of a decimal fraction: its microseconds, in floating point, and the number of characters taken. */
  datatype Numbers = Numbers(fraction: string -> (int, nat))

  /** What digits stand for. */
  function InBase(s: string, base: nat): int
  {
    if s == [] then 0 else base * InBase(s[..|s| - 1], base) + (s[|s| - 1] as int - 48)
  }

  predicate IsOctal(c: char) { '0' <= c <= '7' }

  /** strtoll on digits. With base 0 a leading zero makes it read octal digits, as far as they go. */
  function Integer(s: string, base: nat): int
  {
    if base == 0 && s != [] && s[0] == '0' then InBase(s[..Leading(IsOctal, s)], 8) else InBase(s, 10)
  }

  predicate ValidTm(tm: TimeExp)
  {
    ValidDate(Date(tm.year, tm.mon, tm.mday)) && 0 <= tm.hour <= 23 && 0 <= tm.min <= 59 && 0 <= tm.sec <= 61
  }

  // ---- the reader ----

  function At(s: string, i: nat): char { if i < |s| then s[i] else '\0' }

  function Sub(s: string, i: nat, n: nat): (r: string)
    requires i + n <= |s|
    ensures |r| == n && forall k :: 0 <= k < n ==> r[k] == s[i + k]
  {
    s[i..i + n]
  }

  function ReadTime(tm: TimeExp, s: string): Outcome
    requires |s| == 8
  {
    var t := tm.(hour := Num2(s[0], s[1]), min := Num2(s[3], s[4]), sec := Num2(s[6], s[7]));
    Outcome(t.hour <= 23 && t.min <= 59 && t.sec <= 61, t)
  }

  /** The rule for the days of a month that both readers of dates apply. */
  predicate DayFits(year: int, mon: int, mday: int)
  {
    && !(mday == 31 && (mon == 3 || mon == 5 || mon == 8 || mon == 10))
    && !(mon == 1 && (mday > 29 || (mday == 29 && (year % 4 != 0 || (CMod(year, 100) == 0 && CMod(year, 400) != 100)))))
  }

  predicate CheckMon(tm: TimeExp)
  {
    0 < tm.mday <= 31 && tm.mon < 12 && DayFits(tm.year, tm.mon, tm.mday)
  }

  /** The rule is the Gregorian calendar from 1900 on. */
  lemma CheckMonIsDate(tm: TimeExp)
    requires tm.year >= 0 && tm.mon >= 0
    ensures CheckMon(tm) <==> ValidDate(Date(tm.year, tm.mon, tm.mday))
  {
    LeapSince1900(tm.year);
  }

  lemma Mod400(year: nat)
    ensures (year + 1900) % 400 == 0 <==> year % 400 == 100
  {
    var q, r := year / 400, year % 400;
    assert year + 1900 == 400 * q + (r + 1900);
    assert (year + 1900) % 400 == (r + 1900) % 400;
  }

  lemma LeapSince1900(year: nat)
    ensures Leap(year) <==> year % 4 == 0 && !(year % 100 == 0 && year % 400 != 100)
  {
    Mod4(year);
    Mod100(year);
    Mod400(year);
    Multiple(year);
  }

  lemma Mod4(year: nat)
    ensures (year + 1900) % 4 == 0 <==> year % 4 == 0
  {
    assert year + 1900 == year + 4 * 475;
  }

  lemma Mod100(year: nat)
    ensures (year + 1900) % 100 == 0 <==> year % 100 == 0
  {
    assert year + 1900 == year + 100 * 19;
  }

  lemma Multiple(year: nat)
    ensures year % 400 == 100 ==> year % 100 == 0
  {
    assert year == 100 * (4 * (year / 400)) + year % 400;
  }

  function MonthName(mon: int): (s: string)
    requires 0 <= mon < 12
    ensures |s| == 3 && IsUpper(s[0]) && IsLower(s[1]) && IsLower(s[2])
  {
    match mon
    case 0 => "Jan" case 1 => "Feb" case 2 => "Mar" case 3 => "Apr" case 4 => "May" case 5 => "Jun"
    case 6 => "Jul" case 7 => "Aug" case 8 => "Sep" case 9 => "Oct" case 10 => "Nov" case _ => "Dec"
  }

  /** Three letters in one number. */
  function Packed(s: string): int
    requires |s| >= 3
  {
    (s[0] as int * 256 + s[1] as int) * 256 + s[2] as int
  }

  /** The first month from `mon` on with this number, 12 when there is none. */
  function MonthFrom(packed: int, mon: nat): (m: nat)
    requires mon <= 12
    ensures mon <= m <= 12
    ensures m < 12 ==> Packed(MonthName(m)) == packed
    ensures forall k :: mon <= k < m ==> Packed(MonthName(k)) != packed
    decreases 12 - mon
  {
    if mon == 12 || Packed(MonthName(mon)) == packed then mon else MonthFrom(packed, mon + 1)
  }

  /** The table's number for a month. */
  function MonthCode(mon: int): int
    requires 0 <= mon < 12
  {
    match mon
    case 0 => 0x4A616E case 1 => 0x466562 case 2 => 0x4D6172 case 3 => 0x417072 case 4 => 0x4D6179 case 5 => 0x4A756E
    case 6 => 0x4A756C case 7 => 0x417567 case 8 => 0x536570 case 9 => 0x4F6374 case 10 => 0x4E6F76 case _ => 0x446563
  }

  lemma Coded(mon: int)
    requires 0 <= mon < 12
    ensures Packed(MonthName(mon)) == MonthCode(mon)
  {
  }

  lemma NamesDiffer(a: int, b: int)
    requires 0 <= a < 12 && 0 <= b < 12 && Packed(MonthName(a)) == Packed(MonthName(b))
    ensures a == b
  {
    Coded(a);
    Coded(b);
  }

  lemma MonthFound(mon: int)
    requires 0 <= mon < 12
    ensures MonthFrom(Packed(MonthName(mon)), 0) == mon
  {
    var m := MonthFrom(Packed(MonthName(mon)), 0);
    if m < 12 {
      NamesDiffer(m, mon);
    }
  }

  /** The search of the month table, by the letters themselves. */
  method FindMonth(s: string) returns (mon: nat)
    requires |s| == 3 && forall i :: 0 <= i < 3 ==> s[i] < 128 as char
    ensures mon == MonthFrom(Packed(s), 0)
    ensures mon < 12 ==> s == MonthName(mon)
    ensures mon == 12 ==> forall m :: 0 <= m < 12 ==> s != MonthName(m)
  {
    var packed := Packed(s);
    mon := 0;
    while mon < 12 && packed != Packed(MonthName(mon))
      invariant mon <= 12 && MonthFrom(packed, 0) == MonthFrom(packed, mon)
    {
      mon := mon + 1;
    }
    FoundByName(s);
  }

  lemma FoundByName(s: string)
    requires |s| == 3 && forall i :: 0 <= i < 3 ==> s[i] < 128 as char
    ensures var m := MonthFrom(Packed(s), 0); if m < 12 then s == MonthName(m) else forall k :: 0 <= k < 12 ==> s != MonthName(k)
  {
    var m := MonthFrom(Packed(s), 0);
    if m < 12 {
      PackedTells(s, MonthName(m));
    }
  }

  lemma PackedTells(s: string, t: string)
    requires |s| == 3 && |t| == 3 && Packed(s) == Packed(t)
    requires forall i :: 0 <= i < 3 ==> s[i] < 128 as char && t[i] < 128 as char
    ensures s == t
  {
    assert s[2] as int == Packed(s) % 256 && t[2] as int == Packed(t) % 256;
    assert s[1] as int == Packed(s) / 256 % 256 && t[1] as int == Packed(t) / 256 % 256;
  }

  /** With three letters given the structure's own month plays no part. */
  function ReadMon(tm: TimeExp, s: string): Outcome
    requires |s| == 3
  {
    var mon := MonthFrom(Packed(s), 0);
    if 0 < tm.mday <= 31 && mon < 12 && DayFits(tm.year, mon, tm.mday) then Outcome(true, tm.(mon := mon))
    else Outcome(false, tm)
  }

  function WithOffset(tm: TimeExp, offset: int): TimeExp
  {
    tm.(gmtoff := offset, gmt := if offset != 0 then GmtLocal else GmtSet)
  }

  function ReadGmt(tm: TimeExp, s: string): TimeExp
  {
    var t := tm.(gmtoff := 0, gmt := GmtUnset);
    if s == [] then t
    else if s == "GMT" then t.(gmt := GmtSet)
    else
      var sign := if s[0] == '-' then -1 else if s[0] == '+' then 1 else 0;
      var u := if s[0] == 'Z' then t.(gmt := GmtSet) else t;
      var n := Leading(IsDigit, s[1..]);
      var digits, rest := s[1..][..n], s[1..][n..];
      if n == 2 && At(rest, 0) == ':' then
        var m := Leading(IsDigit, rest[1..]);
        if m == 2 then WithOffset(u, sign * Integer(digits, 10) * 3600 + sign * Integer(rest[1..][..2], 10) * 60)
        else u
      else if n == 4 then
        var offset := Integer(digits, 0);
        WithOffset(u, sign * CDiv(offset, 100) * 3600 + sign * CMod(offset, 100) * 60)
      else u
  }

  /** The four digits of a year, from 1900; the hundreds are set even when they are below zero and refused. */
  function ReadYear(tm: TimeExp, a: char, b: char, c: char, d: char): Outcome
  {
    var century := (Num2(a, b) - 19) * 100;
    if century < 0 then Outcome(false, tm.(year := century))
    else Outcome(true, tm.(year := century + Num2(c, d)))
  }

  function ReadIso(rd: Numbers, tm: TimeExp, r: string): Outcome
    requires |r| >= 19
  {
    var y := ReadYear(tm, r[0], r[1], r[2], r[3]);
    if !y.ok then y
    else
      var d := y.tm.(mon := Num2(r[5], r[6]) - 1, mday := Num2(r[8], r[9]));
      var t := ReadTime(d, Sub(r, 11, 8));
      if !t.ok || !CheckMon(t.tm) then Outcome(false, t.tm)
      else
        var rest := r[19..];
        var dot := At(rest, 0) == '.';
        var u := if dot then t.tm.(usec := rd.fraction(rest).0) else t.tm;
        var n := if dot then rd.fraction(rest).1 else 0;
        var tail := if n <= |rest| then rest[n..] else [];
        Outcome(true, ReadGmt(u, if tail == [] then "Z" else tail))
  }

  function ReadDay(tm: TimeExp, r: string): Outcome
    requires |r| >= 10
  {
    var y := ReadYear(tm, r[0], r[1], r[2], r[3]);
    if !y.ok then y
    else
      var d := y.tm.(mon := Num2(r[5], r[6]) - 1, mday := Num2(r[8], r[9]));
      if !CheckMon(d) then Outcome(false, d)
      else Outcome(true, ReadGmt(d, if |r| == 10 then "Z" else r[10..]))
  }

  function ReadDots(tm: TimeExp, r: string): Outcome
    requires |r| == 10
  {
    var y := ReadYear(tm, r[6], r[7], r[8], r[9]);
    if !y.ok then y
    else
      var d := y.tm.(mday := Num2(r[0], r[1]), mon := Num2(r[3], r[4]) - 1);
      if !CheckMon(d) then Outcome(false, d) else Outcome(true, ReadGmt(d, "Z"))
  }

  function ReadCTime(tm: TimeExp, r: string): Outcome
    requires |r| >= 20
  {
    var ydate := SkipUntil(IsDigit, r[20..]);
    if |ydate| < 4 then Outcome(false, tm)
    else
      var y := ReadYear(tm, ydate[0], ydate[1], ydate[2], ydate[3]);
      if !y.ok then y
      else
        var d := y.tm.(mday := if r[8] == ' ' then Num(r[9]) else Num2(r[8], r[9]));
        var t := ReadTime(d, Sub(r, 11, 8));
        var m := if t.ok then ReadMon(t.tm, Sub(r, 4, 3)) else t;
        if !m.ok then m else Outcome(true, m.tm.(usec := 0, gmtoff := 0))
  }

  /** What the three forms that start with a day have in common. */
  function ReadRest(tm: TimeExp, monstr: string, timstr: string, gmtstr: string): Outcome
    requires |monstr| == 3 && |timstr| == 8
  {
    var t := ReadTime(tm, timstr);
    var m := if t.ok then ReadMon(t.tm, monstr) else t;
    if !m.ok then m
    else
      var u := m.tm.(usec := 0);
      Outcome(true, if gmtstr == [] then u.(gmtoff := 0) else ReadGmt(u, gmtstr))
  }

  function Read822(tm: TimeExp, r: string): Outcome
    requires |r| >= 21
  {
    var y := ReadYear(tm, r[7], r[8], r[9], r[10]);
    if !y.ok then y
    else ReadRest(y.tm.(mday := Num2(r[0], r[1])), Sub(r, 3, 3), Sub(r, 12, 8), r[21..])
  }

  function Read822Short(tm: TimeExp, r: string): Outcome
    requires |r| >= 20
  {
    var y := ReadYear(tm, r[6], r[7], r[8], r[9]);
    if !y.ok then y
    else ReadRest(y.tm.(mday := Num(r[0])), Sub(r, 2, 3), Sub(r, 11, 8), r[20..])
  }

  function Read850(tm: TimeExp, r: string): Outcome
    requires |r| >= 19
  {
    var y := Num2(r[7], r[8]);
    var t := tm.(year := if y < 70 then y + 100 else y, mday := Num2(r[0], r[1]));
    ReadRest(t, Sub(r, 3, 3), Sub(r, 10, 8), r[19..])
  }

  /** The form of a text: which mask takes it, in the order in which they are tried. */
  datatype Form = NoForm | Iso | Day | Dots | CTime | Rfc822 | Rfc822Short | Rfc850

  /** The text after leading white space. */
  function Trimmed(s: string): string { s[Leading(IsSpace, s)..] }

  /** The text from its first digit on. */
  function FromDigit(s: string): string { SkipUntil(IsDigit, s) }

  predicate HasBlank(s: string) { SkipUntil(IsBlank, s) != [] }

  function FormOf(r: string): (f: Form)
    ensures f.Iso? ==> |r| >= 19
    ensures f.Day? ==> |r| >= 10
    ensures f.Dots? ==> |r| == 10
    ensures f.CTime? ==> |r| >= 20
    ensures f.Rfc822? ==> |FromDigit(r)| >= 21
    ensures f.Rfc822Short? ==> |FromDigit(r)| >= 20
    ensures f.Rfc850? ==> |FromDigit(r)| >= 19
  {
    DigitMaskLengths(r);
    NamedMaskLengths(r);
    NamedMaskLengths(FromDigit(r));
    OtherMaskLengths(FromDigit(r));
    if r == [] then NoForm
    else if !HasBlank(r) then
      if Matches(r, MASK_ISO) then Iso
      else if Matches(r, MASK_DAY) then Day
      else if Matches(r, MASK_DOTS) then Dots
      else NoForm
    else if Matches(r, MASK_CTIME) then CTime
    else if Matches(FromDigit(r), MASK_822) then Rfc822
    else if Matches(FromDigit(r), MASK_822_SHORT) then Rfc822Short
    else if Matches(FromDigit(r), MASK_850) then Rfc850
    else NoForm
  }

  // Each mask by position.

  lemma MaskIs(r: string, mask: string, n: nat)
    requires Plain(mask) && Fixed(mask) == n
    ensures Matches(r, mask) <==> FitsByPosition(r, mask)
    ensures Matches(r, mask) ==> |r| >= n && (n == |mask| ==> |r| == n)
  {
    MatchesPlain(r, mask);
  }

  lemma PlainIso()
    ensures Plain(MASK_ISO) && Fixed(MASK_ISO) == 19
  {
  }

  lemma PlainDay()
    ensures Plain(MASK_DAY) && Fixed(MASK_DAY) == 10
  {
  }

  lemma PlainDots()
    ensures Plain(MASK_DOTS) && Fixed(MASK_DOTS) == 10
  {
  }

  lemma PlainCTime()
    ensures Plain(MASK_CTIME) && Fixed(MASK_CTIME) == 20
  {
  }

  lemma Plain822()
    ensures Plain(MASK_822) && Fixed(MASK_822) == 21
  {
  }

  lemma Plain822Short()
    ensures Plain(MASK_822_SHORT) && Fixed(MASK_822_SHORT) == 20
  {
  }

  lemma Plain850()
    ensures Plain(MASK_850) && Fixed(MASK_850) == 19
  {
  }

  lemma DigitMaskLengths(r: string)
    ensures Matches(r, MASK_ISO) ==> |r| >= 19
    ensures Matches(r, MASK_DAY) ==> |r| >= 10
    ensures Matches(r, MASK_DOTS) ==> |r| == 10
  {
    PlainIso();
    MaskIs(r, MASK_ISO, 19);
    PlainDay();
    MaskIs(r, MASK_DAY, 10);
    PlainDots();
    MaskIs(r, MASK_DOTS, 10);
  }

  lemma NamedMaskLengths(r: string)
    ensures Matches(r, MASK_CTIME) ==> |r| >= 20
    ensures Matches(r, MASK_822) ==> |r| >= 21
  {
    PlainCTime();
    MaskIs(r, MASK_CTIME, 20);
    Plain822();
    MaskIs(r, MASK_822, 21);
  }

  lemma OtherMaskLengths(r: string)
    ensures Matches(r, MASK_822_SHORT) ==> |r| >= 20
    ensures Matches(r, MASK_850) ==> |r| >= 19
  {
    Plain822Short();
    MaskIs(r, MASK_822_SHORT, 20);
    Plain850();
    MaskIs(r, MASK_850, 19);
  }

  /** The whole reader. */
  function ReadText(rd: Numbers, tm: TimeExp, text: string): Outcome
  {
    var r := Trimmed(text);
    if r == [] then Outcome(false, tm)
    else
      var t := tm.(gmt := GmtUnset);
      match FormOf(r)
      case NoForm => Outcome(false, t)
      case Iso => ReadIso(rd, t, r)
      case Day => ReadDay(t, r)
      case Dots => ReadDots(t, r)
      case CTime => ReadCTime(t, r)
      case Rfc822 => Read822(t, FromDigit(r))
      case Rfc822Short => Read822Short(t, FromDigit(r))
      case Rfc850 => Read850(t, FromDigit(r))
  }

  // ---- the printers ----

  function DayName(wday: int): (s: string)
    requires 0 <= wday < 7
    ensures |s| == 3 && IsUpper(s[0]) && IsLower(s[1]) && IsLower(s[2])
  {
    match wday
    case 0 => "Sun" case 1 => "Mon" case 2 => "Tue" case 3 => "Wed" case 4 => "Thu" case 5 => "Fri" case _ => "Sat"
  }

  /** What adding a number to '0' gives in one byte. */
  function Digit(n: int): (c: char)
    ensures 0 <= n <= 9 ==> IsDigit(c) && Num(c) == n
  {
    ((48 + n) % 256) as char
  }

  /** Two digits of a number, with the operators of C. */
  function Tens(n: int): char { Digit(CDiv(n, 10)) }

  function Ones(n: int): char { Digit(CMod(n, 10)) }

  function YearDigit(year: int, k: int): char
    requires 0 <= k < 4
  {
    var y := year + 1900;
    if k == 0 then Digit(CDiv(y, 1000))
    else if k == 1 then Digit(CDiv(CMod(y, 1000), 100))
    else if k == 2 then Digit(CDiv(CMod(y, 100), 10))
    else Digit(CMod(y, 10))
  }

  function GmtText(gmtoff: int, colon: string): (s: string)
    ensures |s| == 5 + |colon|
  {
    var hours, mins := CDiv(gmtoff, 3600), CDiv(CMod(gmtoff, 3600), 60);
    [if gmtoff > 0 then '+' else '-', Tens(hours), Ones(hours)] + colon + [Tens(mins), Ones(mins)]
  }

  /** The clock, as all three forms print it. */
  function Clock(tm: TimeExp): (s: string)
    ensures |s| == 8
  {
    [Tens(tm.hour), Ones(tm.hour), ':', Tens(tm.min), Ones(tm.min), ':', Tens(tm.sec), Ones(tm.sec)]
  }

  /** From the day to the space before the clock. */
  function Rfc822Date(tm: TimeExp): (s: string)
    requires 0 <= tm.mon < 12
    ensures |s| == 12
  {
    var m := MonthName(tm.mon);
    [Tens(tm.mday), Ones(tm.mday), ' ', m[0], m[1], m[2], ' ',
     YearDigit(tm.year, 0), YearDigit(tm.year, 1), YearDigit(tm.year, 2), YearDigit(tm.year, 3), ' ']
  }

  function Rfc822Text(tm: TimeExp): (s: string)
    requires 0 <= tm.wday < 7 && 0 <= tm.mon < 12
    ensures |s| == if tm.gmtoff == 0 then 29 else 31
  {
    DayName(tm.wday) + ", " + Rfc822Date(tm) + Clock(tm) + " " + if tm.gmtoff == 0 then "GMT" else GmtText(tm.gmtoff, "")
  }

  function CTimeDate(tm: TimeExp): (s: string)
    requires 0 <= tm.wday < 7 && 0 <= tm.mon < 12
    ensures |s| == 11
  {
    var d, m := DayName(tm.wday), MonthName(tm.mon);
    [d[0], d[1], d[2], ' ', m[0], m[1], m[2], ' ', Tens(tm.mday), Ones(tm.mday), ' ']
  }

  function YearText(year: int): (s: string)
    ensures |s| == 4
  {
    [YearDigit(year, 0), YearDigit(year, 1), YearDigit(year, 2), YearDigit(year, 3)]
  }

  function CTimeText(tm: TimeExp): (s: string)
    requires 0 <= tm.wday < 7 && 0 <= tm.mon < 12
    ensures |s| == 24
  {
    CTimeDate(tm) + Clock(tm) + " " + YearText(tm.year)
  }

  function IsoDate(tm: TimeExp): (s: string)
    ensures |s| == 11
  {
    [YearDigit(tm.year, 0), YearDigit(tm.year, 1), YearDigit(tm.year, 2), YearDigit(tm.year, 3), '-',
     Tens(tm.mon + 1), Ones(tm.mon + 1), '-', Tens(tm.mday), Ones(tm.mday), 'T']
  }

  /** With precision 0. */
  function IsoText(tm: TimeExp): (s: string)
    ensures |s| == if tm.gmtoff == 0 then 20 else 25
  {
    IsoDate(tm) + Clock(tm) + if tm.gmtoff != 0 then GmtText(tm.gmtoff, ":") else "Z"
  }
}
