/**
  strverscmp: comparing strings so that runs of digits count as numbers, or as decimal fractions when
  they start with a zero.
 */
module VersionOrder {
  /** The bytes of a C string before its terminator. */
  ghost predicate Text(s: seq<int>) { forall j :: 0 <= j < |s| ==> 0 < s[j] < 256 }

  /** The byte at i; the terminator follows the last one. */
  function At(s: seq<int>, i: nat): int
    requires i <= |s|
  {
    if i < |s| then s[i] else 0
  }

  predicate IsDigit(c: int) { 48 <= c <= 57 }

  predicate IsLeading(c: int) { 49 <= c <= 57 }

  function RunLen(s: seq<int>): nat
  {
    if s != [] && IsDigit(s[0]) then 1 + RunLen(s[1..]) else 0
  }

  /** Conversion to unsigned char. */
  function Wrap(x: int): int { x % 256 }

  /** What the digits just passed amount to: none, a number, only zeros, or a fraction. */
  datatype Context = Edge | Number | Zeros | Fraction

  function Next(ctx: Context, c: int): Context
  {
    if !IsDigit(c) then Edge
    else match ctx
      case Edge => if c == 48 then Zeros else Number
      case Zeros => if c == 48 then Zeros else Fraction
      case _ => ctx
  }

  /** The verdict where the strings first differ. */
  function Decide(l: seq<int>, r: seq<int>, ctx: Context): int
  {
    var c, d := At(l, 0), At(r, 0);
    if ctx == Number || (ctx == Edge && IsLeading(c) && IsLeading(d)) then
      (if RunLen(l) > RunLen(r) then 1 else if RunLen(r) > RunLen(l) then -1 else c - d)
    else if ctx == Zeros && (IsDigit(c) || IsDigit(d)) then Wrap(c - 48) - Wrap(d - 48)
    else c - d
  }

  function CompareFrom(l: seq<int>, r: seq<int>, ctx: Context): int
    decreases |l|
  {
    if At(l, 0) != At(r, 0) then Decide(l, r, ctx)
    else if l == [] || r == [] then 0
    else CompareFrom(l[1..], r[1..], Next(ctx, l[0]))
  }

  function Compare(l: seq<int>, r: seq<int>): int { CompareFrom(l, r, Edge) }

  lemma Tail(s: seq<int>, i: nat)
    requires i < |s|
    ensures s[i..][1..] == s[i + 1..] && s[i..][0] == s[i]
  {
  }

  /** The context, read off the scan's variables. */
  function ContextOf(l: seq<int>, i: nat, dp: nat, z: bool): Context
    requires dp <= i <= |l|
  {
    if dp == i then Edge else if l[dp] != 48 then Number else if z then Zeros else Fraction
  }

  method StrVersCmp(l: seq<int>, r: seq<int>) returns (res: int)
    requires Text(l) && Text(r)
    ensures res == Compare(l, r)
  {
    var i, dp, z := 0, 0, true;
    while At(l, i) == At(r, i)
      invariant 0 <= dp <= i <= |l| && i <= |r| && l[..i] == r[..i]
      invariant forall j :: dp <= j < i ==> IsDigit(l[j])
      invariant z <==> forall j :: dp <= j < i ==> l[j] == 48
      invariant CompareFrom(l[i..], r[i..], ContextOf(l, i, dp, z)) == Compare(l, r)
      decreases |l| - i
    {
      var c := At(l, i);
      if c == 0 {
        return 0;
      }
      Tail(l, i);
      Tail(r, i);
      if !IsDigit(c) {
        dp, z := i + 1, true;
      } else if c != 48 {
        z := false;
      }
      i := i + 1;
    }
    assert At(l, i) == At(l[i..], 0) && At(r, i) == At(r[i..], 0);
    if IsLeading(At(l, dp)) && IsLeading(At(r, dp)) {
      res := LongerRun(l, r, i);
      if res != 0 {
        return;
      }
    } else if z && dp < i && (IsDigit(At(l, i)) || IsDigit(At(r, i))) {
      return Wrap(At(l, i) - 48) - Wrap(At(r, i) - 48);
    }
    res := At(l, i) - At(r, i);
  }

  method LongerRun(l: seq<int>, r: seq<int>, i: nat) returns (res: int)
    requires Text(l) && Text(r) && i <= |l| && i <= |r|
    ensures var a, b := RunLen(l[i..]), RunLen(r[i..]); res == if a > b then 1 else if b > a then -1 else 0
  {
    var j := i;
    while IsDigit(At(l, j))
      invariant i <= j <= |l| && j <= |r|
      invariant RunLen(l[i..]) - RunLen(r[i..]) == RunLen(l[j..]) - RunLen(r[j..])
      decreases |l| - j
    {
      Tail(l, j);
      if !IsDigit(At(r, j)) {
        return 1;
      }
      Tail(r, j);
      j := j + 1;
    }
    res := if IsDigit(At(r, j)) then -1 else 0;
  }
}
