/** strverscmp is a total order: it compares keys lexicographically. */
module VersionKeys {
  import opened VersionOrder

  function Sign(x: int): int { if x > 0 then 1 else if x < 0 then -1 else 0 }

  /** Lexicographic comparison of number sequences. */
  function Lex(a: seq<int>, b: seq<int>): (r: int)
    ensures -1 <= r <= 1
  {
    if a == [] || b == [] then Sign(|a| - |b|)
    else if a[0] != b[0] then Sign(a[0] - b[0])
    else Lex(a[1..], b[1..])
  }

  /** Where a byte sorts: right after zeros, digits come before everything else. */
  function Rank(ctx: Context, c: int): int
  {
    if ctx == Zeros then (if IsDigit(c) then c - 48 else 10 + c) else c
  }

  /** A number sorts by the place of a nonzero digit, then by its length, then by its digits. */
  function Head(s: seq<int>, ctx: Context): (h: seq<int>)
    requires s != []
    ensures |h| > 0
  {
    if ctx == Edge && IsLeading(s[0]) then [49, RunLen(s), s[0]] else [Rank(ctx, s[0])]
  }

  function Key(s: seq<int>, ctx: Context): (k: seq<int>)
    ensures |k| > 0
  {
    if s == [] then [Rank(ctx, 0)] else Head(s, ctx) + Key(s[1..], Next(ctx, s[0]))
  }

  lemma {:induction false} LexSwap(a: seq<int>, b: seq<int>)
    ensures Lex(b, a) == -Lex(a, b)
    decreases |a|
  {
    if a != [] && b != [] && a[0] == b[0] { LexSwap(a[1..], b[1..]); }
  }

  lemma {:induction false} LexTransitive(a: seq<int>, b: seq<int>, c: seq<int>)
    requires Lex(a, b) <= 0 && Lex(b, c) <= 0
    ensures Lex(a, c) <= 0 && (Lex(a, b) < 0 || Lex(b, c) < 0 ==> Lex(a, c) < 0)
    decreases |a|
  {
    if a != [] && b != [] && c != [] && a[0] == b[0] == c[0] { LexTransitive(a[1..], b[1..], c[1..]); }
  }

  lemma {:induction false} LexPrefix(p: seq<int>, a: seq<int>, b: seq<int>)
    ensures Lex(p + a, p + b) == Lex(a, b)
  {
    if p == [] {
      assert p + a == a && p + b == b;
    } else {
      assert (p + a)[1..] == p[1..] + a && (p + b)[1..] == p[1..] + b;
      LexPrefix(p[1..], a, b);
    }
  }

  /** Inside a number the longer run of digits wins, whatever comes first to differ. */
  lemma {:induction false} LongerRunWins(l: seq<int>, r: seq<int>)
    requires Text(l) && Text(r) && RunLen(l) != RunLen(r)
    ensures Sign(CompareFrom(l, r, Number)) == Sign(RunLen(l) - RunLen(r))
    decreases |l|
  {
    if At(l, 0) == At(r, 0) && l != [] && r != [] {
      LongerRunWins(l[1..], r[1..]);
    }
  }

  lemma RunOfLeading(l: seq<int>)
    requires l != [] && IsDigit(l[0])
    ensures RunLen(l) == RunLen(l[1..]) + 1
  {
  }

  /** Numbers of different lengths that start alike. */
  lemma SameLeadingDigit(l: seq<int>, r: seq<int>)
    requires Text(l) && Text(r) && l != [] && r != [] && l[0] == r[0] && IsLeading(l[0]) && RunLen(l) != RunLen(r)
    ensures Sign(CompareFrom(l, r, Edge)) == Lex(Key(l, Edge), Key(r, Edge))
  {
    RunOfLeading(l);
    RunOfLeading(r);
    LongerRunWins(l[1..], r[1..]);
    KeyStartsNumber(l);
    KeyStartsNumber(r);
    LexAt(Key(l, Edge), Key(r, Edge), 1);
  }

  /** Other strings that start alike: what follows decides. */
  lemma SameHead(l: seq<int>, r: seq<int>, ctx: Context)
    requires l != [] && r != [] && l[0] == r[0] && (ctx == Edge && IsLeading(l[0]) ==> RunLen(l) == RunLen(r))
    ensures CompareFrom(l, r, ctx) == CompareFrom(l[1..], r[1..], Next(ctx, l[0]))
    ensures Lex(Key(l, ctx), Key(r, ctx)) == Lex(Key(l[1..], Next(ctx, l[0])), Key(r[1..], Next(ctx, l[0])))
  {
    LexPrefix(Head(l, ctx), Key(l[1..], Next(ctx, l[0])), Key(r[1..], Next(ctx, l[0])));
  }

  lemma KeyStarts(s: seq<int>, ctx: Context)
    requires !(ctx == Edge && IsLeading(At(s, 0)))
    ensures Key(s, ctx)[0] == Rank(ctx, At(s, 0))
  {
  }

  lemma KeyStartsNumber(s: seq<int>)
    requires IsLeading(At(s, 0))
    ensures |Key(s, Edge)| > 3 && Key(s, Edge)[0] == 49 && Key(s, Edge)[1] == RunLen(s) && Key(s, Edge)[2] == s[0]
  {
  }

  lemma LexAt(a: seq<int>, b: seq<int>, k: nat)
    requires k < |a| && k < |b| && a[..k] == b[..k] && a[k] != b[k]
    ensures Lex(a, b) == Sign(a[k] - b[k])
  {
    LexPrefix(a[..k], a[k..], b[k..]);
    assert a[..k] + a[k..] == a && b[..k] + b[k..] == b;
  }

  lemma NumbersDiffer(l: seq<int>, r: seq<int>)
    requires Text(l) && Text(r) && At(l, 0) != At(r, 0) && IsLeading(At(l, 0)) && IsLeading(At(r, 0))
    ensures Sign(Decide(l, r, Edge)) == Lex(Key(l, Edge), Key(r, Edge))
  {
    KeyStartsNumber(l);
    KeyStartsNumber(r);
    LexAt(Key(l, Edge), Key(r, Edge), if RunLen(l) != RunLen(r) then 1 else 2);
  }

  lemma NumberAgainstOther(l: seq<int>, r: seq<int>)
    requires Text(l) && Text(r) && (IsLeading(At(l, 0)) <==> !IsLeading(At(r, 0)))
    ensures Sign(Decide(l, r, Edge)) == Lex(Key(l, Edge), Key(r, Edge))
  {
    if IsLeading(At(l, 0)) {
      KeyStartsNumber(l);
      KeyStarts(r, Edge);
    } else {
      KeyStarts(l, Edge);
      KeyStartsNumber(r);
    }
    LexAt(Key(l, Edge), Key(r, Edge), 0);
  }

  lemma RanksDiffer(l: seq<int>, r: seq<int>, ctx: Context)
    requires 0 <= At(l, 0) < 256 && 0 <= At(r, 0) < 256 && At(l, 0) != At(r, 0)
    requires !(ctx == Edge && (IsLeading(At(l, 0)) || IsLeading(At(r, 0))))
    requires ctx == Number ==> RunLen(l) == RunLen(r)
    ensures Rank(ctx, At(l, 0)) != Rank(ctx, At(r, 0))
    ensures Sign(Decide(l, r, ctx)) == Sign(Rank(ctx, At(l, 0)) - Rank(ctx, At(r, 0)))
  {
  }

  lemma OthersDiffer(l: seq<int>, r: seq<int>, ctx: Context)
    requires Text(l) && Text(r) && At(l, 0) != At(r, 0)
    requires !(ctx == Edge && (IsLeading(At(l, 0)) || IsLeading(At(r, 0))))
    requires ctx == Number ==> RunLen(l) == RunLen(r)
    ensures Sign(Decide(l, r, ctx)) == Lex(Key(l, ctx), Key(r, ctx))
  {
    RanksDiffer(l, r, ctx);
    KeyStarts(l, ctx);
    KeyStarts(r, ctx);
    LexAt(Key(l, ctx), Key(r, ctx), 0);
  }

  /** The comparison is the lexicographic comparison of the keys. */
  lemma {:induction false} CompareIsLexFrom(l: seq<int>, r: seq<int>, ctx: Context)
    requires Text(l) && Text(r) && (ctx == Number ==> RunLen(l) == RunLen(r))
    ensures Sign(CompareFrom(l, r, ctx)) == Lex(Key(l, ctx), Key(r, ctx))
    decreases |l|
  {
    if At(l, 0) != At(r, 0) {
      if ctx == Edge && IsLeading(At(l, 0)) && IsLeading(At(r, 0)) {
        NumbersDiffer(l, r);
      } else if ctx == Edge && (IsLeading(At(l, 0)) || IsLeading(At(r, 0))) {
        NumberAgainstOther(l, r);
      } else {
        OthersDiffer(l, r, ctx);
      }
    } else if l != [] && r != [] {
      if ctx == Edge && IsLeading(l[0]) && RunLen(l) != RunLen(r) {
        SameLeadingDigit(l, r);
      } else {
        SameHead(l, r, ctx);
        CompareIsLexFrom(l[1..], r[1..], Next(ctx, l[0]));
      }
    }
  }

  lemma CompareIsLex(l: seq<int>, r: seq<int>)
    requires Text(l) && Text(r)
    ensures Sign(Compare(l, r)) == Lex(Key(l, Edge), Key(r, Edge))
  {
    CompareIsLexFrom(l, r, Edge);
  }

  lemma {:induction false} CompareZeroFrom(l: seq<int>, r: seq<int>, ctx: Context)
    requires Text(l) && Text(r)
    ensures CompareFrom(l, r, ctx) == 0 <==> l == r
    decreases |l|
  {
    if At(l, 0) == At(r, 0) && l != [] && r != [] {
      CompareZeroFrom(l[1..], r[1..], Next(ctx, l[0]));
      assert l == [l[0]] + l[1..] && r == [r[0]] + r[1..];
    }
  }

  /** Zero exactly on equal strings, antisymmetric in sign, and transitive. */
  lemma CompareTotalOrder(a: seq<int>, b: seq<int>, c: seq<int>)
    requires Text(a) && Text(b) && Text(c)
    ensures Compare(a, b) == 0 <==> a == b
    ensures Sign(Compare(b, a)) == -Sign(Compare(a, b))
    ensures Compare(a, b) <= 0 && Compare(b, c) <= 0 ==> Compare(a, c) <= 0
    ensures Compare(a, b) < 0 && Compare(b, c) <= 0 ==> Compare(a, c) < 0
    ensures Compare(a, b) <= 0 && Compare(b, c) < 0 ==> Compare(a, c) < 0
  {
    CompareZeroFrom(a, b, Edge);
    CompareIsLex(a, b);
    CompareIsLex(b, a);
    CompareIsLex(b, c);
    CompareIsLex(a, c);
    LexSwap(Key(a, Edge), Key(b, Edge));
    if Compare(a, b) <= 0 && Compare(b, c) <= 0 {
      LexTransitive(Key(a, Edge), Key(b, Edge), Key(c, Edge));
    }
  }

  // ---- dotted numbers ----

  function Digits(n: nat): (d: seq<int>)
    ensures |d| > 0 && forall j :: 0 <= j < |d| ==> IsDigit(d[j])
  {
    if n < 10 then [48 + n] else Digits(n / 10) + [48 + n % 10]
  }

  function Dotted(v: seq<nat>): seq<int>
  {
    if v == [] then [] else if |v| == 1 then Digits(v[0]) else Digits(v[0]) + [46] + Dotted(v[1..])
  }

  function Rest(v: seq<nat>): seq<int>
    requires v != []
  {
    if |v| == 1 then [] else [46] + Dotted(v[1..])
  }

  lemma DottedSplits(v: seq<nat>)
    requires v != []
    ensures Dotted(v) == Digits(v[0]) + Rest(v) && !IsDigit(At(Rest(v), 0))
  {
    assert Digits(v[0]) + [] == Digits(v[0]);
    assert Digits(v[0]) + [46] + Dotted(v[1..]) == Digits(v[0]) + ([46] + Dotted(v[1..]));
  }

  lemma {:induction false} DottedText(v: seq<nat>)
    ensures Text(Dotted(v))
  {
    if |v| > 1 { DottedText(v[1..]); }
  }

  lemma {:induction false} DigitsLead(n: nat)
    ensures n > 0 ==> IsLeading(Digits(n)[0])
    ensures n == 0 ==> Digits(n) == [48]
  {
    if n >= 10 { DigitsLead(n / 10); }
  }

  lemma {:induction false} RunOf(p: seq<int>, u: seq<int>)
    requires (forall j :: 0 <= j < |p| ==> IsDigit(p[j])) && !IsDigit(At(u, 0))
    ensures RunLen(p + u) == |p|
  {
    if p == [] {
      assert p + u == u;
    } else {
      assert (p + u)[1..] == p[1..] + u;
      RunOf(p[1..], u);
    }
  }

  function NextAll(ctx: Context, p: seq<int>): Context
    decreases |p|
  {
    if p == [] then ctx else NextAll(Next(ctx, p[0]), p[1..])
  }

  lemma {:induction false} SamePrefix(p: seq<int>, u: seq<int>, v: seq<int>, ctx: Context)
    ensures CompareFrom(p + u, p + v, ctx) == CompareFrom(u, v, NextAll(ctx, p))
  {
    if p == [] {
      assert p + u == u && p + v == v;
    } else {
      assert (p + u)[1..] == p[1..] + u && (p + v)[1..] == p[1..] + v;
      SamePrefix(p[1..], u, v, Next(ctx, p[0]));
    }
  }

  lemma {:induction false} NumberStays(p: seq<int>)
    requires forall j :: 0 <= j < |p| ==> IsDigit(p[j])
    ensures NextAll(Number, p) == Number
  {
    if p != [] { NumberStays(p[1..]); }
  }

  lemma DigitsContext(p: seq<int>)
    requires |p| > 0 && (forall j :: 0 <= j < |p| ==> IsDigit(p[j])) && (IsLeading(p[0]) || p == [48])
    ensures NextAll(Edge, p) == if IsLeading(p[0]) then Number else Zeros
  {
    if IsLeading(p[0]) { NumberStays(p[1..]); }
  }

  /** A longer number is greater; numbers of one length compare at the first digit that differs. */
  lemma {:induction false} DigitsOrder(n: nat, m: nat) returns (k: nat)
    requires n < m
    ensures |Digits(n)| <= |Digits(m)|
    ensures |Digits(n)| == |Digits(m)| ==>
      k < |Digits(n)| && Digits(n)[..k] == Digits(m)[..k] && Digits(n)[k] < Digits(m)[k]
  {
    k := 0;
    if m < 10 {
    } else if n < 10 {
    } else if n / 10 < m / 10 {
      k := DigitsOrder(n / 10, m / 10);
      if |Digits(n)| == |Digits(m)| {
        assert Digits(n)[..k] == Digits(n / 10)[..k] && Digits(m)[..k] == Digits(m / 10)[..k];
      }
    } else {
      k := |Digits(n / 10)|;
      assert Digits(n)[..k] == Digits(n / 10);
    }
  }

  lemma SameLengthLess(x: seq<int>, y: seq<int>, u: seq<int>, v: seq<int>, k: nat)
    requires |x| == |y| > k && (forall j :: 0 <= j < |x| ==> IsDigit(x[j]) && IsDigit(y[j]))
    requires IsLeading(x[0]) && IsLeading(y[0]) && x[..k] == y[..k] && x[k] < y[k] && !IsDigit(At(u, 0)) && !IsDigit(At(v, 0))
    ensures Compare(x + u, y + v) < 0
  {
    RunOf(x[k..], u);
    RunOf(y[k..], v);
    assert x + u == x[..k] + (x[k..] + u) && y + v == x[..k] + (y[k..] + v);
    SamePrefix(x[..k], x[k..] + u, y[k..] + v, Edge);
    if k > 0 { DigitsContext(x[..k]); }
  }

  lemma ShorterLess(x: seq<int>, y: seq<int>, u: seq<int>, v: seq<int>)
    requires 0 < |x| < |y| && (forall j :: 0 <= j < |x| ==> IsDigit(x[j])) && (forall j :: 0 <= j < |y| ==> IsDigit(y[j]))
    requires IsLeading(x[0]) && IsLeading(y[0]) && !IsDigit(At(u, 0)) && !IsDigit(At(v, 0)) && Text(x + u) && Text(y + v)
    ensures Compare(x + u, y + v) < 0
  {
    RunOf(x, u);
    RunOf(y, v);
    if x[0] == y[0] {
      LongerRunWins((x + u)[1..], (y + v)[1..]);
    }
  }

  lemma NumberLess(n: nat, m: nat, u: seq<int>, v: seq<int>)
    requires n < m && !IsDigit(At(u, 0)) && !IsDigit(At(v, 0)) && Text(Digits(n) + u) && Text(Digits(m) + v)
    ensures Compare(Digits(n) + u, Digits(m) + v) < 0
  {
    DigitsLead(n);
    DigitsLead(m);
    if n > 0 {
      var k := DigitsOrder(n, m);
      if |Digits(n)| == |Digits(m)| {
        SameLengthLess(Digits(n), Digits(m), u, v, k);
      } else {
        ShorterLess(Digits(n), Digits(m), u, v);
      }
    }
  }

  lemma SameNumber(n: nat, u: seq<int>, v: seq<int>)
    requires !IsDigit(At(u, 0)) && !IsDigit(At(v, 0))
    ensures At(u, 0) != At(v, 0) ==> Compare(Digits(n) + u, Digits(n) + v) == At(u, 0) - At(v, 0)
    ensures At(u, 0) == At(v, 0) && u != [] && v != [] ==> Compare(Digits(n) + u, Digits(n) + v) == Compare(u[1..], v[1..])
    ensures u == [] && v == [] ==> Compare(Digits(n) + u, Digits(n) + v) == 0
  {
    SamePrefix(Digits(n), u, v, Edge);
    DigitsLead(n);
    DigitsContext(Digits(n));
  }

  /** On dotted numbers without leading zeros, strverscmp compares the numbers component by component. */
  lemma {:induction false} DottedNumbers(a: seq<nat>, b: seq<nat>)
    ensures Sign(Compare(Dotted(a), Dotted(b))) == Lex(a, b)
    decreases |a|
  {
    DottedText(a);
    DottedText(b);
    if a == [] || b == [] {
      if a != [] { DottedSplits(a); }
      if b != [] { DottedSplits(b); }
    } else {
      DottedSplits(a);
      DottedSplits(b);
      if a[0] < b[0] {
        NumberLess(a[0], b[0], Rest(a), Rest(b));
      } else if b[0] < a[0] {
        NumberLess(b[0], a[0], Rest(b), Rest(a));
        CompareTotalOrder(Dotted(a), Dotted(b), Dotted(a));
      } else {
        SameNumber(a[0], Rest(a), Rest(b));
        if |a| > 1 && |b| > 1 {
          DottedNumbers(a[1..], b[1..]);
          assert Rest(a)[1..] == Dotted(a[1..]) && Rest(b)[1..] == Dotted(b[1..]);
        }
      }
    }
  }
}
