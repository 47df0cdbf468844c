/** strverscmp in every case, told from the strings alone. */
module VersionCases {
  import opened VersionOrder
  import opened VersionKeys

  /** A text of digits. */
  ghost predicate AllDigits(n: seq<int>) { forall j :: 0 <= j < |n| ==> 48 <= n[j] <= 57 }

  /** A beginning after which digits start anew. */
  ghost predicate Ended(p: seq<int>) { p == [] || !(48 <= p[|p| - 1] <= 57) }

  /** u starts with exactly k digits. */
  ghost predicate Run(u: seq<int>, k: nat) { k <= |u| && AllDigits(u[..k]) && (k == |u| || !(48 <= u[k] <= 57)) }

  lemma RunIs(u: seq<int>, k: nat)
    requires Run(u, k)
    ensures RunLen(u) == k
  {
    assert u == u[..k] + u[k..];
    RunOf(u[..k], u[k..]);
  }

  lemma {:induction false} EdgeAfter(p: seq<int>, ctx: Context)
    requires p != [] && Ended(p)
    ensures NextAll(ctx, p) == Edge
  {
    if |p| > 1 {
      assert p[1..][|p| - 2] == p[|p| - 1];
      EdgeAfter(p[1..], Next(ctx, p[0]));
    }
  }

  lemma {:induction false} InFraction(n: seq<int>)
    requires AllDigits(n)
    ensures NextAll(Fraction, n) == Fraction && NextAll(Number, n) == Number
  {
    if n != [] { InFraction(n[1..]); }
  }

  lemma {:induction false} InZeros(n: seq<int>)
    requires AllDigits(n)
    ensures NextAll(Zeros, n) == if forall j :: 0 <= j < |n| ==> n[j] == 48 then Zeros else Fraction
  {
    if n != [] {
      if n[0] == 48 {
        InZeros(n[1..]);
        assert forall j :: 0 < j < |n| ==> n[j] == n[1..][j - 1];
      } else {
        InFraction(n[1..]);
      }
    }
  }

  /** What the digits at the end of the common beginning amount to. */
  lemma Within(n: seq<int>)
    requires n != [] && AllDigits(n)
    ensures NextAll(Edge, n) == if n[0] != 48 then Number else if forall j :: 0 <= j < |n| ==> n[j] == 48 then Zeros else Fraction
  {
    if n[0] == 48 {
      InZeros(n[1..]);
      assert forall j :: 0 < j < |n| ==> n[j] == n[1..][j - 1];
    } else {
      InFraction(n[1..]);
    }
  }

  lemma FromThere(p: seq<int>, n: seq<int>, u: seq<int>, v: seq<int>)
    requires Ended(p)
    ensures Compare(p + n + u, p + n + v) == CompareFrom(u, v, NextAll(Edge, n))
  {
    assert p + n + u == p + (n + u) && p + n + v == p + (n + v);
    SamePrefix(p, n + u, n + v, Edge);
    if p != [] { EdgeAfter(p, Edge); }
    SamePrefix(n, u, v, Edge);
  }

  /**
    Two texts that differ are a common beginning p that does not end in a digit, the digits n on which it ends, and what
    follows, u and v, which differ at once. If both runs of digits start with a nonzero digit, the longer one is greater.
    Otherwise, if n is all zeros, digits come before everything else. In all other cases, and among runs of one length,
    the bytes where they differ decide.
   */
  lemma CompareCases(p: seq<int>, n: seq<int>, u: seq<int>, v: seq<int>, a: nat, b: nat)
    requires Text(p + n + u) && Text(p + n + v) && Ended(p) && AllDigits(n) && At(u, 0) != At(v, 0) && Run(u, a) && Run(v, b)
    ensures var c, d, r := At(u, 0), At(v, 0), Compare(p + n + u, p + n + v);
      var numbers := if n == [] then 49 <= c <= 57 && 49 <= d <= 57 else n[0] != 48;
      var zeros := n != [] && forall j :: 0 <= j < |n| ==> n[j] == 48;
      if numbers then (a > b ==> r > 0) && (a < b ==> r < 0) && (a == b ==> r == c - d)
      else if zeros && (a > 0 || b > 0) then (b == 0 ==> r < 0) && (a == 0 ==> r > 0) && (a > 0 && b > 0 ==> r == c - d)
      else r == c - d
  {
    FromThere(p, n, u, v);
    RunIs(u, a);
    RunIs(v, b);
    if n != [] { Within(n); }
    TextEnd(p + n, u);
    TextEnd(p + n, v);
  }

  lemma TextEnd(p: seq<int>, u: seq<int>)
    requires Text(p + u)
    ensures Text(u)
  {
    forall j | 0 <= j < |u|
      ensures 0 < u[j] < 256
    {
      assert (p + u)[|p| + j] == u[j];
    }
  }

  /** Any two texts that differ are of this form. */
  lemma {:induction false} Apart(l: seq<int>, r: seq<int>, i: nat) returns (p: seq<int>, n: seq<int>, u: seq<int>, v: seq<int>)
    requires Text(l) && Text(r) && l != r && i <= |l| && i <= |r| && l[..i] == r[..i]
    ensures l == p + n + u && r == p + n + v && Ended(p) && AllDigits(n) && At(u, 0) != At(v, 0)
    decreases |l| - i
  {
    if At(l[i..], 0) != At(r[i..], 0) {
      var k := Digital(l[..i]);
      p, n, u, v := l[..k], l[k..i], l[i..], r[i..];
      assert l == l[..i] + l[i..] && r == r[..i] + r[i..] && l[..i] == l[..k] + l[k..i];
    } else {
      assert l[..i + 1] == l[..i] + [l[i]] && r[..i + 1] == r[..i] + [r[i]];
      p, n, u, v := Apart(l, r, i + 1);
    }
  }

  /** Where the digits on which p ends begin. */
  lemma {:induction false} Digital(p: seq<int>) returns (k: nat)
    ensures k <= |p| && Ended(p[..k]) && AllDigits(p[k..])
  {
    if Ended(p) {
      k := |p|;
    } else {
      var q := p[..|p| - 1];
      k := Digital(q);
      assert p[..k] == q[..k] && p[k..] == q[k..] + [p[|p| - 1]];
    }
  }

  function ZerosOf(k: nat): seq<int> { seq(k, _ => 48) }

  /** More zeros come first. */
  lemma MoreZerosFirst(p: seq<int>, k: nat, j: nat, u: seq<int>, v: seq<int>)
    requires Ended(p) && k > j >= 1 && Text(p + ZerosOf(k) + u) && Text(p + ZerosOf(j) + v)
    requires !(48 <= At(u, 0) <= 57) && !(48 <= At(v, 0) <= 57)
    ensures Compare(p + ZerosOf(k) + u, p + ZerosOf(j) + v) < 0
  {
    var w := ZerosOf(k - j) + u;
    assert p + ZerosOf(k) + u == p + ZerosOf(j) + w;
    assert w[..k - j] == ZerosOf(k - j) && w[k - j..] == u;
    CompareCases(p, ZerosOf(j), w, v, k - j, 0);
  }

  /** After zeros, a digit comes before anything else. */
  lemma FractionFirst(p: seq<int>, j: nat, c: int, u: seq<int>, v: seq<int>, a: nat)
    requires Ended(p) && j >= 1 && 48 <= c <= 57 && !(48 <= At(v, 0) <= 57) && Run([c] + u, a)
    requires Text(p + ZerosOf(j) + ([c] + u)) && Text(p + ZerosOf(j) + v)
    ensures Compare(p + ZerosOf(j) + ([c] + u), p + ZerosOf(j) + v) < 0
  {
    assert ([c] + u)[..a] == if a == 0 then [] else [c] + u[..a - 1];
    CompareCases(p, ZerosOf(j), [c] + u, v, a, 0);
  }

  /** The order of the manual: 000 < 00 < 01 < 010 < 09 < 0 < 1 < 9 < 10. */
  lemma ManualOrder()
    ensures Compare([48, 48, 48], [48, 48]) < 0 && Compare([48, 48], [48, 49]) < 0 && Compare([48, 49], [48, 49, 48]) < 0
    ensures Compare([48, 49, 48], [48, 57]) < 0 && Compare([48, 57], [48]) < 0 && Compare([48], [49]) < 0
    ensures Compare([49], [57]) < 0 && Compare([57], [49, 48]) < 0
  {
  }
}
