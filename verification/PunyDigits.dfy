/** The digits of RFC 3492: their byte forms, the thresholds, and generalised variable-length integers. */
module PunyDigits {
  import opened Common

  const BASE := 36
  const TMIN := 1
  const TMAX := 26
  const SKEW := 38
  const DAMP := 700
  const MAXINT := 0xFFFF_FFFF
  const INITIAL_N := 128
  const INITIAL_BIAS := 72

  /** Bytes and code points are plain numbers; nothing below depends on their width except MAXINT. */
  type byte = nat

  function Threshold(k: int, bias: int): (t: int)
    ensures TMIN <= t <= TMAX
  {
    if k <= bias then TMIN else if k >= bias + TMAX then TMAX else k - bias
  }

  /** The threshold is the place's distance from the bias, kept between 1 and 26. */
  lemma ThresholdIs(k: int, bias: int)
    ensures Threshold(k, bias) == if k - bias < 1 then 1 else if k - bias > 26 then 26 else k - bias
  {
  }

  function EncodeDigit(d: int): byte
    requires 0 <= d < BASE
  {
    if d > 25 then d + 22 else d + 97
  }

  /** The digit a byte stands for, or -1. */
  function DecodeDigit(c: byte): (d: int)
    ensures -1 <= d < BASE
  {
    if 0x41 <= c <= 0x5A then c - 0x41
    else if 0x61 <= c <= 0x7A then c - 0x61
    else if 0x30 <= c <= 0x39 then c - 0x30 + 26
    else -1
  }

  function Lower(c: byte): byte
  {
    if 0x41 <= c <= 0x5A then c + 32 else c
  }

  function LowerAll(e: seq<byte>): (r: seq<byte>)
    ensures |r| == |e| && forall j :: 0 <= j < |e| ==> r[j] == Lower(e[j])
  {
    seq(|e|, j requires 0 <= j < |e| => Lower(e[j]))
  }

  lemma DigitRoundTrip(d: int, c: byte)
    requires 0 <= d < BASE
    ensures DecodeDigit(EncodeDigit(d)) == d
    ensures DecodeDigit(c) == d <==> Lower(c) == EncodeDigit(d)
    ensures Lower(c) == EncodeDigit(d) ==> c != '-' as int
  {
  }

  /** Digits of q, least significant first; each threshold depends on the place k and the bias. */
  function VarDigits(q: nat, k: int, bias: int): (r: seq<byte>)
    ensures |r| > 0
    decreases q
  {
    var t := Threshold(k, bias);
    if q < t then [EncodeDigit(q)]
    else
      Quotient(q, t);
      [EncodeDigit(t + (q - t) % (BASE - t))] + VarDigits((q - t) / (BASE - t), k + BASE, bias)
  }

  lemma Quotient(q: nat, t: int)
    requires TMIN <= t <= TMAX && t <= q
    ensures 0 <= (q - t) / (BASE - t) < q && 0 <= (q - t) % (BASE - t) < BASE - t
    ensures q == t + (q - t) % (BASE - t) + (BASE - t) * ((q - t) / (BASE - t))
  {
    var u, d := q - t, BASE - t;
    var x, r := u / d, u % d;
    assert u == d * x + r;
    QuotientLe(d, x, r);
  }

  lemma QuotientLe(d: int, x: int, r: int)
    requires d > 0 && 0 <= r < d && d * x + r >= 0
    ensures 0 <= x <= d * x + r
  {
  }

  lemma DivMod(a: int, d: int, x: int)
    requires 0 <= a < d
    ensures (a + d * x) / d == x && (a + d * x) % d == a
  {
    var z := a + d * x;
    assert z == d * (z / d) + z % d;
    assert d * (x - z / d) == z % d - a;
    SmallMultiple(d, x - z / d);
  }

  /** A leading digit at or above the threshold, followed by the digits of the rest. */
  lemma VarDigitsCons(d: int, q: nat, k: int, bias: int)
    requires Threshold(k, bias) <= d < BASE
    ensures 0 <= d + (BASE - Threshold(k, bias)) * q
    ensures VarDigits(d + (BASE - Threshold(k, bias)) * q, k, bias) == [EncodeDigit(d)] + VarDigits(q, k + BASE, bias)
  {
    var t := Threshold(k, bias);
    var w := BASE - t;
    var x := w * q;
    MulNonNegative(w, q);
    DivMod(d - t, w, q);
    assert d + x - t == d - t + x;
  }

  lemma MulNonNegative(a: nat, b: nat)
    ensures a * b >= 0
  {
  }

  lemma LowerCons(e: seq<byte>, pos: nat, end: nat)
    requires pos < end <= |e|
    ensures LowerAll(e[pos..end]) == [Lower(e[pos])] + LowerAll(e[pos + 1..end])
  {
  }

  datatype Parsed = Bad | Parsed(i: nat, pos: nat)

  /** Reads one integer from e at pos, adding digit * w to i, with the 32-bit guards. */
  function ParseInt(e: seq<byte>, pos: nat, i: nat, w: nat, k: int, bias: int): (r: Parsed)
    requires i <= MAXINT && 0 < w <= MAXINT
    ensures r.Parsed? ==> pos < r.pos <= |e| && i <= r.i <= MAXINT
    decreases |e| - pos
  {
    if pos >= |e| then Bad
    else
      var d := DecodeDigit(e[pos]);
      if d < 0 || d > (MAXINT - i) / w then Bad
      else
        MulFits(d, w, MAXINT - i);
        var t := Threshold(k, bias);
        if d < t then Parsed(i + d * w, pos + 1)
        else if w > MAXINT / (BASE - t) then Bad
        else
          MulFits(w, BASE - t, MAXINT);
          ParseInt(e, pos + 1, i + d * w, w * (BASE - t), k + BASE, bias)
  }

  /** d <= m / w is the overflow-free way to ask whether d * w <= m. */
  lemma MulFits(d: nat, w: nat, m: nat)
    requires w > 0
    ensures d <= m / w <==> d * w <= m
    ensures d > 0 ==> d * w >= w
  {
    assert m == w * (m / w) + m % w;
    if d <= m / w {
      assert d * w <= (m / w) * w;
    } else {
      assert d * w >= (m / w + 1) * w;
    }
  }

  /** What ParseInt accepts is, up to letter case, the digits of the number it adds. */
  lemma {:induction false} ParseSound(e: seq<byte>, pos: nat, i: nat, w: nat, k: int, bias: int) returns (q: nat)
    requires i <= MAXINT && 0 < w <= MAXINT && ParseInt(e, pos, i, w, k, bias).Parsed?
    ensures var r := ParseInt(e, pos, i, w, k, bias);
      r.i == i + w * q && LowerAll(e[pos..r.pos]) == VarDigits(q, k, bias)
    decreases |e| - pos
  {
    var r := ParseInt(e, pos, i, w, k, bias);
    var d, t := DecodeDigit(e[pos]), Threshold(k, bias);
    DigitRoundTrip(d, e[pos]);
    LowerCons(e, pos, r.pos);
    MulFits(d, w, MAXINT - i);
    if d < t {
      q := d;
    } else {
      MulFits(w, BASE - t, MAXINT);
      var i', w' := i + d * w, w * (BASE - t);
      var q' := ParseSound(e, pos + 1, i', w', k + BASE, bias);
      VarDigitsCons(d, q', k, bias);
      Distribute(i, w, d, BASE - t, q');
      q := d + (BASE - t) * q';
    }
  }

  lemma Distribute(i: int, w: int, d: int, b: int, q: int)
    ensures i + w * (d + b * q) == i + d * w + (w * b) * q
  {
    assert w * (d + b * q) == w * d + w * (b * q);
    assert w * (b * q) == (w * b) * q;
  }

  function Pow35(n: nat): (w: nat)
    ensures w > 0
  {
    if n == 0 then 1 else 35 * Pow35(n - 1)
  }

  lemma Pow35Values()
    ensures Pow35(1) == 35 && Pow35(2) == 1225 && Pow35(3) == 42875 && Pow35(4) == 1500625
    ensures Pow35(5) == 52521875 && Pow35(6) == 1838265625
  {
    assert Pow35(3) == 42875;
    assert Pow35(5) == 52521875;
  }

  /** The largest bias Adapt can return. */
  const MAXBIAS := 213

  /** At place j the weight is at most 35^j until the threshold has reached its maximum. */
  ghost predicate WeightOk(w: int, j: nat, bias: int)
  {
    BASE * (j + 1) >= bias + TMAX || w <= Pow35(j)
  }

  lemma WeightStep(w: nat, j: nat, bias: int, d: nat, m: int)
    requires WeightOk(w, j, bias) && 0 < w && 0 <= bias <= MAXBIAS && m <= MAXINT
    requires d >= Threshold(BASE * (j + 1), bias) && d * w <= m
    ensures var t := Threshold(BASE * (j + 1), bias); w * (BASE - t) <= MAXINT && WeightOk(w * (BASE - t), j + 1, bias)
  {
    var t := Threshold(BASE * (j + 1), bias);
    if t == TMAX {
      assert d * w >= 26 * w;
    } else {
      Pow35Values();
      assert j <= 5;
      assert w * (BASE - t) <= w * 35;
      assert Pow35(j) * 35 == Pow35(j + 1);
      assert Pow35(j + 1) <= Pow35(6);
    }
  }

  lemma ParseStep(e: seq<byte>, pos: nat, i: nat, w: nat, k: int, bias: int, d: nat, i': nat, w': nat)
    requires pos < |e| && DecodeDigit(e[pos]) == d && i <= MAXINT && 0 < w <= MAXINT && i' <= MAXINT && 0 < w' <= MAXINT
    requires d >= Threshold(k, bias) && i' == i + d * w && w' == w * (BASE - Threshold(k, bias))
    ensures ParseInt(e, pos, i, w, k, bias) == ParseInt(e, pos + 1, i', w', k + BASE, bias)
  {
    MulFits(d, w, MAXINT - i);
    MulFits(w, BASE - Threshold(k, bias), MAXINT);
  }

  /** Splitting q into its lowest digit and the rest leaves the total unchanged. */
  lemma SplitTotal(i: nat, w: nat, q: nat, t: int)
    requires TMIN <= t <= TMAX && t <= q && 0 < w
    ensures var d, q' := t + (q - t) % (BASE - t), (q - t) / (BASE - t);
      && t <= d < BASE && 0 <= q' < q
      && i + d * w + (w * (BASE - t)) * q' == i + w * q && d * w >= 0 && (w * (BASE - t)) * q' >= 0
  {
    Quotient(q, t);
    var d, q' := t + (q - t) % (BASE - t), (q - t) / (BASE - t);
    Distribute(i, w, d, BASE - t, q');
    assert w * (BASE - t) >= 0;
  }

  /** The lowest digit d of q, what remains, and the sum and weight after d. */
  lemma SplitDigit(i: nat, w: nat, j: nat, bias: int, q: nat) returns (d: nat, q': nat, i': nat, w': nat)
    requires 0 < w <= MAXINT && 0 <= bias <= MAXBIAS && WeightOk(w, j, bias) && i + w * q <= MAXINT
    requires q >= Threshold(BASE * (j + 1), bias)
    ensures var t := Threshold(BASE * (j + 1), bias);
      && d == t + (q - t) % (BASE - t) && q' == (q - t) / (BASE - t) && i' == i + d * w && w' == w * (BASE - t)
      && t <= d < BASE && q' < q && i' <= MAXINT && 0 < w' <= MAXINT && WeightOk(w', j + 1, bias) && i' + w' * q' == i + w * q
  {
    var t := Threshold(BASE * (j + 1), bias);
    SplitTotal(i, w, q, t);
    d, q' := t + (q - t) % (BASE - t), (q - t) / (BASE - t);
    i', w' := i + d * w, w * (BASE - t);
    assert i' + w' * q' == i + w * q;
    Positive(w, BASE - t);
    WeightStep(w, j, bias, d, MAXINT);
  }

  lemma Positive(a: nat, b: nat)
    requires a > 0 && b > 0
    ensures a * b > 0
  {
  }

  /** The first byte is the lowest digit, and the others are those of the rest. */
  lemma FirstDigit(e: seq<byte>, pos: nat, end: nat, q: nat, k: int, bias: int, d: nat, q': nat)
    requires pos <= end <= |e| && LowerAll(e[pos..end]) == VarDigits(q, k, bias) && q >= Threshold(k, bias)
    requires var t := Threshold(k, bias); t <= d < BASE && d == t + (q - t) % (BASE - t) && q' == (q - t) / (BASE - t)
    ensures pos < end && DecodeDigit(e[pos]) == d && LowerAll(e[pos + 1..end]) == VarDigits(q', k + BASE, bias)
  {
    assert |LowerAll(e[pos..end])| > 0;
    LowerCons(e, pos, end);
    var rest := LowerAll(e[pos + 1..end]);
    assert [EncodeDigit(d)] + VarDigits(q', k + BASE, bias) == [Lower(e[pos])] + rest;
    assert ([Lower(e[pos])] + rest)[0] == Lower(e[pos]) && ([Lower(e[pos])] + rest)[1..] == rest;
    DigitRoundTrip(d, e[pos]);
  }

  /** Bytes that are, up to letter case, the digits of q are read back as q; no guard fires. */
  lemma {:induction false} ParseComplete(e: seq<byte>, pos: nat, i: nat, w: nat, j: nat, bias: int, q: nat, end: nat)
    requires 0 < w <= MAXINT && 0 <= bias <= MAXBIAS && WeightOk(w, j, bias)
    requires i + w * q <= MAXINT && i <= MAXINT
    requires pos <= end <= |e| && LowerAll(e[pos..end]) == VarDigits(q, BASE * (j + 1), bias)
    ensures ParseInt(e, pos, i, w, BASE * (j + 1), bias) == Parsed(i + w * q, end)
    decreases q
  {
    var k := BASE * (j + 1);
    var t := Threshold(k, bias);
    if q < t {
      ParseLast(e, pos, i, w, k, bias, q, end);
    } else {
      var d, q', i', w' := SplitDigit(i, w, j, bias, q);
      FirstDigit(e, pos, end, q, k, bias, d, q');
      ParseStep(e, pos, i, w, k, bias, d, i', w');
      ParseComplete(e, pos + 1, i', w', j + 1, bias, q', end);
    }
  }

  lemma ParseLast(e: seq<byte>, pos: nat, i: nat, w: nat, k: int, bias: int, q: nat, end: nat)
    requires 0 < w <= MAXINT && i + w * q <= MAXINT && i <= MAXINT && q < Threshold(k, bias)
    requires pos <= end <= |e| && LowerAll(e[pos..end]) == VarDigits(q, k, bias)
    ensures ParseInt(e, pos, i, w, k, bias) == Parsed(i + w * q, end)
  {
    assert |LowerAll(e[pos..end])| == 1;
    assert Lower(e[pos]) == LowerAll(e[pos..end])[0];
    DigitRoundTrip(q, e[pos]);
    MulFits(q, w, MAXINT - i);
  }
}
