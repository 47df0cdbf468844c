/** What RFC 4648 says of the encoding: the two alphabets and the groups of 24 bits, stated by their numbers. */
module Base64Standard {
  import opened Base64

  // Tables 1 and 2 of RFC 4648.

  const UPPER := "ABCDEFGHIJKLMNOPQRSTUVWXYZ"

  const LOWER := "abcdefghijklmnopqrstuvwxyz"

  const DIGITS := "0123456789"

  /** The character for a value. */
  function Letter(v: sextet, url: bool): char
  {
    if v < 26 then UPPER[v]
    else if v < 52 then LOWER[v - 26]
    else if v < 62 then DIGITS[v - 52]
    else (if url then "-_" else "+/")[v - 62]
  }

  lemma UpperIs(i: nat)
    requires i < 26
    ensures UPPER[i] as int == 65 + i
  {
  }

  lemma LowerIs(i: nat)
    requires i < 26
    ensures LOWER[i] as int == 97 + i
  {
  }

  lemma DigitIs(i: nat)
    requires i < 10
    ensures DIGITS[i] as int == 48 + i
  {
  }

  /** The encoder writes the letters of its table. */
  lemma EncodeCharIs(v: sextet, url: bool)
    ensures EncodeChar(v, url) == Letter(v, url) as int
  {
    if v < 26 {
      UpperIs(v);
    } else if v < 52 {
      LowerIs(v - 26);
    } else if v < 62 {
      DigitIs(v - 52);
    }
  }

  /** A byte has the value v if and only if it is the letter for v in one of the tables; otherwise it has none. */
  lemma DecodeCharIs(c: byte, v: sextet)
    ensures DecodeChar(c) == v <==> c == Letter(v, false) as int || c == Letter(v, true) as int
    ensures DecodeChar(c) == 65 <==> forall w: sextet, url :: c != Letter(w, url) as int
  {
    EncodeCharIs(v, false);
    EncodeCharIs(v, true);
    if DecodeChar(c) == 65 {
      forall w: sextet, url ensures c != Letter(w, url) as int { EncodeCharIs(w, url); }
    } else {
      var w: sextet := DecodeChar(c);
      EncodeCharIs(w, false);
      EncodeCharIs(w, true);
    }
  }

  // ---- groups ----

  /** The n numbers from i on, read as the digits of one. */
  function Number(s: seq<int>, base: int, i: nat, n: nat): int
    requires i + n <= |s|
  {
    if n == 0 then 0 else base * Number(s, base, i, n - 1) + s[i + n - 1]
  }

  lemma Numbers(s: seq<int>, base: int, i: nat, n: nat)
    requires i + n <= |s| && 1 <= n <= 4 && (base == 64 || base == 256)
    ensures n == 1 ==> Number(s, base, i, n) == s[i]
    ensures n == 2 ==> Number(s, base, i, n) == base * s[i] + s[i + 1]
    ensures n == 3 ==> Number(s, base, i, n) == base * (base * s[i] + s[i + 1]) + s[i + 2]
    ensures n == 4 ==> Number(s, base, i, n) == base * (base * (base * s[i] + s[i + 1]) + s[i + 2]) + s[i + 3]
  {
    if n > 1 {
      Numbers(s, base, i, n - 1);
    } else {
      assert Number(s, base, i, 0) == 0;
    }
  }

  lemma {:induction false} NumberFrom(s: seq<int>, base: int, before: seq<int>, i: nat, n: nat)
    requires i + n <= |s|
    ensures Number(before + s, base, i + |before|, n) == Number(s, base, i, n)
  {
    if n > 0 {
      NumberFrom(s, base, before, i, n - 1);
    }
  }

  lemma Repacked(x: int, y: int, z: int)
    requires 0 <= x < 256 && 0 <= y < 256 && 0 <= z < 256
    ensures 64 * (64 * (64 * (x / 4) + (x % 4 * 16 + y / 16)) + (y % 16 * 4 + z / 64)) + z % 64 == 256 * (256 * x + y) + z
  {
    assert x == 4 * (x / 4) + x % 4 && y == 16 * (y / 16) + y % 16 && z == 64 * (z / 64) + z % 64;
  }

  lemma FullGroup(b: seq<byte>, vs: seq<sextet>)
    requires |b| >= 3 && |vs| >= 4
    requires vs[0] == b[0] / 4 && vs[1] == b[0] % 4 * 16 + b[1] / 16 && vs[2] == b[1] % 16 * 4 + b[2] / 64 && vs[3] == b[2] % 64
    ensures Number(vs, 64, 0, 4) == Number(b, 256, 0, 3)
  {
    Numbers(vs, 64, 0, 4);
    Numbers(b, 256, 0, 3);
    Repacked(b[0], b[1], b[2]);
  }

  lemma LastGroup(b: seq<byte>)
    requires 1 <= |b| <= 2
    ensures |Sextets(b)| == |b| + 1 && Number(Sextets(b), 64, 0, |b| + 1) == Number(b, 256, 0, |b|) * if |b| == 1 then 16 else 4
  {
    var x: int := b[0];
    Numbers(Sextets(b), 64, 0, |b| + 1);
    Numbers(b, 256, 0, |b|);
    assert x == 4 * (x / 4) + x % 4;
    if |b| == 2 {
      var y: int := b[1];
      assert y == 16 * (y / 16) + y % 16;
    }
  }

  /** Each three bytes, read as a number of 24 bits, are the four sextets written for them; a last byte or two likewise, with
      zero bits added to make up the last sextet. */
  lemma {:induction false} GroupsAre(b: seq<byte>, k: nat)
    requires 3 * k < |b|
    ensures var vs, left := Sextets(b), |b| - 3 * k;
      if left >= 3 then |vs| >= 4 * k + 4 && Number(vs, 64, 4 * k, 4) == Number(b, 256, 3 * k, 3)
      else if left == 2 then |vs| == 4 * k + 3 && Number(vs, 64, 4 * k, 3) == Number(b, 256, 3 * k, 2) * 4
      else |vs| == 4 * k + 2 && Number(vs, 64, 4 * k, 2) == Number(b, 256, 3 * k, 1) * 16
  {
    if k > 0 {
      GroupsAre(b[3..], k - 1);
      var vs, left := Sextets(b[3..]), |b| - 3 * k;
      NumberFrom(vs, 64, Sextets3(b[0], b[1], b[2]), 4 * k - 4, if left >= 3 then 4 else left + 1);
      assert b[..3] + b[3..] == b;
      NumberFrom(b[3..], 256, b[..3], 3 * k - 3, if left >= 3 then 3 else left);
    } else if |b| >= 3 {
      FullGroup(b, Sextets(b));
    } else {
      LastGroup(b);
    }
  }

  // ---- decoding ----

  lemma SplitFirst(a: int, b: int)
    requires 0 <= a < 64 && 0 <= b < 64
    ensures (a * 4 + b / 16) % 256 == (64 * a + b) / 16 == a * 4 + b / 16
  {
  }

  lemma SplitSecond(b: int, c: int)
    requires 0 <= b < 64 && 0 <= c < 64
    ensures (b * 16 + c / 4) % 256 == b % 16 * 16 + c / 4
  {
    assert b * 16 + c / 4 == 256 * (b / 16) + (16 * (b % 16) + c / 4);
  }

  lemma SplitThird(c: int, d: int)
    requires 0 <= c < 64 && 0 <= d < 64
    ensures (c * 64 + d) % 256 == c % 4 * 64 + d
  {
    assert c * 64 + d == 256 * (c / 4) + (64 * (c % 4) + d);
  }

  lemma Joined(a: int, b: int, c: int, d: int)
    requires 0 <= a < 64 && 0 <= b < 64 && 0 <= c < 64 && 0 <= d < 64
    ensures var x, y, z := a * 4 + b / 16, b % 16 * 16 + c / 4, c % 4 * 64 + d;
      && 256 * (256 * x + y) + z == 64 * (64 * (64 * a + b) + c) + d
      && 256 * x + y == (64 * (64 * a + b) + c) / 4
  {
    assert b == 16 * (b / 16) + b % 16 && c == 4 * (c / 4) + c % 4;
  }

  lemma FirstBytes(vs: seq<sextet>)
    requires |vs| >= 2
    ensures Bytes(vs) != [] && (|vs| >= 3 ==> |Bytes(vs)| >= 2) && (|vs| >= 4 ==> |Bytes(vs)| >= 3)
    ensures |vs| == 2 ==> |Bytes(vs)| == 1 && Number(Bytes(vs), 256, 0, 1) == Number(vs, 64, 0, 2) / 16
    ensures |vs| == 3 ==> |Bytes(vs)| == 2 && Number(Bytes(vs), 256, 0, 2) == Number(vs, 64, 0, 3) / 4
    ensures |vs| >= 4 ==> Number(Bytes(vs), 256, 0, 3) == Number(vs, 64, 0, 4)
  {
    var n := if |vs| >= 4 then 4 else |vs|;
    Numbers(vs, 64, 0, n);
    Numbers(Bytes(vs), 256, 0, n - 1);
    var c: int, d: int := if n >= 3 then vs[2] else 0, if n >= 4 then vs[3] else 0;
    SplitFirst(vs[0], vs[1]);
    SplitSecond(vs[1], c);
    SplitThird(c, d);
    Joined(vs[0], vs[1], c, d);
  }

  /** Each four values that are read are three bytes; of a shorter rest, two values are one byte and three are two, whatever the
      bits that are left over, and one value is nothing. */
  lemma {:induction false} BytesAre(vs: seq<sextet>, k: nat)
    requires 4 * k < |vs|
    ensures var b, left := Bytes(vs), |vs| - 4 * k;
      if left >= 4 then |b| >= 3 * k + 3 && Number(b, 256, 3 * k, 3) == Number(vs, 64, 4 * k, 4)
      else if left == 3 then |b| == 3 * k + 2 && Number(b, 256, 3 * k, 2) == Number(vs, 64, 4 * k, 3) / 4
      else if left == 2 then |b| == 3 * k + 1 && Number(b, 256, 3 * k, 1) == Number(vs, 64, 4 * k, 2) / 16
      else |b| == 3 * k
  {
    if k > 0 {
      BytesAre(vs[4..], k - 1);
      var left := |vs| - 4 * k;
      assert vs[..4] + vs[4..] == vs;
      NumberFrom(vs[4..], 64, vs[..4], 4 * k - 4, if left >= 4 then 4 else left);
      NumberFrom(Bytes(vs[4..]), 256, [First(vs), Second(vs), Third(vs)], 3 * k - 3, if left >= 4 then 3 else left - 1);
    } else if |vs| >= 2 {
      FirstBytes(vs);
    }
  }

  // ---- the whole ----

  /** The text is the one that the standard prescribes for b: a letter for each sextet, and then the padding. */
  lemma EncodeIs(b: seq<byte>, url: bool)
    ensures var t, vs := Encode(b, url), Sextets(b);
      && (forall i :: 0 <= i < |vs| ==> t[i] == Letter(vs[i], url) as int) && (url ==> |t| == |vs|)
      && (!url ==> |t| == (|b| + 2) / 3 * 4 && forall i :: |vs| <= i < |t| ==> t[i] == '=' as int)
  {
    EncodeFits(b);
    forall i | 0 <= i < |Sextets(b)| ensures Encode(b, url)[i] == Letter(Sextets(b)[i], url) as int {
      EncodeCharIs(Sextets(b)[i], url);
    }
    SextetCount(b);
  }

  /** A sample of section 10 of RFC 4648. */
  lemma Foobar(b: seq<byte>, t: string)
    requires b == [102, 111, 111, 98, 97, 114] && t == "Zm9vYmFy"
    ensures |Encode(b, false)| == |t| && forall i :: 0 <= i < |t| ==> Encode(b, false)[i] == t[i] as int
  {
    assert b[3..] == [98, 97, 114] && b[3..][3..] == [];
    assert Sextets(b[3..]) == Sextets3(98, 97, 114) == [24, 38, 5, 50];
    assert Sextets(b) == Sextets3(102, 111, 111) + [24, 38, 5, 50] == [25, 38, 61, 47, 24, 38, 5, 50];
  }
}
