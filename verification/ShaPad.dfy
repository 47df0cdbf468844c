/** Hashing a message at one go: padding (section 5.1 of FIPS 180-4) and block after block (section 6). */
module ShaPad {
  import opened Common

  /** Eight bits. */
  datatype byte = Byte(bits: bv8)

  const ZERO := Byte(0)

  /** The end mark of the padding. */
  const MARK := Byte(0x80)

  const WORD64 := 0x1_0000_0000_0000_0000

  /** A block function and its block size. */
  type Compress<!S> = (S, seq<byte>) -> S

  /** The blocks of m, one after the other; an unfinished block at the end is left alone. */
  function Fold<S>(c: Compress<S>, b: nat, s: S, m: seq<byte>): S
    requires b > 0
    decreases |m|
  {
    if |m| < b then s else Fold(c, b, c(s, m[..b]), m[b..])
  }

  /** The bytes of an unfinished block after n bytes: n modulo b. */
  function Rest(n: nat, b: nat): (r: nat)
    requires b > 0
    ensures r < b
  {
    if n < b then n else Rest(n - b, b)
  }

  lemma {:induction false} RestAdd(n: nat, k: nat, b: nat)
    requires k <= b && b > 0
    ensures Rest(n + k, b) == if Rest(n, b) + k < b then Rest(n, b) + k else Rest(n, b) + k - b
  {
    if n >= b { RestAdd(n - b, k, b); }
  }

  lemma {:induction false} RestIsMod(n: nat, b: nat)
    requires b > 0
    ensures Rest(n, b) == n % b
  {
    if n < b {
      SmallMod(n, b);
    } else {
      RestIsMod(n - b, b);
      ModSub(n, b);
    }
  }

  lemma SmallMod(n: nat, b: nat)
    requires n < b
    ensures n % b == n
  {
  }

  lemma ModSub(n: nat, b: nat)
    requires 0 < b <= n
    ensures n % b == (n - b) % b
  {
    var q, r := (n - b) / b, (n - b) % b;
    assert n == (q + 1) * b + r;
    DivUnique(n, b, q + 1, r);
  }

  lemma DivUnique(n: nat, b: nat, q: nat, r: nat)
    requires b > 0 && r < b && n == q * b + r
    ensures n % b == r
  {
    var q', r' := n / b, n % b;
    assert n == q' * b + r';
    assert (q - q') * b == r' - r;
    SmallMultiple(b, q - q');
  }

  lemma {:induction false} FoldAppend<S>(c: Compress<S>, b: nat, s: S, m: seq<byte>, n: seq<byte>)
    requires b > 0 && Rest(|m|, b) == 0
    ensures Fold(c, b, s, m + n) == Fold(c, b, Fold(c, b, s, m), n)
    decreases |m|
  {
    if |m| < b {
      assert m + n == n;
    } else {
      assert (m + n)[..b] == m[..b] && (m + n)[b..] == m[b..] + n;
      FoldAppend(c, b, c(s, m[..b]), m[b..], n);
    }
  }

  lemma FoldOne<S>(c: Compress<S>, b: nat, s: S, m: seq<byte>, n: seq<byte>)
    requires b > 0 && Rest(|m|, b) == 0 && |n| == b
    ensures Fold(c, b, s, m + n) == c(Fold(c, b, s, m), n) && Rest(|m + n|, b) == 0
  {
    FoldAppend(c, b, s, m, n);
    RestAdd(|m|, b, b);
    assert n[..b] == n && n[b..] == [];
  }

  function LowByte(n: nat): byte { Byte((n % 256) as bv8) }

  /** n in k bytes, most significant first. */
  function BigEndian(n: nat, k: nat): (r: seq<byte>)
    ensures |r| == k
  {
    if k == 0 then [] else BigEndian(n / 256, k - 1) + [LowByte(n)]
  }

  function Pow256(k: nat): (p: nat)
    ensures p > 0
  {
    if k == 0 then 1 else 256 * Pow256(k - 1)
  }

  /** The i-th byte from the end is the number shifted right by i bytes. */
  lemma {:induction false} BigEndianAt(n: nat, k: nat, i: nat)
    requires i < k
    ensures 0 <= n / Pow256(i) && BigEndian(n, k)[k - 1 - i] == LowByte(n / Pow256(i))
  {
    if i > 0 {
      BigEndianAt(n / 256, k - 1, i - 1);
      DivTwice(n, Pow256(i - 1));
    }
  }

  lemma DivTwice(n: nat, b: nat)
    requires b > 0
    ensures n / 256 / b == n / (256 * b)
  {
    var q, r := n / 256, n % 256;
    var q', r' := q / b, q % b;
    var x := q' * b;
    assert q == x + r';
    MulAssoc(q', b);
    assert n == q' * (256 * b) + (256 * r' + r);
    QuotientUnique(n, 256 * b, q', 256 * r' + r);
  }

  lemma MulAssoc(q: nat, b: nat)
    ensures q * (256 * b) == 256 * (q * b)
  {
  }

  lemma QuotientUnique(n: nat, d: nat, q: nat, r: nat)
    requires r < d && n == q * d + r
    ensures n / d == q
  {
    DivUnique(n, d, q, r);
    var q' := n / d;
    assert n == q' * d + n % d;
    assert (q - q') * d == 0;
    SmallMultiple(d, q - q');
  }

  /** Leading bytes of a number that does not need them are zero. */
  lemma {:induction false} BigEndianWide(n: nat, k: nat, j: nat)
    requires n < Pow256(k)
    ensures BigEndian(n, j + k) == Zeros(j) + BigEndian(n, k)
  {
    if k == 0 {
      BigEndianZero(j);
      assert Zeros(j) + [] == Zeros(j);
    } else {
      BigEndianWide(n / 256, k - 1, j);
    }
  }

  lemma {:induction false} BigEndianZero(j: nat)
    ensures BigEndian(0, j) == Zeros(j)
  {
    if j > 0 {
      BigEndianZero(j - 1);
    }
  }

  lemma ByteStep(x: nat, lo: nat)
    ensures (256 * x + lo) / 256 == x + lo / 256 && (256 * x + lo) % 256 == lo % 256
  {
  }

  /** The low bytes and the high bytes of a number. */
  lemma {:induction false} BigEndianJoin(hi: nat, lo: nat, j: nat, k: nat)
    requires lo < Pow256(k)
    ensures BigEndian(hi * Pow256(k) + lo, j + k) == BigEndian(hi, j) + BigEndian(lo, k)
  {
    if k == 0 {
      assert BigEndian(hi, j) + [] == BigEndian(hi, j);
    } else {
      var x := hi * Pow256(k - 1);
      MulAssoc(hi, Pow256(k - 1));
      ByteStep(x, lo);
      BigEndianJoin(hi, lo / 256, j, k - 1);
      JoinLast(256 * x + lo, lo, j, k, BigEndian(hi, j));
    }
  }

  lemma JoinLast(n: nat, lo: nat, j: nat, k: nat, high: seq<byte>)
    requires k > 0 && n % 256 == lo % 256 && BigEndian(n / 256, j + k - 1) == high + BigEndian(lo / 256, k - 1)
    ensures BigEndian(n, j + k) == high + BigEndian(lo, k)
  {
  }

  lemma Pow256Eight()
    ensures Pow256(8) == WORD64
  {
    assert Pow256(2) == 0x1_0000;
    assert Pow256(4) == 0x1_0000_0000;
    assert Pow256(6) == 0x1_0000_0000_0000;
  }

  function Zeros(n: nat): (r: seq<byte>)
    ensures |r| == n
  {
    seq(n, i => ZERO)
  }

  /** How many zeros make a message of len bytes and the end mark end at t modulo b. */
  function ZeroCount(len: nat, b: nat, t: nat): (k: nat)
    requires 0 < t < b
    ensures k < b && Rest(len + 1 + k, b) == t
  {
    var r := Rest(len + 1, b);
    var k := if r <= t then t - r else b + t - r;
    RestAdd(len + 1, k, b);
    k
  }

  /** The length in bits of n bytes, as 64 bits keep it. */
  function Bits(n: nat): (r: nat)
    ensures r < WORD64
  {
    if n == 0 then 0 else Wrap(Bits(n - 1) + 8)
  }

  function Wrap(x: nat): (r: nat)
    requires x < 2 * WORD64
    ensures r < WORD64
  {
    if x < WORD64 then x else x - WORD64
  }

  lemma {:induction false} BitsIs(n: nat)
    ensures Bits(n) == 8 * n % WORD64
  {
    if n > 0 {
      BitsIs(n - 1);
      NextBits(n - 1);
    }
  }

  lemma SmallBits(n: nat)
    requires 8 * n < WORD64
    ensures Bits(n) == 8 * n
  {
    BitsIs(n);
  }

  lemma NextBits(n: nat)
    ensures 8 * (n + 1) % WORD64 == Wrap(8 * n % WORD64 + 8)
  {
    var q, r := 8 * n / WORD64, 8 * n % WORD64;
    assert 8 * (n + 1) == q * WORD64 + (r + 8);
  }

  lemma BitsAdd(n: nat, k: nat)
    ensures (Bits(n) + 8 * k) % WORD64 == Bits(n + k)
  {
    BitsIs(n);
    BitsIs(n + k);
    ModAdd(8 * n, 8 * k);
  }

  lemma ModAdd(a: nat, b: nat)
    ensures (a % WORD64 + b) % WORD64 == (a + b) % WORD64
  {
    var q, r := a / WORD64, a % WORD64;
    assert a + b == q * WORD64 + (r + b);
  }

  /** The padded message: the end mark, zeros up to t, and the length in bits in the b - t bytes left. */
  function Pad(m: seq<byte>, b: nat, t: nat): (p: seq<byte>)
    requires 0 < t < b
  {
    m + [MARK] + Zeros(ZeroCount(|m|, b, t)) + BigEndian(Bits(|m|), b - t)
  }

  /** The bits of a small number. */
  function BitsOf(x: nat): (b: bv8)
    requires x < 256
    ensures b as int == x
  {
    if x == 0 then 0 else BitsOf(x - 1) + 1
  }

  lemma SameBits(b: bv8)
    ensures (b as int) as bv8 == b
  {
  }

  lemma ByteBack(x: nat)
    requires x < 256
    ensures (x as bv8) as int == x
  {
    SameBits(BitsOf(x));
  }

  lemma LowByteTells(a: nat, b: nat)
    requires LowByte(a) == LowByte(b)
    ensures a % 256 == b % 256
  {
    ByteBack(a % 256);
    ByteBack(b % 256);
  }

  lemma {:induction false} BigEndianTells(a: nat, b: nat, k: nat)
    requires a < Pow256(k) && b < Pow256(k) && BigEndian(a, k) == BigEndian(b, k)
    ensures a == b
  {
    if k > 0 {
      var s, t := BigEndian(a, k), BigEndian(b, k);
      assert s[..k - 1] == BigEndian(a / 256, k - 1) && t[..k - 1] == BigEndian(b / 256, k - 1);
      assert s[k - 1] == LowByte(a) && t[k - 1] == LowByte(b);
      LowByteTells(a, b);
      BigEndianTells(a / 256, b / 256, k - 1);
    }
  }

  /** The padded message of the standard, with the whole length in its last b - t bytes. */
  function StandardPad(m: seq<byte>, b: nat, t: nat): (p: seq<byte>)
    requires 0 < t < b
  {
    m + [MARK] + Zeros(ZeroCount(|m|, b, t)) + BigEndian(8 * |m|, b - t)
  }

  lemma SameField(a: seq<byte>, x: seq<byte>, y: seq<byte>)
    requires a + x == a + y
    ensures x == y
  {
    assert x == (a + x)[|a|..] && y == (a + y)[|a|..];
  }

  /** A length that does not fit the field loses its high bytes in the standard's field of eight bytes as well. */
  lemma Field8(n: nat)
    ensures BigEndian(n % WORD64, 8) == BigEndian(n, 8)
  {
    Pow256Eight();
    BigEndianJoin(n / WORD64, n % WORD64, 0, 8);
    assert [] + BigEndian(n % WORD64, 8) == BigEndian(n % WORD64, 8);
  }

  /** Blocks of 64 bytes: the padding is the standard's. */
  lemma PadSmall(m: seq<byte>)
    ensures Pad(m, 64, 56) == StandardPad(m, 64, 56)
  {
    BitsIs(|m|);
    Field8(8 * |m|);
  }

  lemma WideField(n: nat, k: nat)
    requires n < Pow256(k)
    ensures BigEndian(n % WORD64, k) == BigEndian(n, k) <==> n < WORD64
  {
    if BigEndian(n % WORD64, k) == BigEndian(n, k) {
      BigEndianTells(n % WORD64, n, k);
    }
  }

  /** The code keeps 64 bits of the length, so with a wider field that the length fits, as with blocks of 128 bytes,
      the padding is the standard's exactly for messages of less than 2^64 bits. */
  lemma PadWide(m: seq<byte>, b: nat, t: nat)
    requires 0 < t < b && 8 * |m| < Pow256(b - t)
    ensures Pad(m, b, t) == StandardPad(m, b, t) <==> 8 * |m| < WORD64
  {
    var n := 8 * |m|;
    BitsIs(|m|);
    WideField(n, b - t);
    if Pad(m, b, t) == StandardPad(m, b, t) {
      SameField(m + [MARK] + Zeros(ZeroCount(|m|, b, t)), BigEndian(n % WORD64, b - t), BigEndian(n, b - t));
    }
  }

  /** The padding fills a whole number of blocks and adds less than one block and the length. */
  lemma PadLength(m: seq<byte>, b: nat, t: nat)
    requires 0 < t < b
    ensures Rest(|Pad(m, b, t)|, b) == 0 && |Pad(m, b, t)| <= |m| + b + (b - t)
  {
    RestAdd(|m| + 1 + ZeroCount(|m|, b, t), b - t, b);
  }

  function Hash<S>(c: Compress<S>, b: nat, t: nat, init: S, m: seq<byte>): S
    requires 0 < t < b
  {
    Fold(c, b, init, Pad(m, b, t))
  }
}
