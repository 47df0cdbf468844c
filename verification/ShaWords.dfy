/**
  Words of 32 and 64 bits: the functions of section 4.1 of FIPS 180-4 as the source computes them, next to the
  standard's own forms, and words as bytes.
 */
module ShaWords {
  import opened ShaPad
  import opened ShaStandard

  // ---- 32 bits ----

  function Add32(x: bv32, y: bv32): bv32 { x + y }

  /** ROTR of section 3.2. */
  function Rot32(x: bv32, n: nat): bv32
    requires 0 < n < 32
  {
    (x >> n) | (x << (32 - n))
  }

  function Ch32(x: bv32, y: bv32, z: bv32): (r: bv32)
    ensures r == (x & y) ^ (!x & z)
  {
    z ^ (x & (y ^ z))
  }

  function Maj32(x: bv32, y: bv32, z: bv32): (r: bv32)
    ensures r == (x & y) ^ (x & z) ^ (y & z)
  {
    ((x | y) & z) | (x & y)
  }

  lemma Ch32Is(x: bv32, y: bv32, z: bv32)
    ensures Ch32(x, y, z) == Choose32(x, y, z)
  {
  }

  lemma Maj32Is(x: bv32, y: bv32, z: bv32)
    ensures Maj32(x, y, z) == Majority32(x, y, z)
  {
  }

  function BigSigma0(x: bv32): bv32 { Rot32(x, 2) ^ Rot32(x, 13) ^ Rot32(x, 22) }

  function BigSigma1(x: bv32): bv32 { Rot32(x, 6) ^ Rot32(x, 11) ^ Rot32(x, 25) }

  function SmallSigma0(x: bv32): bv32 { Rot32(x, 7) ^ Rot32(x, 18) ^ (x >> 3) }

  function SmallSigma1(x: bv32): bv32 { Rot32(x, 17) ^ Rot32(x, 19) ^ (x >> 10) }

  lemma BigSigma0Is(x: bv32)
    ensures BigSigma0(x) == Upper0(x)
  {
  }

  lemma BigSigma1Is(x: bv32)
    ensures BigSigma1(x) == Upper1(x)
  {
  }

  lemma SmallSigma0Is(x: bv32)
    ensures SmallSigma0(x) == Lower0(x)
  {
  }

  lemma SmallSigma1Is(x: bv32)
    ensures SmallSigma1(x) == Lower1(x)
  {
  }

  /** One bit, and where it goes. */
  lemma SigmaOfOne()
    ensures BigSigma0(1) == 0x4008_0400 && BigSigma1(1) == 0x0420_0080
    ensures SmallSigma0(1) == 0x0200_4000 && SmallSigma1(1) == 0x0000_a000
  {
  }

  /** Four bytes, most significant first. */
  function Load32(y: seq<byte>): bv32
    requires |y| == 4
  {
    (y[0].bits as bv32 << 24) | (y[1].bits as bv32 << 16) | (y[2].bits as bv32 << 8) | (y[3].bits as bv32 << 0)
  }

  function Store32(x: bv32): (y: seq<byte>)
    ensures |y| == 4
  {
    [Byte(((x >> 24) & 0xff) as bv8), Byte(((x >> 16) & 0xff) as bv8), Byte(((x >> 8) & 0xff) as bv8), Byte((x & 0xff) as bv8)]
  }

  lemma LoadStore32(x: bv32)
    ensures Load32(Store32(x)) == x
  {
  }

  lemma StoreLoad32(y: seq<byte>)
    requires |y| == 4
    ensures Store32(Load32(y)) == y
  {
  }

  // ---- 64 bits ----

  function Add64(x: bv64, y: bv64): bv64 { x + y }

  function Rot64(x: bv64, n: nat): bv64
    requires 0 < n < 64
  {
    (x >> n) | (x << (64 - n))
  }

  function Ch64(x: bv64, y: bv64, z: bv64): (r: bv64)
    ensures r == (x & y) ^ (!x & z)
  {
    z ^ (x & (y ^ z))
  }

  function Maj64(x: bv64, y: bv64, z: bv64): (r: bv64)
    ensures r == (x & y) ^ (x & z) ^ (y & z)
  {
    ((x | y) & z) | (x & y)
  }

  lemma Ch64Is(x: bv64, y: bv64, z: bv64)
    ensures Ch64(x, y, z) == Choose64(x, y, z)
  {
  }

  lemma Maj64Is(x: bv64, y: bv64, z: bv64)
    ensures Maj64(x, y, z) == Majority64(x, y, z)
  {
  }

  function BigSum0(x: bv64): bv64 { Rot64(x, 28) ^ Rot64(x, 34) ^ Rot64(x, 39) }

  function BigSum1(x: bv64): bv64 { Rot64(x, 14) ^ Rot64(x, 18) ^ Rot64(x, 41) }

  function SmallSum0(x: bv64): bv64 { Rot64(x, 1) ^ Rot64(x, 8) ^ (x >> 7) }

  function SmallSum1(x: bv64): bv64 { Rot64(x, 19) ^ Rot64(x, 61) ^ (x >> 6) }

  lemma BigSum0Is(x: bv64)
    ensures BigSum0(x) == Wide0(x)
  {
  }

  lemma BigSum1Is(x: bv64)
    ensures BigSum1(x) == Wide1(x)
  {
  }

  lemma SmallSum0Is(x: bv64)
    ensures SmallSum0(x) == Narrow0(x)
  {
  }

  lemma SmallSum1Is(x: bv64)
    ensures SmallSum1(x) == Narrow1(x)
  {
  }

  lemma SumOfOne()
    ensures BigSum0(1) == 0x0000_0010_4200_0000 && BigSum1(1) == 0x0004_4000_0080_0000
    ensures SmallSum0(1) == 0x8100_0000_0000_0000 && SmallSum1(1) == 0x0000_2000_0000_0008
  {
  }

  function Store64(x: bv64): (y: seq<byte>)
    ensures |y| == 8
  {
    [Byte(((x >> 56) & 0xff) as bv8), Byte(((x >> 48) & 0xff) as bv8), Byte(((x >> 40) & 0xff) as bv8), Byte(((x >> 32) & 0xff) as bv8),
     Byte(((x >> 24) & 0xff) as bv8), Byte(((x >> 16) & 0xff) as bv8), Byte(((x >> 8) & 0xff) as bv8), Byte((x & 0xff) as bv8)]
  }

  function Load64(y: seq<byte>): bv64
    requires |y| == 8
  {
    (y[0].bits as bv64 << 56) | (y[1].bits as bv64 << 48) | (y[2].bits as bv64 << 40) | (y[3].bits as bv64 << 32)
    | (y[4].bits as bv64 << 24) | (y[5].bits as bv64 << 16) | (y[6].bits as bv64 << 8) | (y[7].bits as bv64 << 0)
  }

  lemma LoadStore64(x: bv64)
    ensures Load64(Store64(x)) == x
  {
  }

  lemma StoreLoad64(y: seq<byte>)
    requires |y| == 8
    ensures Store64(Load64(y)) == y
  {
  }

  // ---- SHA-1 ----

  function F1(x: bv32, y: bv32, z: bv32): (r: bv32)
    ensures r == (x & y) ^ (!x & z)
  {
    (x & y) | (!x & z)
  }

  function F3(x: bv32, y: bv32, z: bv32): (r: bv32)
    ensures r == (x & y) ^ (x & z) ^ (y & z)
  {
    (x & y) | (x & z) | (y & z)
  }

  function Rotl32(x: bv32, n: nat): bv32
    requires 0 < n < 32
  {
    (x << n) | (x >> (32 - n))
  }

  lemma Rotl32Is(x: bv32, n: nat)
    requires 0 < n < 32
    ensures Rotl32(x, n) == RotL32(x, n)
  {
  }

  lemma F1Is(x: bv32, y: bv32, z: bv32)
    ensures F1(x, y, z) == Choose32(x, y, z)
  {
  }

  lemma F3Is(x: bv32, y: bv32, z: bv32)
    ensures F3(x, y, z) == Majority32(x, y, z)
  {
  }

  /** Reading a word, for any bytes. */
  function Load4(y: seq<byte>): bv32 { if |y| == 4 then Load32(y) else 0 }

  function Load8(y: seq<byte>): bv64 { if |y| == 8 then Load64(y) else 0 }

  // ---- next to the standard's words ----

  lemma Load4Is(y: seq<byte>)
    ensures Load4(y) == Word32(y)
  {
  }

  lemma Load8Is(y: seq<byte>)
    ensures Load8(y) == Word64(y)
  {
  }

  /** The bytes stored hold the word. */
  lemma Store32Is(x: bv32)
    ensures Word32(Store32(x)) == x
  {
    LoadStore32(x);
    Load4Is(Store32(x));
  }

  lemma Store64Is(x: bv64)
    ensures Word64(Store64(x)) == x
  {
    LoadStore64(x);
    Load8Is(Store64(x));
  }
}
