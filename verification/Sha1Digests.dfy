/** SHA-1: the digest of a message in any pieces is the one the standard defines, on machines of either byte order. */
module Sha1Digests {
  import opened ShaPad
  import opened ShaStandard
  import opened ShaWords
  import opened ShaStream
  import opened Sha1Rounds
  import opened Sha1Stream

  const H1: seq<bv32> := [0x6745_2301, 0xefcd_ab89, 0x98ba_dcfe, 0x1032_5476, 0xc3d2_e1f0]

  /** The constants of section 4.2.1. */
  function RoundKey1(i: nat): bv32
  {
    if i < 20 then 0x5a82_7999 else if i < 40 then 0x6ed9_eba1 else if i < 60 then 0x8f1b_bcdc else 0xca62_c1d6
  }

  function Mix(a: bv32, b: bv32, c: bv32, d: bv32): bv32 { Rotl32(a ^ b ^ c ^ d, 1) }

  function Turn30(b: bv32): bv32 { Rotl32(b, 30) }

  /** The function of round i as the source computes it: f1, f2, f3, f4. */
  function SourceF(i: nat, b: bv32, c: bv32, d: bv32): bv32
  {
    if i < 20 then F1(b, c, d) else if i < 40 then Parity32(b, c, d) else if i < 60 then F3(b, c, d) else Parity32(b, c, d)
  }

  function SourceTemp(i: nat, a: bv32, b: bv32, c: bv32, d: bv32, e: bv32, w: bv32): bv32
  {
    SourceSum(Rotl32(a, 5), SourceF(i, b, c, d), e, w, RoundKey1(i))
  }

  function StandardTemp(i: nat, a: bv32, b: bv32, c: bv32, d: bv32, e: bv32, w: bv32): bv32
  {
    Temp(i, RoundKey1(i), a, b, c, d, e, w)
  }

  function SourceSum(a: bv32, f: bv32, e: bv32, w: bv32, k: bv32): bv32 { a + f + e + w + k }

  function StandardSum(a: bv32, f: bv32, e: bv32, k: bv32, w: bv32): bv32 { a + f + e + k + w }

  lemma SumsAgree(a: bv32, f: bv32, e: bv32, w: bv32, k: bv32)
    ensures SourceSum(a, f, e, w, k) == StandardSum(a, f, e, k, w)
  {
  }

  lemma FunctionsAgree(i: nat, b: bv32, c: bv32, d: bv32)
    ensures SourceF(i, b, c, d) == Ft(i, b, c, d)
  {
    F1Is(b, c, d);
    F3Is(b, c, d);
  }

  lemma TempsAgree(i: nat, a: bv32, b: bv32, c: bv32, d: bv32, e: bv32, w: bv32)
    ensures SourceTemp(i, a, b, c, d, e, w) == StandardTemp(i, a, b, c, d, e, w)
  {
    FunctionsAgree(i, b, c, d);
    Rotl32Is(a, 5);
    SumsAgree(Rotl32(a, 5), SourceF(i, b, c, d), e, w, RoundKey1(i));
  }

  const CORE1 := Core1(Mix, SourceTemp, Turn30, Add32)
  const STANDARD1 := Core1(Mixed, StandardTemp, Turned30, Add32)

  lemma Alike1()
    ensures Sha1Rounds.Alike(CORE1, STANDARD1)
  {
    forall i, a, b, c, d, e, w
      ensures CORE1.temp(i, a, b, c, d, e, w) == STANDARD1.temp(i, a, b, c, d, e, w)
    {
      TempsAgree(i, a, b, c, d, e, w);
    }
    forall x, y, z, w
      ensures CORE1.mix(x, y, z, w) == STANDARD1.mix(x, y, z, w)
    {
      Rotl32Is(x ^ y ^ z ^ w, 1);
    }
    forall x
      ensures CORE1.turn(x) == STANDARD1.turn(x)
    {
      Rotl32Is(x, 30);
    }
  }

  function KitOf(o: Core1<bv32>, little: bool): Kit1<bv32> { Kit1(o, Load4, Store32, little) }

  /** d is the digest that the standard defines: its bytes hold the words of the last hash value. */
  ghost predicate IsSha1(m: seq<byte>, d: seq<byte>)
  {
    |d| == 20 && WordsOf(Word32, 4, d) == HashOf1(STANDARD1, Word32, H1, StandardPad(m, 64, 56))
  }

  lemma AlikeStep<W(!new)>(k: Kit1<W>, j: Kit1<W>, state: seq<W>, block: seq<byte>)
    requires Sha1Rounds.Alike(k.o, j.o) && k.load == j.load
    ensures Sha1Stream.BlockStep(k, state, block) == Sha1Stream.BlockStep(j, state, block)
  {
    if Sha1Stream.Fits(k, state, block) {
      LoadCount(k.load, 4, block, 16);
      AlikeTransformed(k.o, j.o, state, LoadWords(k.load, 4, block));
    }
  }

  lemma {:induction false} AlikeFold<W(!new)>(k: Kit1<W>, j: Kit1<W>, b: nat, s: seq<W>, m: seq<byte>)
    requires Sha1Rounds.Alike(k.o, j.o) && k.load == j.load && b > 0
    ensures Fold(Block(k), b, s, m) == Fold(Block(j), b, s, m)
    decreases |m|
  {
    if |m| >= b {
      AlikeStep(k, j, s, m[..b]);
      AlikeFold(k, j, b, Block(k)(s, m[..b]), m[b..]);
    }
  }

  // ---- next to the standard's text ----

  lemma {:induction false} Prepared1Is<W>(o: Core1<W>, m: seq<W>, t: nat)
    requires |m| == 16
    ensures Sha1Rounds.Schedule(o, m, t) == Prepared1(o, m, t)
  {
    if t >= 16 {
      Prepared1Is(o, m, t - 3);
      Prepared1Is(o, m, t - 8);
      Prepared1Is(o, m, t - 14);
      Prepared1Is(o, m, t - 16);
    }
  }

  function Registers<W>(v: seq<W>): Regs5<W>
    requires |v| == 5
  {
    Regs5(v[0], v[1], v[2], v[3], v[4])
  }

  lemma {:induction false} Working1Is<W>(o: Core1<W>, h: seq<W>, m: seq<W>, t: nat)
    requires |h| == 5 && |m| == 16 && t <= 80
    ensures Sha1Rounds.Rounds(o, Registers(h), Sha1Rounds.Words(o, m, 80), t) == Registers(Working1(o, h, m, t))
  {
    if t > 0 {
      Working1Is(o, h, m, t - 1);
      Prepared1Is(o, m, t - 1);
    }
  }

  lemma Intermediate1Is<W>(o: Core1<W>, h: seq<W>, m: seq<W>)
    requires |h| == 5 && |m| == 16
    ensures Transformed(o, h, m) == Intermediate1(o, h, m)
  {
    Working1Is(o, h, m, 80);
  }

  /** Block after block from the front, or the last one after those before it. */
  lemma {:induction false} HashOf1Is<W>(k: Kit1<W>, word: seq<byte> -> W, init: seq<W>, p: seq<byte>)
    requires |init| == 5 && Rest(|p|, 64) == 0 && forall y :: k.load(y) == word(y)
    ensures Fold(Block(k), 64, init, p) == HashOf1(k.o, word, init, p)
    decreases |p|
  {
    if |p| >= 64 {
      var q, last := p[..|p| - 64], p[|p| - 64..];
      assert p == q + last;
      RestAdd(|q|, 64, 64);
      HashOf1Is(k, word, init, q);
      FoldOne(Block(k), 64, init, q, last);
      WordsFromBack(k.load, word, 4, last, 16);
      LoadCount(k.load, 4, last, 16);
      Intermediate1Is(k.o, Fold(Block(k), 64, init, q), LoadWords(k.load, 4, last));
    }
  }

  lemma HashOfBlocks(p: seq<byte>)
    requires Rest(|p|, 64) == 0
    ensures Fold(Block(KitOf(STANDARD1, false)), 64, H1, p) == HashOf1(STANDARD1, Word32, H1, p)
  {
    var k := KitOf(STANDARD1, false);
    forall y
      ensures k.load(y) == Word32(y)
    {
      Load4Is(y);
    }
    HashOf1Is(k, Word32, H1, p);
  }

  lemma Stored1(ws: seq<bv32>)
    ensures WordsOf(Word32, 4, StoreWords(Store32, ws)) == ws && |StoreWords(Store32, ws)| == |ws| * 4
  {
    forall x
      ensures |Store32(x)| == 4 && Word32(Store32(x)) == x
    {
      Store32Is(x);
    }
    StoredWords(Store32, Word32, 4, ws);
  }

  lemma Sha1Is(m: seq<byte>, little: bool)
    ensures IsSha1(m, StoreWords(Store32, Hash(Block(KitOf(CORE1, little)), B, T, H1, m)))
  {
    Alike1();
    PadSmall(m);
    PadLength(m, B, T);
    AlikeFold(KitOf(CORE1, little), KitOf(STANDARD1, false), B, H1, Pad(m, B, T));
    HashOfBlocks(StandardPad(m, B, T));
    Stored1(HashOf1(STANDARD1, Word32, H1, StandardPad(m, B, T)));
  }

  /** Whatever the pieces and the byte order of the machine, the twenty bytes written are the digest of the message. */
  method Sha1Pieces(pieces: seq<seq<byte>>, little: bool) returns (digest: seq<byte>)
    requires forall i :: 0 <= i < |pieces| ==> |pieces[i]| < WORD32
    ensures IsSha1(Joined(pieces), digest)
  {
    Sha1Is(Joined(pieces), little);
    digest := Run(KitOf(CORE1, little), Block(KitOf(CORE1, little)), H1, pieces);
  }
}
