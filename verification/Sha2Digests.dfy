/** SHA-256 and SHA-512: the digest of a message in any pieces is the one the standard defines. */
module Sha2Digests {
  import opened ShaPad
  import opened ShaStandard
  import opened ShaWords
  import opened ShaRounds
  import opened ShaStream
  import opened Sha2Stream

  // ---- constants of sections 4.2 and 5.3 of FIPS 180-4 ----

  const H256: seq<bv32> := [
    0x6a09_e667, 0xbb67_ae85, 0x3c6e_f372, 0xa54f_f53a,
    0x510e_527f, 0x9b05_688c, 0x1f83_d9ab, 0x5be0_cd19]

  const H512: seq<bv64> := [
    0x6a09_e667_f3bc_c908, 0xbb67_ae85_84ca_a73b, 0x3c6e_f372_fe94_f82b, 0xa54f_f53a_5f1d_36f1,
    0x510e_527f_ade6_82d1, 0x9b05_688c_2b3e_6c1f, 0x1f83_d9ab_fb41_bd6b, 0x5be0_cd19_137e_2179]

  /** The constants, eight at a time. */
  function KeyRow256(r: nat): (row: seq<nat>)
    ensures |row| == 8 && forall j :: 0 <= j < 8 ==> row[j] < 0x1_0000_0000
  {
    match r
    case 0 => [0x428a_2f98, 0x7137_4491, 0xb5c0_fbcf, 0xe9b5_dba5,
               0x3956_c25b, 0x59f1_11f1, 0x923f_82a4, 0xab1c_5ed5]
    case 1 => [0xd807_aa98, 0x1283_5b01, 0x2431_85be, 0x550c_7dc3,
               0x72be_5d74, 0x80de_b1fe, 0x9bdc_06a7, 0xc19b_f174]
    case 2 => [0xe49b_69c1, 0xefbe_4786, 0x0fc1_9dc6, 0x240c_a1cc,
               0x2de9_2c6f, 0x4a74_84aa, 0x5cb0_a9dc, 0x76f9_88da]
    case 3 => [0x983e_5152, 0xa831_c66d, 0xb003_27c8, 0xbf59_7fc7,
               0xc6e0_0bf3, 0xd5a7_9147, 0x06ca_6351, 0x1429_2967]
    case 4 => [0x27b7_0a85, 0x2e1b_2138, 0x4d2c_6dfc, 0x5338_0d13,
               0x650a_7354, 0x766a_0abb, 0x81c2_c92e, 0x9272_2c85]
    case 5 => [0xa2bf_e8a1, 0xa81a_664b, 0xc24b_8b70, 0xc76c_51a3,
               0xd192_e819, 0xd699_0624, 0xf40e_3585, 0x106a_a070]
    case 6 => [0x19a4_c116, 0x1e37_6c08, 0x2748_774c, 0x34b0_bcb5,
               0x391c_0cb3, 0x4ed8_aa4a, 0x5b9c_ca4f, 0x682e_6ff3]
    case _ => [0x748f_82ee, 0x78a5_636f, 0x84c8_7814, 0x8cc7_0208,
               0x90be_fffa, 0xa450_6ceb, 0xbef9_a3f7, 0xc671_78f2]
  }

  function KeyNumber256(i: nat): (k: nat)
    ensures k < 0x1_0000_0000
  {
    if i < 64 then KeyRow256(i / 8)[i % 8] else 0
  }

  function RoundKey256(i: nat): bv32 { KeyNumber256(i) as bv32 }

  /** The constants, four at a time. */
  function KeyRow512(r: nat): (row: seq<nat>)
    ensures |row| == 4 && forall j :: 0 <= j < 4 ==> row[j] < 0x1_0000_0000_0000_0000
  {
    match r
    case 0 => [0x428a_2f98_d728_ae22, 0x7137_4491_23ef_65cd, 0xb5c0_fbcf_ec4d_3b2f, 0xe9b5_dba5_8189_dbbc]
    case 1 => [0x3956_c25b_f348_b538, 0x59f1_11f1_b605_d019, 0x923f_82a4_af19_4f9b, 0xab1c_5ed5_da6d_8118]
    case 2 => [0xd807_aa98_a303_0242, 0x1283_5b01_4570_6fbe, 0x2431_85be_4ee4_b28c, 0x550c_7dc3_d5ff_b4e2]
    case 3 => [0x72be_5d74_f27b_896f, 0x80de_b1fe_3b16_96b1, 0x9bdc_06a7_25c7_1235, 0xc19b_f174_cf69_2694]
    case 4 => [0xe49b_69c1_9ef1_4ad2, 0xefbe_4786_384f_25e3, 0x0fc1_9dc6_8b8c_d5b5, 0x240c_a1cc_77ac_9c65]
    case 5 => [0x2de9_2c6f_592b_0275, 0x4a74_84aa_6ea6_e483, 0x5cb0_a9dc_bd41_fbd4, 0x76f9_88da_8311_53b5]
    case 6 => [0x983e_5152_ee66_dfab, 0xa831_c66d_2db4_3210, 0xb003_27c8_98fb_213f, 0xbf59_7fc7_beef_0ee4]
    case 7 => [0xc6e0_0bf3_3da8_8fc2, 0xd5a7_9147_930a_a725, 0x06ca_6351_e003_826f, 0x1429_2967_0a0e_6e70]
    case 8 => [0x27b7_0a85_46d2_2ffc, 0x2e1b_2138_5c26_c926, 0x4d2c_6dfc_5ac4_2aed, 0x5338_0d13_9d95_b3df]
    case 9 => [0x650a_7354_8baf_63de, 0x766a_0abb_3c77_b2a8, 0x81c2_c92e_47ed_aee6, 0x9272_2c85_1482_353b]
    case 10 => [0xa2bf_e8a1_4cf1_0364, 0xa81a_664b_bc42_3001, 0xc24b_8b70_d0f8_9791, 0xc76c_51a3_0654_be30]
    case 11 => [0xd192_e819_d6ef_5218, 0xd699_0624_5565_a910, 0xf40e_3585_5771_202a, 0x106a_a070_32bb_d1b8]
    case 12 => [0x19a4_c116_b8d2_d0c8, 0x1e37_6c08_5141_ab53, 0x2748_774c_df8e_eb99, 0x34b0_bcb5_e19b_48a8]
    case 13 => [0x391c_0cb3_c5c9_5a63, 0x4ed8_aa4a_e341_8acb, 0x5b9c_ca4f_7763_e373, 0x682e_6ff3_d6b2_b8a3]
    case 14 => [0x748f_82ee_5def_b2fc, 0x78a5_636f_4317_2f60, 0x84c8_7814_a1f0_ab72, 0x8cc7_0208_1a64_39ec]
    case 15 => [0x90be_fffa_2363_1e28, 0xa450_6ceb_de82_bde9, 0xbef9_a3f7_b2c6_7915, 0xc671_78f2_e372_532b]
    case 16 => [0xca27_3ece_ea26_619c, 0xd186_b8c7_21c0_c207, 0xeada_7dd6_cde0_eb1e, 0xf57d_4f7f_ee6e_d178]
    case 17 => [0x06f0_67aa_7217_6fba, 0x0a63_7dc5_a2c8_98a6, 0x113f_9804_bef9_0dae, 0x1b71_0b35_131c_471b]
    case 18 => [0x28db_77f5_2304_7d84, 0x32ca_ab7b_40c7_2493, 0x3c9e_be0a_15c9_bebc, 0x431d_67c4_9c10_0d4c]
    case _ => [0x4cc5_d4be_cb3e_42b6, 0x597f_299c_fc65_7e2a, 0x5fcb_6fab_3ad6_faec, 0x6c44_198c_4a47_5817]
  }

  function KeyNumber512(i: nat): (k: nat)
    ensures k < 0x1_0000_0000_0000_0000
  {
    if i < 80 then KeyRow512(i / 4)[i % 4] else 0
  }

  function RoundKey512(i: nat): bv64 { KeyNumber512(i) as bv64 }

  // ---- the kits: as the source computes, and as the standard states ----

  const CORE256 := Core(Add32, BigSigma0, BigSigma1, SmallSigma0, SmallSigma1, Ch32, Maj32, RoundKey256)
  const STANDARD256 := Core(Add32, Upper0, Upper1, Lower0, Lower1, Choose32, Majority32, RoundKey256)
  const CORE512 := Core(Add64, BigSum0, BigSum1, SmallSum0, SmallSum1, Ch64, Maj64, RoundKey512)
  const STANDARD512 := Core(Add64, Wide0, Wide1, Narrow0, Narrow1, Choose64, Majority64, RoundKey512)

  function Kit256(o: Core<bv32>): Kit<bv32> { Kit(o, Load4, Store32, 4, 64, false) }

  function Kit512(o: Core<bv64>): Kit<bv64> { Kit(o, Load8, Store64, 8, 80, true) }

  /** d is the digest that the standard defines: its bytes hold the words of the last hash value. */
  ghost predicate IsSha256(m: seq<byte>, d: seq<byte>)
  {
    |d| == 32 && WordsOf(Word32, 4, d) == HashOf(STANDARD256, Word32, 4, 64, 64, H256, StandardPad(m, 64, 56))
  }

  ghost predicate IsSha512(m: seq<byte>, d: seq<byte>)
  {
    |d| == 64 && WordsOf(Word64, 8, d) == HashOf(STANDARD512, Word64, 8, 80, 128, H512, StandardPad(m, 128, 112))
  }

  lemma Alike256()
    ensures Alike(CORE256, STANDARD256)
  {
    forall x, y, z
      ensures CORE256.ch(x, y, z) == STANDARD256.ch(x, y, z) && CORE256.maj(x, y, z) == STANDARD256.maj(x, y, z)
    {
      Ch32Is(x, y, z);
      Maj32Is(x, y, z);
    }
    forall x
      ensures CORE256.sum0(x) == STANDARD256.sum0(x) && CORE256.sum1(x) == STANDARD256.sum1(x)
      ensures CORE256.small0(x) == STANDARD256.small0(x) && CORE256.small1(x) == STANDARD256.small1(x)
    {
      BigSigma0Is(x);
      BigSigma1Is(x);
      SmallSigma0Is(x);
      SmallSigma1Is(x);
    }
  }

  lemma Alike512()
    ensures Alike(CORE512, STANDARD512)
  {
    forall x, y, z
      ensures CORE512.ch(x, y, z) == STANDARD512.ch(x, y, z) && CORE512.maj(x, y, z) == STANDARD512.maj(x, y, z)
    {
      Ch64Is(x, y, z);
      Maj64Is(x, y, z);
    }
    forall x
      ensures CORE512.sum0(x) == STANDARD512.sum0(x) && CORE512.sum1(x) == STANDARD512.sum1(x)
      ensures CORE512.small0(x) == STANDARD512.small0(x) && CORE512.small1(x) == STANDARD512.small1(x)
    {
      BigSum0Is(x);
      BigSum1Is(x);
      SmallSum0Is(x);
      SmallSum1Is(x);
    }
  }

  lemma AlikeStep<W(!new)>(k: Kit<W>, o: Core<W>, state: seq<W>, block: seq<byte>)
    requires Alike(k.o, o)
    ensures BlockStep(k, state, block) == BlockStep(k.(o := o), state, block)
  {
    if Fits(k, state, block) {
      LoadCount(k.load, k.width, block, 16);
      AlikeCompressed(k.o, o, state, LoadWords(k.load, k.width, block), k.rounds);
    }
  }

  lemma {:induction false} AlikeFold<W(!new)>(k: Kit<W>, o: Core<W>, b: nat, s: seq<W>, m: seq<byte>)
    requires Alike(k.o, o) && b > 0
    ensures Fold(Block(k), b, s, m) == Fold(Block(k.(o := o)), b, s, m)
    decreases |m|
  {
    if |m| >= b {
      AlikeStep(k, o, s, m[..b]);
      AlikeFold(k, o, b, Block(k)(s, m[..b]), m[b..]);
    }
  }

  /** A kit that computes the same word functions gives the same digests. */
  lemma AlikeDigest<W(!new)>(k: Kit<W>, o: Core<W>, b: nat, t: nat, init: seq<W>, m: seq<byte>)
    requires Alike(k.o, o) && 0 < t < b
    ensures Digest(k, b, t, init, m) == Digest(k.(o := o), b, t, init, m)
  {
    AlikeFold(k, o, b, init, Pad(m, b, t));
  }

  // ---- next to the standard's text ----

  lemma {:induction false} PreparedIs<W>(o: Core<W>, m: seq<W>, t: nat)
    requires |m| == 16
    ensures Schedule(o, m, t) == Prepared(o, m, t)
  {
    if t >= 16 {
      PreparedIs(o, m, t - 2);
      PreparedIs(o, m, t - 7);
      PreparedIs(o, m, t - 15);
      PreparedIs(o, m, t - 16);
    }
  }

  lemma {:induction false} WorkingIs<W>(o: Core<W>, h: seq<W>, m: seq<W>, n: nat, t: nat)
    requires |h| == 8 && |m| == 16 && t <= n
    ensures Rounds(o, View(h, 0), Words(o, m, n), t) == View(Working(o, h, m, t), 0)
  {
    if t > 0 {
      WorkingIs(o, h, m, n, t - 1);
      PreparedIs(o, m, t - 1);
    }
  }

  lemma IntermediateIs<W>(o: Core<W>, h: seq<W>, m: seq<W>, n: nat)
    requires |h| == 8 && |m| == 16
    ensures Compressed(o, h, m, n) == Intermediate(o, h, m, n)
  {
    WorkingIs(o, h, m, n, n);
  }

  /** Block after block from the front, or the last one after those before it. */
  lemma {:induction false} HashOfIs<W>(k: Kit<W>, word: seq<byte> -> W, b: nat, init: seq<W>, p: seq<byte>)
    requires k.width > 0 && b == 16 * k.width && |init| == 8 && Rest(|p|, b) == 0 && forall y :: k.load(y) == word(y)
    ensures Fold(Block(k), b, init, p) == HashOf(k.o, word, k.width, k.rounds, b, init, p)
    decreases |p|
  {
    if |p| >= b {
      var q, last := p[..|p| - b], p[|p| - b..];
      assert p == q + last;
      RestAdd(|q|, b, b);
      HashOfIs(k, word, b, init, q);
      FoldOne(Block(k), b, init, q, last);
      WordsFromBack(k.load, word, k.width, last, 16);
      LoadCount(k.load, k.width, last, 16);
      IntermediateIs(k.o, Fold(Block(k), b, init, q), LoadWords(k.load, k.width, last), k.rounds);
    }
  }

  // ---- any pieces ----

  lemma HashOf256(p: seq<byte>)
    requires Rest(|p|, 64) == 0
    ensures Fold(Block(Kit256(STANDARD256)), 64, H256, p) == HashOf(STANDARD256, Word32, 4, 64, 64, H256, p)
  {
    var k := Kit256(STANDARD256);
    forall y
      ensures k.load(y) == Word32(y)
    {
      Load4Is(y);
    }
    HashOfIs(k, Word32, 64, H256, p);
  }

  lemma Stored256(ws: seq<bv32>)
    ensures WordsOf(Word32, 4, StoreWords(Store32, ws)) == ws && |StoreWords(Store32, ws)| == |ws| * 4
  {
    forall x
      ensures |Store32(x)| == 4 && Word32(Store32(x)) == x
    {
      Store32Is(x);
    }
    StoredWords(Store32, Word32, 4, ws);
  }

  lemma Sha256Is(m: seq<byte>)
    ensures IsSha256(m, Digest(Kit256(CORE256), 64, 56, H256, m))
  {
    Alike256();
    AlikeDigest(Kit256(CORE256), STANDARD256, 64, 56, H256, m);
    PadSmall(m);
    PadLength(m, 64, 56);
    HashOf256(StandardPad(m, 64, 56));
    Stored256(HashOf(STANDARD256, Word32, 4, 64, 64, H256, StandardPad(m, 64, 56)));
  }

  lemma ShortEnough(m: seq<byte>, b: nat, t: nat)
    requires 0 < t < b && 8 * |m| < WORD64
    ensures Pad(m, b, t) == StandardPad(m, b, t)
  {
    SmallBits(|m|);
  }

  lemma HashOf512(p: seq<byte>)
    requires Rest(|p|, 128) == 0
    ensures Fold(Block(Kit512(STANDARD512)), 128, H512, p) == HashOf(STANDARD512, Word64, 8, 80, 128, H512, p)
  {
    var k := Kit512(STANDARD512);
    forall y
      ensures k.load(y) == Word64(y)
    {
      Load8Is(y);
    }
    HashOfIs(k, Word64, 128, H512, p);
  }

  lemma Stored512(ws: seq<bv64>)
    ensures WordsOf(Word64, 8, StoreWords(Store64, ws)) == ws && |StoreWords(Store64, ws)| == |ws| * 8
  {
    forall x
      ensures |Store64(x)| == 8 && Word64(Store64(x)) == x
    {
      Store64Is(x);
    }
    StoredWords(Store64, Word64, 8, ws);
  }

  lemma Sha512Is(m: seq<byte>)
    requires 8 * |m| < WORD64
    ensures IsSha512(m, Digest(Kit512(CORE512), 128, 112, H512, m))
  {
    Alike512();
    AlikeDigest(Kit512(CORE512), STANDARD512, 128, 112, H512, m);
    ShortEnough(m, 128, 112);
    PadLength(m, 128, 112);
    HashOf512(StandardPad(m, 128, 112));
    Stored512(HashOf(STANDARD512, Word64, 8, 80, 128, H512, StandardPad(m, 128, 112)));
  }

  /** SHA-256: whatever the pieces, the bytes written are the digest of the message they make up. */
  method Sha256Pieces(pieces: seq<seq<byte>>) returns (digest: seq<byte>)
    ensures IsSha256(Joined(pieces), digest)
  {
    Sha256Is(Joined(pieces));
    digest := DigestPieces(Kit256(CORE256), Block(Kit256(CORE256)), 64, 56, H256, pieces);
  }

  /** SHA-512: the same, for messages whose length in bits fits the 64 bits that the code keeps of it. */
  method Sha512Pieces(pieces: seq<seq<byte>>) returns (digest: seq<byte>)
    ensures 8 * |Joined(pieces)| < WORD64 ==> IsSha512(Joined(pieces), digest)
    ensures digest == Digest(Kit512(CORE512), 128, 112, H512, Joined(pieces)) && |digest| == 64
  {
    if 8 * |Joined(pieces)| < WORD64 {
      Sha512Is(Joined(pieces));
    }
    digest := DigestPieces(Kit512(CORE512), Block(Kit512(CORE512)), 128, 112, H512, pieces);
  }
}
