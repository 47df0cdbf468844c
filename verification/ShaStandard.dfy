/** SHA-1 and SHA-2 as FIPS 180-4 states them, from the words and bytes up. */
module ShaStandard {
  import opened ShaPad
  import opened ShaRounds

  // ---- words (sections 2.2.2, 3.1 and 3.2) ----

  function RotR32(x: bv32, n: nat): bv32
    requires 0 < n < 32
  {
    (x >> n) | (x << (32 - n))
  }

  function RotR64(x: bv64, n: nat): bv64
    requires 0 < n < 64
  {
    (x >> n) | (x << (64 - n))
  }

  /** Four bytes as a number, the most significant first. */
  function Word32(y: seq<byte>): bv32
  {
    if |y| != 4 then 0
    else (y[0].bits as bv32) * 0x100_0000 + (y[1].bits as bv32) * 0x1_0000 + (y[2].bits as bv32) * 0x100 + y[3].bits as bv32
  }

  function Word64(y: seq<byte>): bv64
  {
    if |y| != 8 then 0
    else
      (y[0].bits as bv64) * 0x100_0000_0000_0000 + (y[1].bits as bv64) * 0x1_0000_0000_0000
      + (y[2].bits as bv64) * 0x100_0000_0000 + (y[3].bits as bv64) * 0x1_0000_0000
      + (y[4].bits as bv64) * 0x100_0000 + (y[5].bits as bv64) * 0x1_0000 + (y[6].bits as bv64) * 0x100 + y[7].bits as bv64
  }

  // ---- padding (section 5.1) ----

  /** The number whose bytes these are, the most significant first. */
  function Number(y: seq<byte>): nat
  {
    if y == [] then 0 else 256 * Number(y[..|y| - 1]) + y[|y| - 1].bits as int
  }

  /** p is m, a one bit, as few zeros as make whole blocks of b bytes, and the length of m in bits in field bytes. */
  ghost predicate IsPadded(m: seq<byte>, p: seq<byte>, b: nat, field: nat)
  {
    && b > 0 && |p| % b == 0 && |m| + 1 + field <= |p| < |m| + 1 + field + b
    && p[..|m|] == m && p[|m|] == Byte(0x80) && (forall i :: |m| < i < |p| - field ==> p[i] == Byte(0))
    && Number(p[|p| - field..]) == 8 * |m|
  }

  lemma {:induction false} NumberOfBigEndian(n: nat, k: nat)
    requires n < Pow256(k)
    ensures Number(BigEndian(n, k)) == n
  {
    if k > 0 {
      var y := BigEndian(n, k);
      NumberOfBigEndian(n / 256, k - 1);
      assert y[..|y| - 1] == BigEndian(n / 256, k - 1);
      ByteBack(n % 256);
    }
  }

  lemma StandardPadIs(m: seq<byte>, b: nat, t: nat)
    requires 0 < t < b && 8 * |m| < Pow256(b - t)
    ensures IsPadded(m, StandardPad(m, b, t), b, b - t)
  {
    var z, field := Zeros(ZeroCount(|m|, b, t)), BigEndian(8 * |m|, b - t);
    var p := StandardPad(m, b, t);
    NumberOfBigEndian(8 * |m|, b - t);
    RestAdd(|m| + 1 + |z|, b - t, b);
    RestIsMod(|p|, b);
    assert p == m + [MARK] + z + field;
    assert p[|p| - (b - t)..] == field;
    assert p[..|m|] == m;
  }

  // ---- functions (section 4.1) ----

  function Choose32(x: bv32, y: bv32, z: bv32): bv32 { (x & y) ^ (!x & z) }

  function Majority32(x: bv32, y: bv32, z: bv32): bv32 { (x & y) ^ (x & z) ^ (y & z) }

  function Parity32(x: bv32, y: bv32, z: bv32): bv32 { x ^ y ^ z }

  function Upper0(x: bv32): bv32 { RotR32(x, 2) ^ RotR32(x, 13) ^ RotR32(x, 22) }

  function Upper1(x: bv32): bv32 { RotR32(x, 6) ^ RotR32(x, 11) ^ RotR32(x, 25) }

  function Lower0(x: bv32): bv32 { RotR32(x, 7) ^ RotR32(x, 18) ^ (x >> 3) }

  function Lower1(x: bv32): bv32 { RotR32(x, 17) ^ RotR32(x, 19) ^ (x >> 10) }

  function Choose64(x: bv64, y: bv64, z: bv64): bv64 { (x & y) ^ (!x & z) }

  function Majority64(x: bv64, y: bv64, z: bv64): bv64 { (x & y) ^ (x & z) ^ (y & z) }

  function Wide0(x: bv64): bv64 { RotR64(x, 28) ^ RotR64(x, 34) ^ RotR64(x, 39) }

  function Wide1(x: bv64): bv64 { RotR64(x, 14) ^ RotR64(x, 18) ^ RotR64(x, 41) }

  function Narrow0(x: bv64): bv64 { RotR64(x, 1) ^ RotR64(x, 8) ^ (x >> 7) }

  function Narrow1(x: bv64): bv64 { RotR64(x, 19) ^ RotR64(x, 61) ^ (x >> 6) }

  // ---- hashing (sections 6.2 and 6.4) ----

  /** W_t of step 1. */
  function Prepared<W>(o: Core<W>, m: seq<W>, t: nat): W
    requires |m| == 16
  {
    if t <= 15 then m[t]
    else
      o.add(o.add(o.add(o.small1(Prepared(o, m, t - 2)), Prepared(o, m, t - 7)), o.small0(Prepared(o, m, t - 15))), Prepared(o, m, t - 16))
  }

  /** a to h after t rounds of step 3. */
  function Working<W>(o: Core<W>, h: seq<W>, m: seq<W>, t: nat): (v: seq<W>)
    requires |h| == 8 && |m| == 16
    ensures |v| == 8
  {
    if t == 0 then h
    else
      var v := Working(o, h, m, t - 1);
      var t1 := o.add(o.add(o.add(o.add(v[7], o.sum1(v[4])), o.ch(v[4], v[5], v[6])), o.k(t - 1)), Prepared(o, m, t - 1));
      var t2 := o.add(o.sum0(v[0]), o.maj(v[0], v[1], v[2]));
      [o.add(t1, t2), v[0], v[1], v[2], o.add(v[3], t1), v[4], v[5], v[6]]
  }

  /** Step 4. */
  function Intermediate<W>(o: Core<W>, h: seq<W>, m: seq<W>, rounds: nat): (r: seq<W>)
    requires |h| == 8 && |m| == 16
    ensures |r| == 8
  {
    var v := Working(o, h, m, rounds);
    seq(8, j requires 0 <= j < 8 => o.add(h[j], v[j]))
  }

  /** The words of some bytes, `width` bytes each. */
  function WordsOf<W>(word: seq<byte> -> W, width: nat, q: seq<byte>): seq<W>
    requires width > 0
  {
    if |q| < width then [] else WordsOf(word, width, q[..|q| - width]) + [word(q[|q| - width..])]
  }

  /** The hash value after the blocks of p, of b bytes each. */
  function HashOf<W>(o: Core<W>, word: seq<byte> -> W, width: nat, rounds: nat, b: nat, init: seq<W>, p: seq<byte>): (h: seq<W>)
    requires width > 0 && b > 0 && |init| == 8
    ensures |h| == 8
    decreases |p|
  {
    if |p| < b then init
    else
      var m := WordsOf(word, width, p[|p| - b..]);
      var h := HashOf(o, word, width, rounds, b, init, p[..|p| - b]);
      if |m| == 16 then Intermediate(o, h, m, rounds) else h
  }

  // ---- SHA-1 (section 6.1) ----

  /** What a round needs to know about words: the schedule's mix of four words, the new first register of round i, the
      rotation of the second one, and addition. */
  datatype Core1<!W> = Core1(mix: (W, W, W, W) -> W, temp: (nat, W, W, W, W, W, W) -> W, turn: W -> W, add: (W, W) -> W)

  function RotL32(x: bv32, n: nat): bv32
    requires 0 < n < 32
  {
    (x << n) | (x >> (32 - n))
  }

  /** f_t of section 4.1.1. */
  function Ft(t: nat, x: bv32, y: bv32, z: bv32): bv32
  {
    if t <= 19 then Choose32(x, y, z) else if t <= 39 then Parity32(x, y, z) else if t <= 59 then Majority32(x, y, z) else Parity32(x, y, z)
  }

  /** The rotation in the schedule. */
  function Mixed(x: bv32, y: bv32, z: bv32, w: bv32): bv32 { RotL32(x ^ y ^ z ^ w, 1) }

  /** T of step 3, with the constant of the round. */
  function Temp(t: nat, k: bv32, a: bv32, b: bv32, c: bv32, d: bv32, e: bv32, w: bv32): bv32
  {
    RotL32(a, 5) + Ft(t, b, c, d) + e + k + w
  }

  function Turned30(b: bv32): bv32 { RotL32(b, 30) }

  /** W_t of step 1. */
  function Prepared1<W>(o: Core1<W>, m: seq<W>, t: nat): W
    requires |m| == 16
  {
    if t <= 15 then m[t]
    else o.mix(Prepared1(o, m, t - 3), Prepared1(o, m, t - 8), Prepared1(o, m, t - 14), Prepared1(o, m, t - 16))
  }

  /** a to e after t rounds of step 3. */
  function Working1<W>(o: Core1<W>, h: seq<W>, m: seq<W>, t: nat): (v: seq<W>)
    requires |h| == 5 && |m| == 16
    ensures |v| == 5
  {
    if t == 0 then h
    else
      var v := Working1(o, h, m, t - 1);
      [o.temp(t - 1, v[0], v[1], v[2], v[3], v[4], Prepared1(o, m, t - 1)), v[0], o.turn(v[1]), v[2], v[3]]
  }

  /** Step 4. */
  function Intermediate1<W>(o: Core1<W>, h: seq<W>, m: seq<W>): (r: seq<W>)
    requires |h| == 5 && |m| == 16
    ensures |r| == 5
  {
    var v := Working1(o, h, m, 80);
    seq(5, j requires 0 <= j < 5 => o.add(h[j], v[j]))
  }

  function HashOf1<W>(o: Core1<W>, word: seq<byte> -> W, init: seq<W>, p: seq<byte>): (h: seq<W>)
    requires |init| == 5
    ensures |h| == 5
    decreases |p|
  {
    if |p| < 64 then init
    else
      var m := WordsOf(word, 4, p[|p| - 64..]);
      var h := HashOf1(o, word, init, p[..|p| - 64]);
      if |m| == 16 then Intermediate1(o, h, m) else h
  }
}
