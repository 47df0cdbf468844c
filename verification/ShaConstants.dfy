/** Where the constants of SHA-1 and SHA-2 come from (sections 4.2 and 5.3 of FIPS 180-4): square and cube roots. */
module ShaConstants {
  import opened Latches
  import opened ShaPad
  import opened ShaWords
  import opened Sha1Digests
  import opened Sha2Digests

  // ---- the prime numbers ----

  ghost predicate Prime(p: nat) { p >= 2 && forall d :: 2 <= d < p ==> p % d != 0 }

  ghost function PrimesBelow(n: nat): set<nat> { set p: nat | p < n && Prime(p) }

  /** p is prime, and exactly i primes are smaller. */
  ghost predicate IsPrime(i: nat, p: nat) { Prime(p) && |PrimesBelow(p)| == i }

  /** The first eighty, eight at a time. */
  function PrimeRow(r: nat): (row: seq<nat>)
    ensures |row| == 8
  {
    match r
    case 0 => [2, 3, 5, 7, 11, 13, 17, 19]
    case 1 => [23, 29, 31, 37, 41, 43, 47, 53]
    case 2 => [59, 61, 67, 71, 73, 79, 83, 89]
    case 3 => [97, 101, 103, 107, 109, 113, 127, 131]
    case 4 => [137, 139, 149, 151, 157, 163, 167, 173]
    case 5 => [179, 181, 191, 193, 197, 199, 211, 223]
    case 6 => [227, 229, 233, 239, 241, 251, 257, 263]
    case 7 => [269, 271, 277, 281, 283, 293, 307, 311]
    case 8 => [313, 317, 331, 337, 347, 349, 353, 359]
    case _ => [367, 373, 379, 383, 389, 397, 401, 409]
  }

  function PrimeAt(i: nat): nat { if i < 80 then PrimeRow(i / 8)[i % 8] else 0 }

  /** No prime number up to 19 divides n, unless it is n. */
  predicate Sieved(n: nat)
  {
    && n >= 2 && (n % 2 != 0 || n == 2) && (n % 3 != 0 || n == 3) && (n % 5 != 0 || n == 5) && (n % 7 != 0 || n == 7)
    && (n % 11 != 0 || n == 11) && (n % 13 != 0 || n == 13) && (n % 17 != 0 || n == 17) && (n % 19 != 0 || n == 19)
  }

  /** Below 441 that makes a prime. */
  lemma SievedIs(n: nat)
    requires n < 441
    ensures Sieved(n) <==> Prime(n)
  {
    if Sieved(n) && n > 20 {
      forall d | 2 <= d < n
        ensures n % d != 0
      {
        if n % d == 0 {
          Divided(n, d);
        }
      }
    }
  }

  /** A divisor or its partner is at most 20. */
  lemma Divided(n: nat, d: nat)
    requires 20 < n < 441 && 2 <= d < n && n % d == 0
    ensures !Sieved(n)
  {
    var e := n / d;
    assert n == d * e;
    if d <= 20 {
      Small(n, d, e);
    } else {
      Partner(n, d, e);
      Small(n, e, d);
    }
  }

  lemma Partner(n: nat, d: nat, e: int)
    requires n == d * e && 20 < n < 441 && 20 < d < n
    ensures 2 <= e <= 20
  {
    Product(d, e);
  }

  lemma Product(d: nat, e: int)
    requires d > 20
    ensures (e >= 21 ==> d * e >= 441) && (e <= 0 ==> d * e <= 0) && (e == 1 ==> d * e == d)
  {
    if e >= 21 {
      assert d * e >= 21 * e;
    }
  }

  lemma Small(n: nat, d: nat, e: nat)
    requires n == d * e && 2 <= d <= 20 && n > 20
    ensures !Sieved(n)
  {
    var q, k := PrimeFactor(d);
    assert n == q * (k * e);
    MultipleOf(n, q, k * e);
  }

  /** A prime factor of a number up to 20. */
  lemma PrimeFactor(d: nat) returns (q: nat, k: nat)
    requires 2 <= d <= 20
    ensures d == q * k && (q == 2 || q == 3 || q == 5 || q == 7 || q == 11 || q == 13 || q == 17 || q == 19)
  {
    if d % 2 == 0 {
      q, k := 2, d / 2;
    } else if d % 3 == 0 {
      q, k := 3, d / 3;
    } else if d % 5 == 0 {
      q, k := 5, d / 5;
    } else {
      q, k := d, 1;
    }
  }

  lemma MultipleOf(n: nat, q: nat, k: nat)
    requires q > 0 && n == q * k
    ensures n % q == 0
  {
    DivUnique(n, q, k, 0);
  }

  /** n is not reached, or it has a divisor. */
  predicate Passed(n: nat, q: nat) { n >= q || !Sieved(n) }

  /** Of the odd numbers between p and q none is prime. */
  predicate NoneBetween(p: nat, q: nat)
  {
    && p < q <= p + 14 && (p % 2 == 1 || q == p + 1)
    && Passed(p + 2, q) && Passed(p + 4, q) && Passed(p + 6, q) && Passed(p + 8, q) && Passed(p + 10, q) && Passed(p + 12, q)
  }

  lemma OddSteps(p: nat, n: nat)
    requires p % 2 == 1 && n % 2 == 1 && p < n < p + 14
    ensures n == p + 2 || n == p + 4 || n == p + 6 || n == p + 8 || n == p + 10 || n == p + 12
  {
  }

  lemma EvenNotPrime(n: nat)
    requires n % 2 == 0 && n > 2
    ensures !Prime(n)
  {
  }

  /** What has been passed is not prime. */
  lemma PassedNotPrime(n: nat, q: nat)
    requires Passed(n, q) && n < q < 441
    ensures !Prime(n)
  {
    SievedIs(n);
  }

  lemma NotPrime(p: nat, q: nat, n: nat)
    requires NoneBetween(p, q) && 2 <= p < n < q < 441
    ensures !Prime(n)
  {
    if n % 2 == 0 {
      EvenNotPrime(n);
    } else {
      OddSteps(p, n);
      PassedNotPrime(n, q);
    }
  }

  /** The next prime after p. */
  lemma NextPrime(i: nat, p: nat, q: nat)
    requires IsPrime(i, p) && Prime(q) && q < 441 && NoneBetween(p, q)
    ensures IsPrime(i + 1, q)
  {
    forall n: nat
      ensures n in PrimesBelow(q) <==> n in PrimesBelow(p) + {p}
    {
      if p < n < q {
        NotPrime(p, q, n);
      }
    }
    assert PrimesBelow(q) == PrimesBelow(p) + {p};
  }

  ghost predicate GapBefore(i: nat)
    requires i > 0
  {
    forall l {:trigger Lifted(l)} :: Lifted(l) ==> PrimeAt(i) < 441 && Sieved(PrimeAt(i)) && NoneBetween(PrimeAt(i - 1), PrimeAt(i))
  }

  lemma GapOf(i: nat, p: nat, q: nat)
    requires i > 0 && PrimeAt(i - 1) == p && PrimeAt(i) == q && q < 441 && Sieved(q) && NoneBetween(p, q)
    ensures GapBefore(i)
  {
  }

  lemma GapA(i: nat)
    requires 1 <= i < 9
    ensures GapBefore(i)
  {
    match i
    case 1 => GapOf(1, 2, 3); case 2 => GapOf(2, 3, 5); case 3 => GapOf(3, 5, 7); case 4 => GapOf(4, 7, 11);
    case 5 => GapOf(5, 11, 13); case 6 => GapOf(6, 13, 17); case 7 => GapOf(7, 17, 19); case _ => GapOf(8, 19, 23);
  }

  lemma GapB(i: nat)
    requires 9 <= i < 17
    ensures GapBefore(i)
  {
    match i
    case 9 => GapOf(9, 23, 29); case 10 => GapOf(10, 29, 31); case 11 => GapOf(11, 31, 37); case 12 => GapOf(12, 37, 41);
    case 13 => GapOf(13, 41, 43); case 14 => GapOf(14, 43, 47); case 15 => GapOf(15, 47, 53); case _ => GapOf(16, 53, 59);
  }

  lemma GapC(i: nat)
    requires 17 <= i < 25
    ensures GapBefore(i)
  {
    match i
    case 17 => GapOf(17, 59, 61); case 18 => GapOf(18, 61, 67); case 19 => GapOf(19, 67, 71); case 20 => GapOf(20, 71, 73);
    case 21 => GapOf(21, 73, 79); case 22 => GapOf(22, 79, 83); case 23 => GapOf(23, 83, 89); case _ => GapOf(24, 89, 97);
  }

  lemma GapD(i: nat)
    requires 25 <= i < 33
    ensures GapBefore(i)
  {
    match i
    case 25 => GapOf(25, 97, 101); case 26 => GapOf(26, 101, 103); case 27 => GapOf(27, 103, 107); case 28 => GapOf(28, 107, 109);
    case 29 => GapOf(29, 109, 113); case 30 => GapOf(30, 113, 127); case 31 => GapOf(31, 127, 131); case _ => GapOf(32, 131, 137);
  }

  lemma GapE(i: nat)
    requires 33 <= i < 41
    ensures GapBefore(i)
  {
    match i
    case 33 => GapOf(33, 137, 139); case 34 => GapOf(34, 139, 149); case 35 => GapOf(35, 149, 151); case 36 => GapOf(36, 151, 157);
    case 37 => GapOf(37, 157, 163); case 38 => GapOf(38, 163, 167); case 39 => GapOf(39, 167, 173); case _ => GapOf(40, 173, 179);
  }

  lemma GapF(i: nat)
    requires 41 <= i < 49
    ensures GapBefore(i)
  {
    match i
    case 41 => GapOf(41, 179, 181); case 42 => GapOf(42, 181, 191); case 43 => GapOf(43, 191, 193); case 44 => GapOf(44, 193, 197);
    case 45 => GapOf(45, 197, 199); case 46 => GapOf(46, 199, 211); case 47 => GapOf(47, 211, 223); case _ => GapOf(48, 223, 227);
  }

  lemma GapG(i: nat)
    requires 49 <= i < 57
    ensures GapBefore(i)
  {
    match i
    case 49 => GapOf(49, 227, 229); case 50 => GapOf(50, 229, 233); case 51 => GapOf(51, 233, 239); case 52 => GapOf(52, 239, 241);
    case 53 => GapOf(53, 241, 251); case 54 => GapOf(54, 251, 257); case 55 => GapOf(55, 257, 263); case _ => GapOf(56, 263, 269);
  }

  lemma GapH(i: nat)
    requires 57 <= i < 65
    ensures GapBefore(i)
  {
    match i
    case 57 => GapOf(57, 269, 271); case 58 => GapOf(58, 271, 277); case 59 => GapOf(59, 277, 281); case 60 => GapOf(60, 281, 283);
    case 61 => GapOf(61, 283, 293); case 62 => GapOf(62, 293, 307); case 63 => GapOf(63, 307, 311); case _ => GapOf(64, 311, 313);
  }

  lemma GapI(i: nat)
    requires 65 <= i < 73
    ensures GapBefore(i)
  {
    match i
    case 65 => GapOf(65, 313, 317); case 66 => GapOf(66, 317, 331); case 67 => GapOf(67, 331, 337); case 68 => GapOf(68, 337, 347);
    case 69 => GapOf(69, 347, 349); case 70 => GapOf(70, 349, 353); case 71 => GapOf(71, 353, 359); case _ => GapOf(72, 359, 367);
  }

  lemma GapJ(i: nat)
    requires 73 <= i < 80
    ensures GapBefore(i)
  {
    match i
    case 73 => GapOf(73, 367, 373); case 74 => GapOf(74, 373, 379); case 75 => GapOf(75, 379, 383); case 76 => GapOf(76, 383, 389);
    case 77 => GapOf(77, 389, 397); case 78 => GapOf(78, 397, 401); case _ => GapOf(79, 401, 409);
  }

  lemma Gap(i: nat)
    requires 1 <= i < 80
    ensures GapBefore(i)
  {
    if i < 9 {
      GapA(i);
    } else if i < 17 {
      GapB(i);
    } else if i < 25 {
      GapC(i);
    } else if i < 33 {
      GapD(i);
    } else if i < 41 {
      GapE(i);
    } else if i < 49 {
      GapF(i);
    } else if i < 57 {
      GapG(i);
    } else if i < 65 {
      GapH(i);
    } else if i < 73 {
      GapI(i);
    } else {
      GapJ(i);
    }
  }

  /** The table holds the first eighty primes. */
  lemma {:induction false} PrimeAtIs(i: nat)
    requires i < 80
    ensures IsPrime(i, PrimeAt(i))
  {
    if i == 0 {
      assert PrimesBelow(2) == {};
    } else {
      PrimeAtIs(i - 1);
      Gap(i);
      assert Lifted(Latch);
      SievedIs(PrimeAt(i));
      NextPrime(i - 1, PrimeAt(i - 1), PrimeAt(i));
    }
  }

  lemma OnePrime(i: nat, p: nat, q: nat)
    requires IsPrime(i, p) && IsPrime(i, q)
    ensures p == q
  {
    if p < q {
      MorePrimes(p, q);
    } else if q < p {
      MorePrimes(q, p);
    }
  }

  lemma MorePrimes(p: nat, q: nat)
    requires Prime(p) && p < q
    ensures |PrimesBelow(p)| < |PrimesBelow(q)|
  {
    assert PrimesBelow(p) < PrimesBelow(q) by {
      assert p in PrimesBelow(q) && p !in PrimesBelow(p);
    }
    Larger(PrimesBelow(p), PrimesBelow(q));
  }

  lemma Larger(s: set<nat>, t: set<nat>)
    requires s < t
    ensures |s| < |t|
  {
    assert t == s + (t - s) && t - s != {};
  }

  // ---- roots ----

  /** The word with this number. */
  function Word32(k: nat): bv32 { if k < 0x1_0000_0000 then k as bv32 else 0 }

  function Word64(k: nat): bv64 { if k < 0x1_0000_0000_0000_0000 then k as bv64 else 0 }

  function Square(x: int): int { x * x }

  function Cube(x: int): int { x * x * x }

  /** k is the fraction of the cube root of p, in units of 1 / unit, cut off; c is its whole part. */
  predicate CubeFraction(p: nat, c: nat, k: nat, unit: nat)
  {
    k < unit && Cube(c * unit + k) <= p * Cube(unit) < Cube(c * unit + k + 1)
  }

  predicate SquareFraction(p: nat, c: nat, k: nat, unit: nat)
  {
    k < unit && Square(c * unit + k) <= p * Square(unit) < Square(c * unit + k + 1)
  }

  ghost predicate Key256Fits(i: nat)
  {
    forall l {:trigger Lifted(l)} :: Lifted(l) ==> exists c: nat :: CubeFraction(PrimeAt(i), c, KeyNumber256(i), 0x1_0000_0000)
  }

  lemma Key256Of(i: nat, p: nat, c: nat, k: nat)
    requires PrimeAt(i) == p && KeyNumber256(i) == k && CubeFraction(p, c, k, 0x1_0000_0000)
    ensures Key256Fits(i)
  {
  }

  ghost predicate Key512Fits(i: nat)
  {
    forall l {:trigger Lifted(l)} :: Lifted(l) ==> exists c: nat :: CubeFraction(PrimeAt(i), c, KeyNumber512(i), 0x1_0000_0000_0000_0000)
  }

  lemma Key512Of(i: nat, p: nat, c: nat, k: nat)
    requires PrimeAt(i) == p && KeyNumber512(i) == k && CubeFraction(p, c, k, 0x1_0000_0000_0000_0000)
    ensures Key512Fits(i)
  {
  }

  lemma Key256A(i: nat)
    requires 0 <= i < 8
    ensures Key256Fits(i)
  {
    match i
    case 0 => Key256Of(0, 2, 1, 0x428a_2f98); case 1 => Key256Of(1, 3, 1, 0x7137_4491);
    case 2 => Key256Of(2, 5, 1, 0xb5c0_fbcf); case 3 => Key256Of(3, 7, 1, 0xe9b5_dba5);
    case 4 => Key256Of(4, 11, 2, 0x3956_c25b); case 5 => Key256Of(5, 13, 2, 0x59f1_11f1);
    case 6 => Key256Of(6, 17, 2, 0x923f_82a4); case _ => Key256Of(7, 19, 2, 0xab1c_5ed5);
  }

  lemma Key256B(i: nat)
    requires 8 <= i < 16
    ensures Key256Fits(i)
  {
    match i
    case 8 => Key256Of(8, 23, 2, 0xd807_aa98); case 9 => Key256Of(9, 29, 3, 0x1283_5b01);
    case 10 => Key256Of(10, 31, 3, 0x2431_85be); case 11 => Key256Of(11, 37, 3, 0x550c_7dc3);
    case 12 => Key256Of(12, 41, 3, 0x72be_5d74); case 13 => Key256Of(13, 43, 3, 0x80de_b1fe);
    case 14 => Key256Of(14, 47, 3, 0x9bdc_06a7); case _ => Key256Of(15, 53, 3, 0xc19b_f174);
  }

  lemma Key256C(i: nat)
    requires 16 <= i < 24
    ensures Key256Fits(i)
  {
    match i
    case 16 => Key256Of(16, 59, 3, 0xe49b_69c1); case 17 => Key256Of(17, 61, 3, 0xefbe_4786);
    case 18 => Key256Of(18, 67, 4, 0x0fc1_9dc6); case 19 => Key256Of(19, 71, 4, 0x240c_a1cc);
    case 20 => Key256Of(20, 73, 4, 0x2de9_2c6f); case 21 => Key256Of(21, 79, 4, 0x4a74_84aa);
    case 22 => Key256Of(22, 83, 4, 0x5cb0_a9dc); case _ => Key256Of(23, 89, 4, 0x76f9_88da);
  }

  lemma Key256D(i: nat)
    requires 24 <= i < 32
    ensures Key256Fits(i)
  {
    match i
    case 24 => Key256Of(24, 97, 4, 0x983e_5152); case 25 => Key256Of(25, 101, 4, 0xa831_c66d);
    case 26 => Key256Of(26, 103, 4, 0xb003_27c8); case 27 => Key256Of(27, 107, 4, 0xbf59_7fc7);
    case 28 => Key256Of(28, 109, 4, 0xc6e0_0bf3); case 29 => Key256Of(29, 113, 4, 0xd5a7_9147);
    case 30 => Key256Of(30, 127, 5, 0x06ca_6351); case _ => Key256Of(31, 131, 5, 0x1429_2967);
  }

  lemma Key256E(i: nat)
    requires 32 <= i < 40
    ensures Key256Fits(i)
  {
    match i
    case 32 => Key256Of(32, 137, 5, 0x27b7_0a85); case 33 => Key256Of(33, 139, 5, 0x2e1b_2138);
    case 34 => Key256Of(34, 149, 5, 0x4d2c_6dfc); case 35 => Key256Of(35, 151, 5, 0x5338_0d13);
    case 36 => Key256Of(36, 157, 5, 0x650a_7354); case 37 => Key256Of(37, 163, 5, 0x766a_0abb);
    case 38 => Key256Of(38, 167, 5, 0x81c2_c92e); case _ => Key256Of(39, 173, 5, 0x9272_2c85);
  }

  lemma Key256F(i: nat)
    requires 40 <= i < 48
    ensures Key256Fits(i)
  {
    match i
    case 40 => Key256Of(40, 179, 5, 0xa2bf_e8a1); case 41 => Key256Of(41, 181, 5, 0xa81a_664b);
    case 42 => Key256Of(42, 191, 5, 0xc24b_8b70); case 43 => Key256Of(43, 193, 5, 0xc76c_51a3);
    case 44 => Key256Of(44, 197, 5, 0xd192_e819); case 45 => Key256Of(45, 199, 5, 0xd699_0624);
    case 46 => Key256Of(46, 211, 5, 0xf40e_3585); case _ => Key256Of(47, 223, 6, 0x106a_a070);
  }

  lemma Key256G(i: nat)
    requires 48 <= i < 56
    ensures Key256Fits(i)
  {
    match i
    case 48 => Key256Of(48, 227, 6, 0x19a4_c116); case 49 => Key256Of(49, 229, 6, 0x1e37_6c08);
    case 50 => Key256Of(50, 233, 6, 0x2748_774c); case 51 => Key256Of(51, 239, 6, 0x34b0_bcb5);
    case 52 => Key256Of(52, 241, 6, 0x391c_0cb3); case 53 => Key256Of(53, 251, 6, 0x4ed8_aa4a);
    case 54 => Key256Of(54, 257, 6, 0x5b9c_ca4f); case _ => Key256Of(55, 263, 6, 0x682e_6ff3);
  }

  lemma Key256H(i: nat)
    requires 56 <= i < 64
    ensures Key256Fits(i)
  {
    match i
    case 56 => Key256Of(56, 269, 6, 0x748f_82ee); case 57 => Key256Of(57, 271, 6, 0x78a5_636f);
    case 58 => Key256Of(58, 277, 6, 0x84c8_7814); case 59 => Key256Of(59, 281, 6, 0x8cc7_0208);
    case 60 => Key256Of(60, 283, 6, 0x90be_fffa); case 61 => Key256Of(61, 293, 6, 0xa450_6ceb);
    case 62 => Key256Of(62, 307, 6, 0xbef9_a3f7); case _ => Key256Of(63, 311, 6, 0xc671_78f2);
  }

  lemma Key256(i: nat)
    requires 0 <= i < 64
    ensures Key256Fits(i)
  {
    if i < 8 {
      Key256A(i);
    } else if i < 16 {
      Key256B(i);
    } else if i < 24 {
      Key256C(i);
    } else if i < 32 {
      Key256D(i);
    } else if i < 40 {
      Key256E(i);
    } else if i < 48 {
      Key256F(i);
    } else if i < 56 {
      Key256G(i);
    } else {
      Key256H(i);
    }
  }

  lemma Key512A(i: nat)
    requires 0 <= i < 8
    ensures Key512Fits(i)
  {
    match i
    case 0 => Key512Of(0, 2, 1, 0x428a_2f98_d728_ae22);
    case 1 => Key512Of(1, 3, 1, 0x7137_4491_23ef_65cd);
    case 2 => Key512Of(2, 5, 1, 0xb5c0_fbcf_ec4d_3b2f);
    case 3 => Key512Of(3, 7, 1, 0xe9b5_dba5_8189_dbbc);
    case 4 => Key512Of(4, 11, 2, 0x3956_c25b_f348_b538);
    case 5 => Key512Of(5, 13, 2, 0x59f1_11f1_b605_d019);
    case 6 => Key512Of(6, 17, 2, 0x923f_82a4_af19_4f9b);
    case _ => Key512Of(7, 19, 2, 0xab1c_5ed5_da6d_8118);
  }

  lemma Key512B(i: nat)
    requires 8 <= i < 16
    ensures Key512Fits(i)
  {
    match i
    case 8 => Key512Of(8, 23, 2, 0xd807_aa98_a303_0242);
    case 9 => Key512Of(9, 29, 3, 0x1283_5b01_4570_6fbe);
    case 10 => Key512Of(10, 31, 3, 0x2431_85be_4ee4_b28c);
    case 11 => Key512Of(11, 37, 3, 0x550c_7dc3_d5ff_b4e2);
    case 12 => Key512Of(12, 41, 3, 0x72be_5d74_f27b_896f);
    case 13 => Key512Of(13, 43, 3, 0x80de_b1fe_3b16_96b1);
    case 14 => Key512Of(14, 47, 3, 0x9bdc_06a7_25c7_1235);
    case _ => Key512Of(15, 53, 3, 0xc19b_f174_cf69_2694);
  }

  lemma Key512C(i: nat)
    requires 16 <= i < 24
    ensures Key512Fits(i)
  {
    match i
    case 16 => Key512Of(16, 59, 3, 0xe49b_69c1_9ef1_4ad2);
    case 17 => Key512Of(17, 61, 3, 0xefbe_4786_384f_25e3);
    case 18 => Key512Of(18, 67, 4, 0x0fc1_9dc6_8b8c_d5b5);
    case 19 => Key512Of(19, 71, 4, 0x240c_a1cc_77ac_9c65);
    case 20 => Key512Of(20, 73, 4, 0x2de9_2c6f_592b_0275);
    case 21 => Key512Of(21, 79, 4, 0x4a74_84aa_6ea6_e483);
    case 22 => Key512Of(22, 83, 4, 0x5cb0_a9dc_bd41_fbd4);
    case _ => Key512Of(23, 89, 4, 0x76f9_88da_8311_53b5);
  }

  lemma Key512D(i: nat)
    requires 24 <= i < 32
    ensures Key512Fits(i)
  {
    match i
    case 24 => Key512Of(24, 97, 4, 0x983e_5152_ee66_dfab);
    case 25 => Key512Of(25, 101, 4, 0xa831_c66d_2db4_3210);
    case 26 => Key512Of(26, 103, 4, 0xb003_27c8_98fb_213f);
    case 27 => Key512Of(27, 107, 4, 0xbf59_7fc7_beef_0ee4);
    case 28 => Key512Of(28, 109, 4, 0xc6e0_0bf3_3da8_8fc2);
    case 29 => Key512Of(29, 113, 4, 0xd5a7_9147_930a_a725);
    case 30 => Key512Of(30, 127, 5, 0x06ca_6351_e003_826f);
    case _ => Key512Of(31, 131, 5, 0x1429_2967_0a0e_6e70);
  }

  lemma Key512E(i: nat)
    requires 32 <= i < 40
    ensures Key512Fits(i)
  {
    match i
    case 32 => Key512Of(32, 137, 5, 0x27b7_0a85_46d2_2ffc);
    case 33 => Key512Of(33, 139, 5, 0x2e1b_2138_5c26_c926);
    case 34 => Key512Of(34, 149, 5, 0x4d2c_6dfc_5ac4_2aed);
    case 35 => Key512Of(35, 151, 5, 0x5338_0d13_9d95_b3df);
    case 36 => Key512Of(36, 157, 5, 0x650a_7354_8baf_63de);
    case 37 => Key512Of(37, 163, 5, 0x766a_0abb_3c77_b2a8);
    case 38 => Key512Of(38, 167, 5, 0x81c2_c92e_47ed_aee6);
    case _ => Key512Of(39, 173, 5, 0x9272_2c85_1482_353b);
  }

  lemma Key512F(i: nat)
    requires 40 <= i < 48
    ensures Key512Fits(i)
  {
    match i
    case 40 => Key512Of(40, 179, 5, 0xa2bf_e8a1_4cf1_0364);
    case 41 => Key512Of(41, 181, 5, 0xa81a_664b_bc42_3001);
    case 42 => Key512Of(42, 191, 5, 0xc24b_8b70_d0f8_9791);
    case 43 => Key512Of(43, 193, 5, 0xc76c_51a3_0654_be30);
    case 44 => Key512Of(44, 197, 5, 0xd192_e819_d6ef_5218);
    case 45 => Key512Of(45, 199, 5, 0xd699_0624_5565_a910);
    case 46 => Key512Of(46, 211, 5, 0xf40e_3585_5771_202a);
    case _ => Key512Of(47, 223, 6, 0x106a_a070_32bb_d1b8);
  }

  lemma Key512G(i: nat)
    requires 48 <= i < 56
    ensures Key512Fits(i)
  {
    match i
    case 48 => Key512Of(48, 227, 6, 0x19a4_c116_b8d2_d0c8);
    case 49 => Key512Of(49, 229, 6, 0x1e37_6c08_5141_ab53);
    case 50 => Key512Of(50, 233, 6, 0x2748_774c_df8e_eb99);
    case 51 => Key512Of(51, 239, 6, 0x34b0_bcb5_e19b_48a8);
    case 52 => Key512Of(52, 241, 6, 0x391c_0cb3_c5c9_5a63);
    case 53 => Key512Of(53, 251, 6, 0x4ed8_aa4a_e341_8acb);
    case 54 => Key512Of(54, 257, 6, 0x5b9c_ca4f_7763_e373);
    case _ => Key512Of(55, 263, 6, 0x682e_6ff3_d6b2_b8a3);
  }

  lemma Key512H(i: nat)
    requires 56 <= i < 64
    ensures Key512Fits(i)
  {
    match i
    case 56 => Key512Of(56, 269, 6, 0x748f_82ee_5def_b2fc);
    case 57 => Key512Of(57, 271, 6, 0x78a5_636f_4317_2f60);
    case 58 => Key512Of(58, 277, 6, 0x84c8_7814_a1f0_ab72);
    case 59 => Key512Of(59, 281, 6, 0x8cc7_0208_1a64_39ec);
    case 60 => Key512Of(60, 283, 6, 0x90be_fffa_2363_1e28);
    case 61 => Key512Of(61, 293, 6, 0xa450_6ceb_de82_bde9);
    case 62 => Key512Of(62, 307, 6, 0xbef9_a3f7_b2c6_7915);
    case _ => Key512Of(63, 311, 6, 0xc671_78f2_e372_532b);
  }

  lemma Key512I(i: nat)
    requires 64 <= i < 72
    ensures Key512Fits(i)
  {
    match i
    case 64 => Key512Of(64, 313, 6, 0xca27_3ece_ea26_619c);
    case 65 => Key512Of(65, 317, 6, 0xd186_b8c7_21c0_c207);
    case 66 => Key512Of(66, 331, 6, 0xeada_7dd6_cde0_eb1e);
    case 67 => Key512Of(67, 337, 6, 0xf57d_4f7f_ee6e_d178);
    case 68 => Key512Of(68, 347, 7, 0x06f0_67aa_7217_6fba);
    case 69 => Key512Of(69, 349, 7, 0x0a63_7dc5_a2c8_98a6);
    case 70 => Key512Of(70, 353, 7, 0x113f_9804_bef9_0dae);
    case _ => Key512Of(71, 359, 7, 0x1b71_0b35_131c_471b);
  }

  lemma Key512J(i: nat)
    requires 72 <= i < 80
    ensures Key512Fits(i)
  {
    match i
    case 72 => Key512Of(72, 367, 7, 0x28db_77f5_2304_7d84);
    case 73 => Key512Of(73, 373, 7, 0x32ca_ab7b_40c7_2493);
    case 74 => Key512Of(74, 379, 7, 0x3c9e_be0a_15c9_bebc);
    case 75 => Key512Of(75, 383, 7, 0x431d_67c4_9c10_0d4c);
    case 76 => Key512Of(76, 389, 7, 0x4cc5_d4be_cb3e_42b6);
    case 77 => Key512Of(77, 397, 7, 0x597f_299c_fc65_7e2a);
    case 78 => Key512Of(78, 401, 7, 0x5fcb_6fab_3ad6_faec);
    case _ => Key512Of(79, 409, 7, 0x6c44_198c_4a47_5817);
  }

  lemma Key512(i: nat)
    requires 0 <= i < 80
    ensures Key512Fits(i)
  {
    if i < 8 {
      Key512A(i);
    } else if i < 16 {
      Key512B(i);
    } else if i < 24 {
      Key512C(i);
    } else if i < 32 {
      Key512D(i);
    } else if i < 40 {
      Key512E(i);
    } else if i < 48 {
      Key512F(i);
    } else if i < 56 {
      Key512G(i);
    } else if i < 64 {
      Key512H(i);
    } else if i < 72 {
      Key512I(i);
    } else {
      Key512J(i);
    }
  }

  /** Section 4.2.2: the first 32 bits of the fractions of the cube roots of the first sixty-four primes. */
  lemma RoundKeys256(i: nat, p: nat) returns (c: nat, k: nat)
    requires i < 64 && IsPrime(i, p)
    ensures CubeFraction(p, c, k, 0x1_0000_0000) && RoundKey256(i) == Word32(k)
  {
    PrimeAtIs(i);
    OnePrime(i, p, PrimeAt(i));
    Key256(i);
    assert Lifted(Latch);
    k := KeyNumber256(i);
    c :| CubeFraction(p, c, k, 0x1_0000_0000);
  }

  /** Section 4.2.3: the first 64 bits of the fractions of the cube roots of the first eighty primes. */
  lemma RoundKeys512(i: nat, p: nat) returns (c: nat, k: nat)
    requires i < 80 && IsPrime(i, p)
    ensures CubeFraction(p, c, k, 0x1_0000_0000_0000_0000) && RoundKey512(i) == Word64(k)
  {
    PrimeAtIs(i);
    OnePrime(i, p, PrimeAt(i));
    Key512(i);
    assert Lifted(Latch);
    k := KeyNumber512(i);
    c :| CubeFraction(p, c, k, 0x1_0000_0000_0000_0000);
  }

  ghost predicate Start256Fits(i: nat)
    requires i < 8
  {
    forall l {:trigger Lifted(l)} :: Lifted(l) ==>
      exists c: nat, k: nat :: SquareFraction(PrimeAt(i), c, k, 0x1_0000_0000) && H256[i] == Word32(k)
  }

  lemma Start256Of(i: nat, p: nat, c: nat, k: nat)
    requires i < 8 && PrimeAt(i) == p && SquareFraction(p, c, k, 0x1_0000_0000) && H256[i] == Word32(k)
    ensures Start256Fits(i)
  {
  }

  lemma Start256(i: nat)
    requires i < 8
    ensures Start256Fits(i)
  {
    match i
    case 0 => Start256Of(0, 2, 1, 0x6a09_e667);
    case 1 => Start256Of(1, 3, 1, 0xbb67_ae85);
    case 2 => Start256Of(2, 5, 2, 0x3c6e_f372);
    case 3 => Start256Of(3, 7, 2, 0xa54f_f53a);
    case 4 => Start256Of(4, 11, 3, 0x510e_527f);
    case 5 => Start256Of(5, 13, 3, 0x9b05_688c);
    case 6 => Start256Of(6, 17, 4, 0x1f83_d9ab);
    case _ => Start256Of(7, 19, 4, 0x5be0_cd19);
  }

  ghost predicate Start512Fits(i: nat)
    requires i < 8
  {
    forall l {:trigger Lifted(l)} :: Lifted(l) ==>
      exists c: nat, k: nat :: SquareFraction(PrimeAt(i), c, k, 0x1_0000_0000_0000_0000) && H512[i] == Word64(k)
  }

  lemma Start512Of(i: nat, p: nat, c: nat, k: nat)
    requires i < 8 && PrimeAt(i) == p && SquareFraction(p, c, k, 0x1_0000_0000_0000_0000) && H512[i] == Word64(k)
    ensures Start512Fits(i)
  {
  }

  lemma Start512(i: nat)
    requires i < 8
    ensures Start512Fits(i)
  {
    match i
    case 0 => Start512Of(0, 2, 1, 0x6a09_e667_f3bc_c908);
    case 1 => Start512Of(1, 3, 1, 0xbb67_ae85_84ca_a73b);
    case 2 => Start512Of(2, 5, 2, 0x3c6e_f372_fe94_f82b);
    case 3 => Start512Of(3, 7, 2, 0xa54f_f53a_5f1d_36f1);
    case 4 => Start512Of(4, 11, 3, 0x510e_527f_ade6_82d1);
    case 5 => Start512Of(5, 13, 3, 0x9b05_688c_2b3e_6c1f);
    case 6 => Start512Of(6, 17, 4, 0x1f83_d9ab_fb41_bd6b);
    case _ => Start512Of(7, 19, 4, 0x5be0_cd19_137e_2179);
  }

  /** Section 5.3.3: the first 32 bits of the fractions of the square roots of the first eight primes. */
  lemma StartValues256(i: nat, p: nat) returns (c: nat, k: nat)
    requires i < 8 && IsPrime(i, p)
    ensures SquareFraction(p, c, k, 0x1_0000_0000) && H256[i] == Word32(k)
  {
    PrimeAtIs(i);
    OnePrime(i, p, PrimeAt(i));
    Start256(i);
    assert Lifted(Latch);
    c, k :| SquareFraction(PrimeAt(i), c, k, 0x1_0000_0000) && H256[i] == Word32(k);
  }

  /** Section 5.3.5: the same with 64 bits. */
  lemma StartValues512(i: nat, p: nat) returns (c: nat, k: nat)
    requires i < 8 && IsPrime(i, p)
    ensures SquareFraction(p, c, k, 0x1_0000_0000_0000_0000) && H512[i] == Word64(k)
  {
    PrimeAtIs(i);
    OnePrime(i, p, PrimeAt(i));
    Start512(i);
    assert Lifted(Latch);
    c, k :| SquareFraction(PrimeAt(i), c, k, 0x1_0000_0000_0000_0000) && H512[i] == Word64(k);
  }

  // ---- SHA-1 ----

  /** k is a square root in units of 2^-30, cut off. */
  predicate RootOf(n: nat, k: nat) { k < 0x1_0000_0000 && Square(k) <= n * Square(0x4000_0000) < Square(k + 1) }

  ghost predicate Key1Fits(i: nat, n: nat) { exists k: nat :: RootOf(n, k) && RoundKey1(i) == Word32(k) }

  lemma Key1Of(i: nat, n: nat, k: nat)
    requires RootOf(n, k) && RoundKey1(i) == Word32(k)
    ensures Key1Fits(i, n)
  {
  }

  /** Section 4.2.1: the square roots of 2, 3, 5 and 10, for twenty rounds each. */
  lemma RoundKeys1(i: nat)
    requires i < 80
    ensures Key1Fits(i, if i < 20 then 2 else if i < 40 then 3 else if i < 60 then 5 else 10)
  {
    if i < 20 {
      Key1Of(i, 2, 0x5a82_7999);
    } else if i < 40 {
      Key1Of(i, 3, 0x6ed9_eba1);
    } else if i < 60 {
      Key1Of(i, 5, 0x8f1b_bcdc);
    } else {
      Key1Of(i, 10, 0xca62_c1d6);
    }
  }

  /** Section 5.3.1. */
  lemma StartValues1()
    ensures |H1| == 5 && H1[0] == 0x6745_2301 && H1[1] == 0xefcd_ab89 && H1[2] == 0x98ba_dcfe && H1[3] == 0x1032_5476 && H1[4] == 0xc3d2_e1f0
  {
  }
}
