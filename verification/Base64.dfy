/** Base64 in both alphabets (sections 4 and 5 of RFC 4648), with one decoder for both. */
module Base64 {
  type byte = x: int | 0 <= x < 256
  type sextet = x: int | 0 <= x < 64

  const PAD: byte := 61

  function EncodeChar(v: sextet, url: bool): byte
  {
    if v < 26 then 65 + v
    else if v < 52 then 97 + (v - 26)
    else if v < 62 then 48 + (v - 52)
    else if v == 62 then (if url then 45 else 43)
    else if url then 95 else 47
  }

  /** The value of a character of either alphabet, or 65 for any other. */
  function DecodeChar(c: byte): (v: int)
    ensures 0 <= v < 64 || v == 65
  {
    if 65 <= c <= 90 then c - 65
    else if 97 <= c <= 122 then c - 97 + 26
    else if 48 <= c <= 57 then c - 48 + 52
    else if c == 43 || c == 45 then 62
    else if c == 47 || c == 95 then 63
    else 65
  }

  lemma CharRoundTrip(v: sextet, url: bool)
    ensures DecodeChar(EncodeChar(v, url)) == v && DecodeChar(PAD) == 65
  {
  }

  // ---- sextets ----

  function Sextets3(x: byte, y: byte, z: byte): seq<sextet>
  {
    [x / 4, x % 4 * 16 + y / 16, y % 16 * 4 + z / 64, z % 64]
  }

  /** The sextets of a byte string; an unfinished group of three is completed with zero bits. */
  function Sextets(b: seq<byte>): seq<sextet>
  {
    if |b| == 0 then []
    else if |b| == 1 then [b[0] / 4, b[0] % 4 * 16]
    else if |b| == 2 then [b[0] / 4, b[0] % 4 * 16 + b[1] / 16, b[1] % 16 * 4]
    else Sextets3(b[0], b[1], b[2]) + Sextets(b[3..])
  }

  function First(vs: seq<sextet>): byte requires |vs| >= 2 { ((vs[0] as int) * 4 + vs[1] / 16) % 256 }
  function Second(vs: seq<sextet>): byte requires |vs| >= 3 { ((vs[1] as int) * 16 + vs[2] / 4) % 256 }
  function Third(vs: seq<sextet>): byte requires |vs| >= 4 { ((vs[2] as int) * 64 + vs[3]) % 256 }

  /** The bytes of a sequence of sextets: three for four, and from a shorter rest the bytes it completes. */
  function Bytes(vs: seq<sextet>): seq<byte>
  {
    if |vs| < 2 then []
    else if |vs| == 2 then [First(vs)]
    else if |vs| == 3 then [First(vs), Second(vs)]
    else [First(vs), Second(vs), Third(vs)] + Bytes(vs[4..])
  }

  lemma JoinFirst(x: int, y: int)
    requires 0 <= x < 256 && 0 <= y < 256
    ensures (x / 4 * 4 + (x % 4 * 16 + y / 16) / 16) % 256 == x
  {
    assert 0 <= y / 16 < 16;
    assert (x % 4 * 16 + y / 16) / 16 == x % 4;
  }

  lemma JoinSecond(x: int, y: int, z: int)
    requires 0 <= x < 256 && 0 <= y < 256 && 0 <= z < 256
    ensures ((x % 4 * 16 + y / 16) * 16 + (y % 16 * 4 + z / 64) / 4) % 256 == y
  {
    assert 0 <= z / 64 < 4;
    assert (y % 16 * 4 + z / 64) / 4 == y % 16;
    assert (x % 4 * 16 + y / 16) * 16 + y % 16 == x % 4 * 256 + y;
  }

  lemma JoinThird(y: int, z: int)
    requires 0 <= y < 256 && 0 <= z < 256
    ensures ((y % 16 * 4 + z / 64) * 64 + z % 64) % 256 == z
  {
    assert (y % 16 * 4 + z / 64) * 64 + z % 64 == y % 16 * 256 + z;
  }

  lemma Group(x: byte, y: byte, z: byte, vs: seq<sextet>)
    requires |vs| >= 3 && vs[0] == x / 4 && vs[1] == x % 4 * 16 + y / 16 && vs[2] == y % 16 * 4 + z / 64
    ensures First(vs) == x && Second(vs) == y && (|vs| >= 4 && vs[3] == z % 64 ==> Third(vs) == z)
  {
    JoinFirst(x, y);
    JoinSecond(x, y, z);
    JoinThird(y, z);
  }

  lemma OneAlone(x: byte, vs: seq<sextet>)
    requires |vs| == 2 && vs[0] == x / 4 && vs[1] == x % 4 * 16
    ensures Bytes(vs) == [x]
  {
    JoinFirst(x, 0);
  }

  lemma TwoAlone(x: byte, y: byte, vs: seq<sextet>)
    requires |vs| == 3 && vs[0] == x / 4 && vs[1] == x % 4 * 16 + y / 16 && vs[2] == y % 16 * 4
    ensures Bytes(vs) == [x, y]
  {
    JoinFirst(x, y);
    JoinSecond(x, y, 0);
  }

  lemma OneIs(b: seq<byte>)
    requires |b| == 1
    ensures Sextets(b) == [b[0] / 4, b[0] % 4 * 16] && b == [b[0]]
  {
  }

  lemma TwoIs(b: seq<byte>)
    requires |b| == 2
    ensures Sextets(b) == [b[0] / 4, b[0] % 4 * 16 + b[1] / 16, b[1] % 16 * 4] && b == [b[0], b[1]]
  {
  }

  lemma OneBack(b: seq<byte>)
    requires |b| == 1
    ensures Bytes(Sextets(b)) == b
  {
    OneIs(b);
    OneAlone(b[0], [b[0] / 4, b[0] % 4 * 16]);
  }

  lemma TwoBack(b: seq<byte>)
    requires |b| == 2
    ensures Bytes(Sextets(b)) == b
  {
    TwoIs(b);
    TwoAlone(b[0], b[1], [b[0] / 4, b[0] % 4 * 16 + b[1] / 16, b[1] % 16 * 4]);
  }

  lemma {:induction false} BytesSextets(b: seq<byte>)
    ensures Bytes(Sextets(b)) == b
  {
    if |b| == 0 {
    } else if |b| == 1 {
      OneBack(b);
    } else if |b| == 2 {
      TwoBack(b);
    } else {
      BytesSextets(b[3..]);
      GroupFirst(b, Sextets(b[3..]));
      assert b == [b[0], b[1], b[2]] + b[3..];
    }
  }

  lemma GroupFirst(b: seq<byte>, rest: seq<sextet>)
    requires |b| >= 3
    ensures Bytes(Sextets3(b[0], b[1], b[2]) + rest) == [b[0], b[1], b[2]] + Bytes(rest)
  {
    var vs := Sextets3(b[0], b[1], b[2]) + rest;
    assert vs[4..] == rest;
    Group(b[0], b[1], b[2], vs);
  }

  // ---- characters ----

  function Chars(vs: seq<sextet>, url: bool): (r: seq<byte>)
    ensures |r| == |vs| && forall i :: 0 <= i < |vs| ==> r[i] == EncodeChar(vs[i], url)
  {
    seq(|vs|, i requires 0 <= i < |vs| => EncodeChar(vs[i], url))
  }

  function Padding(n: nat, url: bool): seq<byte>
  {
    if url || n % 3 == 0 then [] else if n % 3 == 1 then [PAD, PAD] else [PAD]
  }

  function Encode(b: seq<byte>, url: bool): seq<byte> { Chars(Sextets(b), url) + Padding(|b|, url) }

  /** The values of the characters that have one; everything else is skipped. */
  function Values(s: seq<byte>): seq<sextet>
  {
    if s == [] then [] else (if DecodeChar(s[0]) == 65 then [] else [DecodeChar(s[0])]) + Values(s[1..])
  }

  function Decode(s: seq<byte>): seq<byte> { Bytes(Values(s)) }

  lemma {:induction false} ValuesConcat(s: seq<byte>, t: seq<byte>)
    ensures Values(s + t) == Values(s) + Values(t)
  {
    if s == [] {
      assert s + t == t;
    } else {
      assert (s + t)[1..] == s[1..] + t;
      ValuesConcat(s[1..], t);
    }
  }

  lemma {:induction false} ValuesChars(vs: seq<sextet>, url: bool)
    ensures Values(Chars(vs, url)) == vs
  {
    if vs != [] {
      CharRoundTrip(vs[0], url);
      assert Chars(vs, url)[1..] == Chars(vs[1..], url);
      ValuesChars(vs[1..], url);
    }
  }

  /** The one decoder inverts both encoders, on every byte string. */
  lemma RoundTrip(b: seq<byte>, url: bool)
    ensures Decode(Encode(b, url)) == b
  {
    ValuesConcat(Chars(Sextets(b), url), Padding(|b|, url));
    ValuesChars(Sextets(b), url);
    CharRoundTrip(0, url);
    NoValues(Padding(|b|, url));
    assert Sextets(b) + [] == Sextets(b);
    BytesSextets(b);
  }

  /** Characters outside the alphabets may be interleaved anywhere. */
  lemma Tolerant(s: seq<byte>, junk: seq<byte>, t: seq<byte>)
    requires forall i :: 0 <= i < |junk| ==> DecodeChar(junk[i]) == 65
    ensures Decode(s + junk + t) == Decode(s + t)
  {
    ValuesConcat(s + junk, t);
    ValuesConcat(s, junk);
    ValuesConcat(s, t);
    NoValues(junk);
    assert Values(s) + [] == Values(s);
  }

  lemma {:induction false} NoValues(junk: seq<byte>)
    requires forall i :: 0 <= i < |junk| ==> DecodeChar(junk[i]) == 65
    ensures Values(junk) == []
  {
    if junk != [] { NoValues(junk[1..]); }
  }

  // ---- sizes ----

  function EncodeSize(n: nat): nat { (n / 3 + if n % 3 != 0 then 1 else 0) * 4 }

  function DecodeSize(n: nat): nat { (n + 3) / 4 * 3 }

  lemma {:induction false} SextetCount(b: seq<byte>)
    ensures |Sextets(b)| == |b| / 3 * 4 + if |b| % 3 == 0 then 0 else |b| % 3 + 1
  {
    if |b| >= 3 { SextetCount(b[3..]); }
  }

  lemma EncodeFits(b: seq<byte>)
    ensures |Encode(b, false)| == EncodeSize(|b|) && |Encode(b, true)| <= EncodeSize(|b|)
  {
    SextetCount(b);
  }

  lemma {:induction false} ByteCount(vs: seq<sextet>)
    ensures |Bytes(vs)| <= DecodeSize(|vs|)
  {
    if |vs| >= 4 { ByteCount(vs[4..]); }
  }

  lemma {:induction false} ValueCount(s: seq<byte>)
    ensures |Values(s)| <= |s|
  {
    if s != [] { ValueCount(s[1..]); }
  }

  /** The unchecked branch of the bounded decoder never overruns its output. */
  lemma DecodeFits(s: seq<byte>)
    ensures |Decode(s)| <= DecodeSize(|s|)
  {
    ValueCount(s);
    ByteCount(Values(s));
  }

  // ---- the encoder and the decoder as they run ----

  /** The four characters of the three bytes at i. */
  function FourChars(b: seq<byte>, i: nat, url: bool): (r: seq<byte>)
    requires i + 2 < |b|
    ensures |r| == 4
  {
    [EncodeChar(b[i] / 4, url), EncodeChar(b[i] % 4 * 16 + b[i + 1] / 16, url),
     EncodeChar(b[i + 1] % 16 * 4 + b[i + 2] / 64, url), EncodeChar(b[i + 2] % 64, url)]
  }

  /** What the one or two bytes left at i are written as, with their padding. */
  function LastChars(b: seq<byte>, i: nat, url: bool): (r: seq<byte>)
    requires i <= |b|
  {
    if i + 1 < |b| then
      [EncodeChar(b[i] / 4, url), EncodeChar(b[i] % 4 * 16 + b[i + 1] / 16, url), EncodeChar(b[i + 1] % 16 * 4, url)] + if url then [] else [PAD]
    else if i < |b| then
      [EncodeChar(b[i] / 4, url), EncodeChar(b[i] % 4 * 16, url)] + if url then [] else [PAD, PAD]
    else []
  }

  /** The encoding, of which out is written and the bytes from i on are still to come. */
  ghost predicate Written(b: seq<byte>, i: nat, url: bool, out: seq<byte>)
  {
    i <= |b| && i % 3 == 0 && out + Chars(Sextets(b[i..]), url) == Chars(Sextets(b), url)
  }

  lemma WrittenNext(b: seq<byte>, i: nat, url: bool, out: seq<byte>)
    requires Written(b, i, url, out) && i + 2 < |b|
    ensures Written(b, i + 3, url, out + FourChars(b, i, url))
  {
    assert b[i..][3..] == b[i + 3..];
    ConcatChars(Sextets3(b[i], b[i + 1], b[i + 2]), Sextets(b[i + 3..]), url);
  }

  lemma WrittenLast(b: seq<byte>, i: nat, url: bool, out: seq<byte>)
    requires Written(b, i, url, out) && |b| <= i + 2
    ensures out + LastChars(b, i, url) == Encode(b, url)
  {
    Tail(b, i, url);
  }

  lemma ConcatChars(u: seq<sextet>, v: seq<sextet>, url: bool)
    ensures Chars(u + v, url) == Chars(u, url) + Chars(v, url)
  {
  }

  lemma Tail(b: seq<byte>, i: nat, url: bool)
    requires i <= |b| <= i + 2 && i % 3 == 0
    ensures LastChars(b, i, url) == Chars(Sextets(b[i..]), url) + Padding(|b|, url)
  {
  }

  method MakeEncode(b: seq<byte>, url: bool) returns (out: seq<byte>)
    ensures out == Encode(b, url)
  {
    out := [];
    var i := 0;
    assert b[0..] == b;
    while i + 2 < |b|
      invariant Written(b, i, url, out)
      decreases |b| - i
    {
      WrittenNext(b, i, url, out);
      out := out + FourChars(b, i, url);
      i := i + 3;
    }
    WrittenLast(b, i, url, out);
    out := out + LastChars(b, i, url);
  }

  lemma WrittenFits(b: seq<byte>, i: nat, url: bool, out: seq<byte>, more: seq<byte>)
    requires Written(b, i, url, out + more)
    ensures |out| + |more| <= |Encode(b, url)|
  {
    assert |out + more| <= |Chars(Sextets(b), url)|;
  }

  /** The bounded encoders write a prefix of the encoding: all of it, or as much as fits. */
  method EncodeInto(b: seq<byte>, url: bool, out: array<byte>) returns (accum: nat)
    modifies out
    ensures accum == Least(|Encode(b, url)|, out.Length) && out[..accum] == Encode(b, url)[..accum]
  {
    var checked := out.Length < EncodeSize(|b|);
    EncodeFits(b);
    accum := 0;
    ghost var produced: seq<byte> := [];
    var i := 0;
    assert b[0..] == b;
    while i + 2 < |b|
      invariant Written(b, i, url, produced) && Holds(out, accum, produced)
      decreases |b| - i
    {
      WrittenNext(b, i, url, produced);
      WrittenFits(b, i + 3, url, produced, FourChars(b, i, url));
      accum := Push(out, accum, FourChars(b, i, url), checked, produced);
      produced := produced + FourChars(b, i, url);
      i := i + 3;
    }
    WrittenLast(b, i, url, produced);
    accum := Push(out, accum, LastChars(b, i, url), checked, produced);
  }

  lemma ValuesFrom(s: seq<byte>, i: nat)
    requires i < |s|
    ensures Values(s[i..]) == (if DecodeChar(s[i]) == 65 then [] else [DecodeChar(s[i])]) + Values(s[i + 1..])
  {
    assert s[i..][1..] == s[i + 1..];
  }

  lemma OneMore(s: seq<byte>, i: nat, acc: seq<sextet>, all: seq<sextet>)
    requires i < |s| && acc + Values(s[i..]) == all
    ensures DecodeChar(s[i]) == 65 ==> acc + Values(s[i + 1..]) == all
    ensures DecodeChar(s[i]) != 65 ==> acc + [DecodeChar(s[i])] + Values(s[i + 1..]) == all
  {
    ValuesFrom(s, i);
  }

  /** The next four values, or what is left of them at the end of the input. */
  method Accumulate(s: seq<byte>, i0: nat) returns (acc: seq<sextet>, i: nat)
    requires i0 < |s|
    ensures i0 < i <= |s| && acc + Values(s[i..]) == Values(s[i0..]) && |acc| <= 4 && (|acc| < 4 ==> i == |s|)
  {
    acc, i := [], i0;
    ghost var all := Values(s[i0..]);
    while i < |s|
      invariant i0 <= i <= |s| && |acc| < 4 && acc + Values(s[i..]) == all && (i == i0 ==> i < |s|)
      decreases |s| - i
    {
      var v := DecodeChar(s[i]);
      OneMore(s, i, acc, all);
      i := i + 1;
      if v != 65 {
        acc := acc + [v];
        if |acc| == 4 {
          break;
        }
      }
    }
  }

  /** What four values, or the last few, contribute. */
  function GroupBytes(acc: seq<sextet>): seq<byte>
    requires |acc| <= 4
  {
    (if |acc| >= 2 then [First(acc)] else []) + (if |acc| >= 3 then [Second(acc)] else []) + (if |acc| >= 4 then [Third(acc)] else [])
  }

  lemma GroupThenRest(acc: seq<sextet>, rest: seq<sextet>)
    requires |acc| <= 4 && (|acc| < 4 ==> rest == [])
    ensures Bytes(acc + rest) == GroupBytes(acc) + Bytes(rest)
  {
    if |acc| == 4 {
      assert (acc + rest)[4..] == rest;
    } else {
      assert acc + rest == acc;
    }
  }

  function Least(a: nat, b: nat): nat { if a < b then a else b }

  /** out holds what fits of the bytes produced. */
  ghost predicate Holds(out: array<byte>, accum: nat, produced: seq<byte>)
    reads out
  {
    accum == Least(|produced|, out.Length) && out[..accum] == produced[..accum]
  }

  /** One turn of the outer loop. */
  method DecodeGroup(s: seq<byte>, i: nat, out: array<byte>, accum0: nat, checked: bool, ghost produced: seq<byte>)
    returns (next: nat, accum: nat, ghost produced': seq<byte>)
    requires i < |s| && Holds(out, accum0, produced) && produced + Bytes(Values(s[i..])) == Decode(s)
    requires !checked ==> |Decode(s)| <= out.Length
    modifies out
    ensures i < next <= |s| && Holds(out, accum, produced') && produced' + Bytes(Values(s[next..])) == Decode(s)
  {
    var acc;
    acc, next := Accumulate(s, i);
    GroupThenRest(acc, Values(s[next..]));
    produced' := produced + GroupBytes(acc);
    assert produced' + Bytes(Values(s[next..])) == Decode(s);
    accum := Push(out, accum0, GroupBytes(acc), checked, produced);
  }

  /** The bounded decoder writes a prefix of the decoded bytes: all of them, or as many as fit. */
  method DecodeInto(s: seq<byte>, out: array<byte>) returns (accum: nat)
    modifies out
    ensures accum == Least(|Decode(s)|, out.Length) && out[..accum] == Decode(s)[..accum]
  {
    var checked := out.Length < DecodeSize(|s|);
    DecodeFits(s);
    accum := 0;
    ghost var produced: seq<byte> := [];
    var i := 0;
    assert s[0..] == s;
    while i < |s|
      invariant i <= |s| && Holds(out, accum, produced) && produced + Bytes(Values(s[i..])) == Decode(s)
    {
      i, accum, produced := DecodeGroup(s, i, out, accum, checked, produced);
    }
    assert produced == Decode(s);
  }

  /** Bytes one by one, each only while there is room when room is checked. */
  method Push(out: array<byte>, accum0: nat, bytes: seq<byte>, checked: bool, ghost produced: seq<byte>) returns (accum: nat)
    requires Holds(out, accum0, produced) && (!checked ==> |produced| + |bytes| <= out.Length)
    modifies out
    ensures Holds(out, accum, produced + bytes)
  {
    accum := accum0;
    var j := 0;
    while j < |bytes|
      invariant j <= |bytes| && accum == (if |produced| + j < out.Length then |produced| + j else out.Length)
      invariant out[..accum] == (produced + bytes)[..accum]
    {
      if !checked || accum < out.Length {
        out[accum] := bytes[j];
        accum := accum + 1;
      }
      j := j + 1;
    }
  }
}
