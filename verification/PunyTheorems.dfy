/** When decoding undoes encoding, and what decoding accepts. */
module PunyTheorems {
  import opened Common
  import opened PunyDigits
  import opened PunyEvents
  import opened PunyCodec

  lemma {:induction false} VarDigitsClean(q: nat, k: int, bias: int)
    ensures forall j :: 0 <= j < |VarDigits(q, k, bias)| ==> VarDigits(q, k, bias)[j] != DASH
    decreases q
  {
    var t := Threshold(k, bias);
    if q >= t {
      Quotient(q, t);
      VarDigitsClean((q - t) / (BASE - t), k + BASE, bias);
    }
  }

  lemma {:induction false} WireClean(b: nat, evs: seq<Event>)
    ensures forall j :: 0 <= j < |Wire(b, evs)| ==> Wire(b, evs)[j] != DASH
  {
    if evs != [] {
      WireClean(b, evs[..|evs| - 1]);
      var st := After(b, evs[..|evs| - 1]);
      VarDigitsClean(Delta(st, evs[|evs| - 1]), BASE, st.bias);
    }
  }

  /** The last delimiter of u + [DASH] + v is the one shown, when v has none. */
  lemma {:induction false} LastDashAt(e: seq<byte>, p: nat)
    requires p < |e| && e[p] == DASH && forall j :: p < j < |e| ==> e[j] != DASH
    ensures LastDash(e) == p
    decreases |e|
  {
    if p < |e| - 1 {
      LastDashAt(e[..|e| - 1], p);
    }
  }

  lemma {:induction false} LastDashNone(e: seq<byte>)
    requires forall j :: 0 <= j < |e| ==> e[j] != DASH
    ensures LastDash(e) == 0
  {
    if e != [] { LastDashNone(e[..|e| - 1]); }
  }

  lemma {:induction false} SameDash(e: seq<byte>, f: seq<byte>)
    requires |e| == |f| && forall j :: 0 <= j < |e| ==> (f[j] == DASH <==> e[j] == DASH)
    ensures LastDash(f) == LastDash(e)
  {
    if e != [] {
      SameDash(e[..|e| - 1], f[..|f| - 1]);
    }
  }

  lemma LowerKeepsDash(e: seq<byte>, x: nat)
    requires x <= |e|
    ensures forall j :: 0 <= j < |e| ==> ((e[..x] + LowerAll(e[x..]))[j] == DASH <==> e[j] == DASH)
  {
  }

  /** Letter case does not move the delimiter. */
  lemma FoldKeepsDash(e: seq<byte>)
    ensures LastDash(Fold(e)) == LastDash(e)
  {
    LowerKeepsDash(e, ExtStart(e));
    SameDash(e, Fold(e));
  }

  lemma EncodeStart(s: seq<nat>)
    ensures var b := |Basics(s)|;
      && LastDash(Encode(s)) == b && b <= |Encode(s)|
      && ExtStart(Encode(s)) == (if b > 0 then b + 1 else 0)
      && Encode(s)[..b] == Basics(s) && Encode(s)[ExtStart(Encode(s))..] == Wire(b, Events(s))
  {
    var bs, w := Basics(s), Wire(|Basics(s)|, Events(s));
    WireClean(|bs|, Events(s));
    if bs != [] {
      assert Encode(s) == bs + [DASH] + w;
      assert forall j :: |bs| < j < |Encode(s)| ==> Encode(s)[j] == w[j - |bs| - 1];
      LastDashAt(Encode(s), |bs|);
    } else {
      assert Encode(s) == w;
      LastDashNone(Encode(s));
    }
  }

  lemma FoldSplits(e: seq<byte>)
    ensures var bs := e[..LastDash(e)]; Fold(e) == bs + (if bs != [] then [DASH] else []) + LowerAll(e[ExtStart(e)..])
  {
    assert LastDash(e) > 0 ==> e[..ExtStart(e)] == e[..LastDash(e)] + [DASH];
  }

  lemma DecodeOnlyEncodings(e: seq<byte>, s: seq<nat>)
    requires |e| <= MAXINT && Decode(e) == Some(s)
    ensures Fold(e) == Encode(s) && InRange(|Basics(s)|, Events(s))
  {
    var bs, start := e[..LastDash(e)], ExtStart(e);
    assert e[start..start] == [];
    var evs := DecodeSound(e, start, start, bs, []);
    EventsReplay(bs, evs);
    FoldSplits(e);
  }

  lemma SlicesAt(e: seq<byte>, k: nat, x: nat)
    requires k <= x <= |e|
    ensures (e[..x] + LowerAll(e[x..]))[..k] == e[..k] && (e[..x] + LowerAll(e[x..]))[x..] == LowerAll(e[x..|e|])
  {
    assert e[x..|e|] == e[x..];
    var u, v := e[..x], LowerAll(e[x..]);
    assert (u + v)[x..] == v;
    assert (u + v)[..k] == u[..k];
  }

  lemma FoldSlices(e: seq<byte>)
    ensures Fold(e)[..LastDash(e)] == e[..LastDash(e)] && Fold(e)[ExtStart(e)..] == LowerAll(e[ExtStart(e)..|e|])
  {
    if LastDash(e) > 0 {
      SlicesAt(e, LastDash(e), LastDash(e) + 1);
    } else {
      SlicesAt(e, 0, 0);
    }
  }

  lemma FoldParts(e: seq<byte>, s: seq<nat>)
    requires Fold(e) == Encode(s)
    ensures LastDash(e) == |Basics(s)| <= |e| && e[..LastDash(e)] == Basics(s)
    ensures LowerAll(e[ExtStart(e)..|e|]) == Wire(|Basics(s)|, Events(s))
  {
    FoldKeepsDash(e);
    EncodeStart(s);
    FoldSlices(e);
  }

  lemma DecodeParts(e: seq<byte>, bs: seq<nat>, evs: seq<Event>)
    requires |e| <= MAXINT && LastDash(e) == |bs| <= |e| && e[..LastDash(e)] == bs
    requires forall j :: 0 <= j < |bs| ==> IsBasic(bs[j])
    requires Run(|bs|, evs) && InRange(|bs|, evs) && LowerAll(e[ExtStart(e)..|e|]) == Wire(|bs|, evs)
    ensures Decode(e) == Some(Replay(bs, evs))
  {
    assert forall j :: 0 <= j < |bs| ==> e[j] == bs[j];
    DecodeComplete(e, ExtStart(e), |e|, bs, evs);
  }

  lemma DecodeEncodings(e: seq<byte>, s: seq<nat>)
    requires |e| <= MAXINT && Fold(e) == Encode(s) && InRange(|Basics(s)|, Events(s))
    ensures Decode(e) == Some(s)
  {
    FoldParts(e, s);
    ReplayEvents(s);
    DecodeParts(e, Basics(s), Events(s));
  }

  /**
    Decoding accepts exactly the encodings, with the letters of the extended part in either case, of
    the strings whose distances fit 32 bits; and it returns the string encoded.
   */
  lemma DecodeExact(e: seq<byte>, s: seq<nat>)
    requires |e| <= MAXINT
    ensures Decode(e) == Some(s) <==> Fold(e) == Encode(s) && InRange(|Basics(s)|, Events(s))
  {
    if Decode(e) == Some(s) { DecodeOnlyEncodings(e, s); }
    if Fold(e) == Encode(s) && InRange(|Basics(s)|, Events(s)) { DecodeEncodings(e, s); }
  }

  /** Two accepted inputs with the same result differ at most in letter case. */
  lemma DecodeInjective(e: seq<byte>, e': seq<byte>)
    requires |e| <= MAXINT && |e'| <= MAXINT && Decode(e).Some? && Decode(e) == Decode(e')
    ensures Fold(e) == Fold(e')
  {
    DecodeExact(e, Decode(e).value);
    DecodeExact(e', Decode(e).value);
  }

  /** decode(encode(s)) = s holds exactly for the strings in range. */
  lemma RoundTripExact(s: seq<nat>)
    requires |Encode(s)| <= MAXINT
    ensures Decode(Encode(s)) == Some(s) <==> InRange(|Basics(s)|, Events(s))
  {
    FoldEncode(s);
    DecodeExact(Encode(s), s);
  }

  lemma {:induction false} VarDigitsLower(q: nat, k: int, bias: int)
    ensures LowerAll(VarDigits(q, k, bias)) == VarDigits(q, k, bias)
    decreases q
  {
    var t := Threshold(k, bias);
    if q >= t {
      Quotient(q, t);
      VarDigitsLower((q - t) / (BASE - t), k + BASE, bias);
      LowerAppend(VarDigits(q, k, bias)[..1], VarDigits(q, k, bias)[1..]);
    }
  }

  lemma LowerAppend(a: seq<byte>, b: seq<byte>)
    ensures LowerAll(a + b) == LowerAll(a) + LowerAll(b)
  {
  }

  lemma {:induction false} WireLower(b: nat, evs: seq<Event>)
    ensures LowerAll(Wire(b, evs)) == Wire(b, evs)
  {
    if evs != [] {
      var st, ev := After(b, evs[..|evs| - 1]), evs[|evs| - 1];
      WireLower(b, evs[..|evs| - 1]);
      VarDigitsLower(Delta(st, ev), BASE, st.bias);
      LowerAppend(Wire(b, evs[..|evs| - 1]), VarDigits(Delta(st, ev), BASE, st.bias));
    }
  }

  lemma FoldEncode(s: seq<nat>)
    ensures Fold(Encode(s)) == Encode(s)
  {
    EncodeStart(s);
    WireLower(|Basics(s)|, Events(s));
  }

  // ---- lengths: strings of ordinary size stay in range ----

  function Pow10(n: nat): nat { if n == 0 then 1 else 10 * Pow10(n - 1) }

  lemma {:induction false} VarDigitsShort(q: nat, k: int, bias: int, n: nat)
    requires q < Pow10(n)
    ensures |VarDigits(q, k, bias)| <= n + 1
    decreases n
  {
    var t := Threshold(k, bias);
    if q >= t {
      Quotient(q, t);
      TenthAtMost(q, t);
      VarDigitsShort((q - t) / (BASE - t), k + BASE, bias, n - 1);
    }
  }

  lemma TenthAtMost(q: nat, t: int)
    requires TMIN <= t <= TMAX && t <= q
    ensures (q - t) / (BASE - t) <= q / 10
  {
    var u, d := q - t, BASE - t;
    var x := u / d;
    assert u == d * x + u % d;
    MulAtLeast10(d, x);
  }

  lemma MulAtLeast10(d: int, x: nat)
    requires d >= 10
    ensures d * x >= 10 * x
  {
  }

  lemma Pow10Value()
    ensures Pow10(10) == 10_000_000_000
  {
    assert Pow10(2) == 100;
    assert Pow10(4) == 10_000;
    assert Pow10(6) == 1_000_000;
    assert Pow10(8) == 100_000_000;
  }

  lemma {:induction false} WireShort(b: nat, evs: seq<Event>)
    requires Run(b, evs) && InRange(b, evs)
    ensures |Wire(b, evs)| <= 11 * |evs|
  {
    if evs != [] {
      var pre := evs[..|evs| - 1];
      var st, ev := After(b, pre), evs[|evs| - 1];
      WireShort(b, pre);
      RunState(b, pre);
      TotalAhead(st, ev);
      Pow10Value();
      VarDigitsShort(Delta(st, ev), BASE, st.bias, 10);
    }
  }

  /** Code points up to m in a string of at most len characters keep every distance within m * len. */
  lemma {:induction false} SmallInRange(s: seq<nat>, m: nat, len: nat)
    requires |s| <= len && m * len <= MAXINT && m <= MAXINT && forall j :: 0 <= j < |s| ==> s[j] <= m
    ensures InRange(|Basics(s)|, Events(s))
    decreases |s|
  {
    ReplayEvents(s);
    if Events(s) != [] {
      var p := LastMax(s);
      var r := Remove(s, p);
      RemoveInsert(s, p);
      BasicsInsert(r, p, s[p]);
      SmallInRange(r, m, len);
      ReplayEvents(r);
      RunState(|Basics(r)|, Events(r));
      assert Events(s)[..|Events(s)| - 1] == Events(r);
      TotalSmall(After(|Basics(r)|, Events(r)), Event(s[p], p), m, len);
    }
  }

  lemma MulMono(a: int, b: int, n: nat)
    requires a <= b
    ensures a * n <= b * n
  {
  }

  lemma TotalSmall(st: State, ev: Event, m: nat, len: nat)
    requires ev.at <= st.h < len && INITIAL_N <= st.n <= ev.cp <= m && m * len <= MAXINT
    ensures Total(st, ev) <= MAXINT
  {
    var c := ev.cp - st.n;
    MulMono(st.h + 1, len, c);
    MulMono(c, m - 1, len);
    assert len * c == c * len;
  }

  /** The round trip, for every string of code points up to m with m times the length below 2^32. */
  lemma RoundTrip(s: seq<nat>, m: nat)
    requires (forall j :: 0 <= j < |s| ==> s[j] <= m) && INITIAL_N <= m && m * |s| <= MAXINT && m <= MAXINT
    ensures |Encode(s)| <= MAXINT && Decode(Encode(s)) == Some(s)
  {
    SmallInRange(s, m, |s|);
    ReplayEvents(s);
    WireShort(|Basics(s)|, Events(s));
    MulMono(INITIAL_N, m, |s|);
    RoundTripExact(s);
  }

  lemma NeverDecoded(e: seq<byte>, s: seq<nat>)
    requires |e| <= MAXINT && !InRange(|Basics(s)|, Events(s))
    ensures Decode(e) != Some(s)
  {
    DecodeExact(e, s);
  }

  lemma EventsOne(s: seq<nat>, at: nat, cp: nat, evs: seq<Event>)
    requires at <= |s| && cp >= INITIAL_N && Below(s, cp, at) && Events(s) == evs
    ensures Events(Insert(s, at, cp)) == evs + [Event(cp, at)] && Basics(Insert(s, at, cp)) == Basics(s)
  {
    EventsSnoc(s, at, cp);
    BasicsInsert(s, at, cp);
  }

  lemma GapEvents(s: seq<nat>, x: nat, y: nat)
    requires |s| == 1 && s[0] < INITIAL_N <= x < y
    ensures var s' := Insert(Insert(s, 0, x), 1, y); |Basics(s')| == 1 && Events(s') == [] + [Event(x, 0)] + [Event(y, 1)]
  {
    BasicsAll(s);
    EventsOne(s, 0, x, []);
    InsertFront(s, x);
    EventsOne(Insert(s, 0, x), 1, y, [] + [Event(x, 0)]);
  }

  lemma InsertFront(s: seq<nat>, x: nat)
    ensures Insert(s, 0, x) == [x] + s
  {
  }

  lemma GapFirst(b: nat, ev: Event)
    requires ev.at <= b && INITIAL_N <= ev.cp <= MAXINT && Total(Start(b), ev) <= MAXINT
    ensures Run(b, [] + [ev]) && InRange(b, [] + [ev]) && After(b, [] + [ev]) == Step(Start(b), ev)
  {
    RunSnocAt(b, [], ev);
  }

  lemma GapSecond(b: nat, evs: seq<Event>, ev: Event)
    requires Run(b, evs) && InRange(b, evs) && Follows(After(b, evs), ev) && ev.cp <= MAXINT
    ensures Writable(b, evs + [ev]) <==> Delta(After(b, evs), ev) <= MAXINT
    ensures InRange(b, evs + [ev]) <==> Total(After(b, evs), ev) <= MAXINT
  {
    InRangeWritable(b, evs);
    RunSnocAt(b, evs, ev);
  }

  lemma GapRange(b: nat, x: Event, y: Event)
    requires b == 1 && x == Event(INITIAL_N, 0) && y.at == 1 && INITIAL_N < y.cp <= MAXINT
    ensures Writable(b, [] + [x] + [y]) <==> 3 * (y.cp - INITIAL_N) <= MAXINT
    ensures InRange(b, [] + [x] + [y]) <==> 3 * (y.cp - INITIAL_N) < MAXINT
  {
    GapFirst(b, x);
    GapSecond(b, [] + [x], y);
  }

  /**
    The encoder's guard is on the number it writes, the decoder's on the sum with its position, so a
    few strings far outside Unicode are written and then refused: U+0080, 1431655893, 'a' is one.
   */
  lemma RoundTripGap() returns (s: seq<nat>)
    ensures s == Insert(Insert([97], 0, INITIAL_N), 1, 1431655893)
    ensures Writable(|Basics(s)|, Events(s)) && forall e :: |e| <= MAXINT ==> Decode(e) != Some(s)
  {
    s := Insert(Insert([97], 0, INITIAL_N), 1, 1431655893);
    GapEvents([97], INITIAL_N, 1431655893);
    GapRange(1, Event(INITIAL_N, 0), Event(1431655893, 1));
    forall e | |e| <= MAXINT ensures Decode(e) != Some(s) { NeverDecoded(e, s); }
  }
}
