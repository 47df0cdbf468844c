/** Samples of section 7.1 of RFC 3492, in code points and in characters. */
module PunySamples {
  import opened Latches
  import opened PunyDigits
  import opened PunyEvents
  import opened PunyCodec
  import opened PunyTheorems

  function Ascii(t: string): (r: seq<byte>)
    ensures |r| == |t|
  {
    seq(|t|, i requires 0 <= i < |t| => t[i] as int)
  }

  /** What digits stand for (section 3.3): each digit counts as many as the thresholds before it leave room for. */
  function Value(ds: seq<nat>, k: int, bias: int): int
  {
    if ds == [] then 0 else ds[0] + (36 - Threshold(k, bias)) * Value(ds[1..], k + 36, bias)
  }

  /** All digits reach their thresholds but the last. */
  predicate Complete(ds: seq<nat>, k: int, bias: int)
  {
    if |ds| == 0 then false
    else if |ds| == 1 then ds[0] < Threshold(k, bias)
    else Threshold(k, bias) <= ds[0] < 36 && Complete(ds[1..], k + 36, bias)
  }

  /** The character for a digit. */
  function Letter(d: nat): char { if d < 36 then "abcdefghijklmnopqrstuvwxyz0123456789"[d] else '?' }

  lemma LetterIs(d: nat)
    requires d < 36
    ensures EncodeDigit(d) == Letter(d) as int
  {
    assert d == 0 || d == 1 || d == 2 || d == 3 || d == 4 || d == 5 || d == 6 || d == 7 || d == 8 || d == 9 || d == 10 || d == 11
      || d == 12 || d == 13 || d == 14 || d == 15 || d == 16 || d == 17 || d == 18 || d == 19 || d == 20 || d == 21 || d == 22 || d == 23
      || d == 24 || d == 25 || d == 26 || d == 27 || d == 28 || d == 29 || d == 30 || d == 31 || d == 32 || d == 33 || d == 34 || d == 35;
  }

  function Letters(ds: seq<nat>): string
  {
    if ds == [] then "" else [Letter(ds[0])] + Letters(ds[1..])
  }

  /** Such digits are written for their value, and for nothing else. */
  lemma {:induction false} Spelled(ds: seq<nat>, k: int, bias: int)
    requires Complete(ds, k, bias)
    ensures Value(ds, k, bias) >= 0 && VarDigits(Value(ds, k, bias), k, bias) == Ascii(Letters(ds))
    decreases |ds|
  {
    LetterIs(ds[0]);
    if |ds| == 1 {
      LastSpelled(ds[0], ds[1..], k, bias);
    } else {
      var q := Value(ds[1..], k + 36, bias);
      Spelled(ds[1..], k + 36, bias);
      VarDigitsCons(ds[0], q, k, bias);
      assert Ascii(Letters(ds)) == [Letter(ds[0]) as int] + Ascii(Letters(ds[1..]));
    }
  }

  lemma LastSpelled(d: nat, none: seq<nat>, k: int, bias: int)
    requires none == [] && d < Threshold(k, bias)
    ensures d + (36 - Threshold(k, bias)) * Value(none, k + 36, bias) == d
    ensures VarDigits(d, k, bias) == [EncodeDigit(d)] && Letters(none) == []
  {
    assert Value(none, k + 36, bias) == 0;
  }

  /** How far a string has been made: its basic code points, the insertions so far, where they lead, what they write and
      what they build. */
  datatype Made = Made(bs: seq<nat>, evs: seq<Event>, st: State, w: string, s: seq<nat>)

  ghost predicate Right(m: Made)
  {
    forall l {:trigger Lifted(l)} :: Lifted(l) ==>
      && (forall j :: 0 <= j < |m.bs| ==> IsBasic(m.bs[j])) && Run(|m.bs|, m.evs)
      && After(|m.bs|, m.evs) == m.st && Wire(|m.bs|, m.evs) == Ascii(m.w) && Replay(m.bs, m.evs) == m.s
  }

  lemma Nothing(bs: seq<nat>) returns (m: Made)
    requires forall j :: 0 <= j < |bs| ==> bs[j] < 128
    ensures Right(m) && m == Made(bs, [], State(128, 0, |bs|, 72), "", bs)
  {
    m := Made(bs, [], State(128, 0, |bs|, 72), "", bs);
  }

  predicate Reads(ds: seq<nat>, t: string)
  {
    && |ds| == |t| <= 4 && (|t| > 0 ==> t[0] == Letter(ds[0])) && (|t| > 1 ==> t[1] == Letter(ds[1]))
    && (|t| > 2 ==> t[2] == Letter(ds[2])) && (|t| > 3 ==> t[3] == Letter(ds[3]))
  }

  lemma {:induction false} ReadsLetters(ds: seq<nat>, t: string)
    requires Reads(ds, t)
    ensures Letters(ds) == t
    decreases |ds|
  {
    if ds != [] {
      ReadsLetters(ds[1..], t[1..]);
      assert t == [t[0]] + t[1..];
    }
  }

  lemma Written(d: nat, bias: nat, ds: seq<nat>, t: string)
    requires Complete(ds, 36, bias) && Value(ds, 36, bias) == d && Reads(ds, t)
    ensures VarDigits(d, 36, bias) == Ascii(t)
  {
    Spelled(ds, 36, bias);
    ReadsLetters(ds, t);
  }

  /** One insertion: the text of its distance, and the bias after it. */
  lemma Inserted(m: Made, ev: Event, t: string, bias: nat) returns (m': Made)
    requires Right(m) && ev.at <= |m.s| && Follows(m.st, ev)
    requires VarDigits(Delta(m.st, ev), 36, m.st.bias) == Ascii(t) && Adapt(Delta(m.st, ev), m.st.h + 1, m.st.i == 0) == bias
    ensures Right(m')
    ensures m' == Made(m.bs, m.evs + [ev], State(ev.cp, ev.at + 1, m.st.h + 1, bias), m.w + t, Insert(m.s, ev.at, ev.cp))
  {
    assert Lifted(Latch);
    m' := Made(m.bs, m.evs + [ev], State(ev.cp, ev.at + 1, m.st.h + 1, bias), m.w + t, Insert(m.s, ev.at, ev.cp));
    assert m'.evs[..|m'.evs| - 1] == m.evs;
    assert Ascii(m.w + t) == Ascii(m.w) + Ascii(t);
  }

  /** The bias after a distance (PunyEvents.AdaptAt). */
  ghost predicate Settles(d: nat, points: nat, first: bool, y: nat, a: nat, bias: nat)
  {
    && points > 0 && y == (if first then d / 700 + d / 700 / points else d / 2 + d / 2 / points)
    && y / Pow35(a) <= 455 && (a > 0 ==> y / Pow35(a - 1) > 455)
    && bias == 36 * a + 36 * (y / Pow35(a)) / (y / Pow35(a) + 38)
  }

  lemma Settled(d: nat, points: nat, first: bool, y: nat, a: nat, bias: nat)
    requires Settles(d, points, first, y, a, bias)
    ensures Adapt(d, points, first) == bias
  {
    AdaptAt(d, points, first, y, a);
  }

  /** The same, with the digits of the distance. */
  lemma Next(m: Made, ev: Event, ds: seq<nat>, t: string, y: nat, a: nat, bias: nat) returns (m': Made)
    requires Right(m) && ev.at <= |m.s| && Follows(m.st, ev)
    requires Complete(ds, 36, m.st.bias) && Value(ds, 36, m.st.bias) == Delta(m.st, ev) && Reads(ds, t)
    requires Settles(Delta(m.st, ev), m.st.h + 1, m.st.i == 0, y, a, bias)
    ensures Right(m')
    ensures m' == Made(m.bs, m.evs + [ev], State(ev.cp, ev.at + 1, m.st.h + 1, bias), m.w + t, Insert(m.s, ev.at, ev.cp))
  {
    Written(Delta(m.st, ev), m.st.bias, ds, t);
    Settled(Delta(m.st, ev), m.st.h + 1, m.st.i == 0, y, a, bias);
    m' := Inserted(m, ev, t, bias);
  }

  lemma Whole(m: Made)
    requires Right(m)
    ensures Encode(m.s) == m.bs + (if m.bs != [] then [45] else []) + Ascii(m.w)
  {
    assert Lifted(Latch);
    EventsReplay(m.bs, m.evs);
  }

  lemma WholeText(m: Made, head: string)
    requires Right(m) && m.bs != [] && Ascii(head) == m.bs + [45]
    ensures Encode(m.s) == Ascii(head + m.w)
  {
    Whole(m);
    assert Ascii(head + m.w) == Ascii(head) + Ascii(m.w);
  }

  lemma Sensei0() returns (m: Made)
    ensures Right(m) && m.st == State(128, 0, 2, 72) && m.bs == m.s == [0x33, 0x42] && m.w == ""
  {
    m := Nothing([0x33, 0x42]);
  }

  lemma Sensei1() returns (m: Made)
    ensures Right(m) && m.st == State(0x5148, 3, 3, 27) && m.bs == [0x33, 0x42]
    ensures m.s == [0x33, 0x42, 0x5148] && m.w == "ww4c"
  {
    m := Sensei0();
    m := Next(m, Event(0x5148, 2), [22, 22, 30, 2], "ww4c", 117, 0, 27);
  }

  lemma Sensei2() returns (m: Made)
    ensures Right(m) && m.st == State(0x516B, 3, 4, 24) && m.bs == [0x33, 0x42]
    ensures m.s == [0x33, 0x42, 0x516B, 0x5148] && m.w == "ww4c" + "5e"
  {
    m := Sensei1();
    m := Next(m, Event(0x516B, 2), [31, 4], "5e", 86, 0, 24);
  }

  lemma Sensei3() returns (m: Made)
    ensures Right(m) && m.st == State(0x5E74, 2, 5, 67) && m.bs == [0x33, 0x42]
    ensures m.s == [0x33, 0x5E74, 0x42, 0x516B, 0x5148] && m.w == "ww4c" + "5e" + "180e"
  {
    m := Sensei2();
    m := Next(m, Event(0x5E74, 1), [27, 34, 26, 4], "180e", 10009, 1, 67);
  }

  lemma Sensei4() returns (m: Made)
    ensures Right(m) && m.st == State(0x751F, 6, 6, 82) && m.bs == [0x33, 0x42]
    ensures m.s == [0x33, 0x5E74, 0x42, 0x516B, 0x5148, 0x751F] && m.w == "ww4c" + "5e" + "180e" + "575a"
  {
    m := Sensei3();
    m := Next(m, Event(0x751F, 5), [31, 33, 31, 0], "575a", 20311, 2, 82);
  }

  lemma Sensei5() returns (m: Made)
    ensures Right(m) && m.st == State(0x7D44, 4, 7, 67) && m.bs == [0x33, 0x42]
    ensures m.s == [0x33, 0x5E74, 0x42, 0x7D44, 0x516B, 0x5148, 0x751F] && m.w == "ww4c" + "5e" + "180e" + "575a" + "65l"
  {
    m := Sensei4();
    m := Next(m, Event(0x7D44, 3), [32, 31, 11], "65l", 8338, 1, 67);
  }

  lemma Sensei6() returns (m: Made)
    ensures Right(m) && m.st == State(0x91D1, 5, 8, 84) && m.bs == [0x33, 0x42]
    ensures m.s == [0x33, 0x5E74, 0x42, 0x7D44, 0x91D1, 0x516B, 0x5148, 0x751F] && m.w == "ww4c" + "5e" + "180e" + "575a" + "65l" + "sy2b"
  {
    m := Sensei5();
    m := Next(m, Event(0x91D1, 4), [18, 24, 28, 1], "sy2b", 23674, 2, 84);
  }

  lemma SenseiText(w: string, t: string)
    requires w == "ww4c" + "5e" + "180e" + "575a" + "65l" + "sy2b" && t == "3B-ww4c5e180e575a65lsy2b"
    ensures t == "3B-" + w
  {
  }

  /** Sample (L), 3<nen>B<gumi><kinpachi><sensei>. */
  lemma Sensei(s: seq<nat>, t: string)
    requires s == [0x33, 0x5E74, 0x42, 0x7D44, 0x91D1, 0x516B, 0x5148, 0x751F] && t == "3B-ww4c5e180e575a65lsy2b"
    ensures Encode(s) == Ascii(t)
  {
    var m := Sensei6();
    WholeText(m, "3B-");
    SenseiText(m.w, t);
  }

  /** Sample (S): a string without extended code points. */
  lemma SampleAscii(t: string)
    requires t == "-> $1.00 <-"
    ensures Encode(Ascii(t)) == Ascii(t + "-")
  {
    var m := Nothing(Ascii(t));
    Whole(m);
  }
}
