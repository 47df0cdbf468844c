/**
  A string as the insertions that build it from its basic code points. The decoder carries the
  insertions out; the encoder finds them; the numbers on the wire are the distances between them.
 */
module PunyEvents {
  import opened PunyDigits

  function AdaptLoop(delta: nat, k: nat): nat
    decreases delta
  {
    if delta > ((BASE - TMIN) * TMAX) / 2 then AdaptLoop(delta / (BASE - TMIN), k + BASE)
    else k + ((BASE - TMIN + 1) * delta) / (delta + SKEW)
  }

  lemma DivLe(a: nat, b: nat)
    requires b > 0
    ensures 0 <= a / b <= a
  {
    var q, r := a / b, a % b;
    assert a == b * q + r;
    MulAtLeast(b, q);
  }

  lemma MulAtLeast(b: nat, q: int)
    requires b > 0
    ensures q >= 0 ==> b * q >= q && b * q >= 0
    ensures q >= 1 ==> b * q >= b
    ensures q < 0 ==> b * q < 0
  {
  }

  function Adapt(delta: nat, points: nat, first: bool): nat
    requires points > 0
  {
    var d := if first then delta / DAMP else delta / 2;
    DivLe(d, points);
    AdaptLoop(d + d / points, 0)
  }

  lemma {:induction false} AdaptLoopBound(delta: nat, k: nat, n: nat)
    requires delta < 456 * Pow35(n)
    ensures AdaptLoop(delta, k) <= k + BASE * n + 33
    decreases n
  {
    if delta > 455 {
      AdaptLoopBound(delta / 35, k + BASE, n - 1);
    } else {
      var x := 36 * delta;
      assert x <= 33 * (delta + SKEW) + 33 + delta;
      assert x / (delta + SKEW) <= 33;
    }
  }

  lemma AdaptBound(delta: nat, points: nat, first: bool)
    requires points > 0 && delta <= MAXINT
    ensures Adapt(delta, points, first) <= MAXBIAS
  {
    var d := if first then delta / DAMP else delta / 2;
    DivLe(d, points);
    Pow35Values();
    AdaptLoopBound(d + d / points, 0, 5);
  }

  lemma DivTwice(y: nat, b: nat)
    requires b > 0
    ensures y / 35 / b == y / (35 * b) && y / b >= 0
  {
    var q, r := y / 35, y % 35;
    var p, t := q / b, q % b;
    DivLe(y, b);
    var x := b * p;
    assert q == x + t;
    assert (35 * b) * p == 35 * x;
    DivMod(35 * t + r, 35 * b, p);
  }

  lemma {:induction false} AdaptLoopIs(y: nat, k: nat, m: nat)
    requires y / Pow35(m) <= 455 && (m > 0 ==> y / Pow35(m - 1) > 455)
    ensures var r := y / Pow35(m); AdaptLoop(y, k) == k + 36 * m + 36 * r / (r + 38)
    decreases m
  {
    if m > 0 {
      DivTwice(y, Pow35(m - 1));
      if m > 1 {
        DivTwice(y, Pow35(m - 2));
      }
      BigEnough(y, Pow35(m - 1));
      AdaptLoopIs(y / 35, k + 36, m - 1);
    }
  }

  lemma BigEnough(y: nat, w: nat)
    requires w > 0 && y / w > 455
    ensures y > 455
  {
    DivLe(y, w);
  }

  /** The bias, when m divisions by 35 leave at most 455. */
  lemma AdaptAt(delta: nat, points: nat, first: bool, y: nat, m: nat)
    requires points > 0 && y / Pow35(m) <= 455 && (m > 0 ==> y / Pow35(m - 1) > 455)
    requires var x := if first then delta / 700 else delta / 2; y == x + x / points
    ensures var r := y / Pow35(m); r >= 0 && Adapt(delta, points, first) == 36 * m + 36 * r / (r + 38)
  {
    AdaptLoopIs(y, 0, m);
    DivLe(y, Pow35(m));
  }

  lemma {:induction false} AdaptSteps(y: nat) returns (m: nat)
    ensures y / Pow35(m) <= 455 && (m > 0 ==> y / Pow35(m - 1) > 455)
    decreases y
  {
    m := 0;
    if y > 455 {
      var n := AdaptSteps(y / 35);
      m := n + 1;
      DivTwice(y, Pow35(n));
      if n > 0 {
        DivTwice(y, Pow35(n - 1));
      }
    }
  }

  /** The bias after a distance, in closed form: the distance is scaled down, by more the first time, and increased by its
      share for each point; m is how often that can be divided by 35 until at most 455 is left. */
  lemma AdaptIs(delta: nat, points: nat, first: bool) returns (y: nat, m: nat)
    requires points > 0
    ensures var x := if first then delta / 700 else delta / 2; y == x + x / points
    ensures y / Pow35(m) <= 455 && (m > 0 ==> y / Pow35(m - 1) > 455)
    ensures var r := y / Pow35(m); r >= 0 && Adapt(delta, points, first) == 36 * m + 36 * r / (r + 38)
  {
    var x := if first then delta / 700 else delta / 2;
    DivLe(x, points);
    y := x + x / points;
    m := AdaptSteps(y);
    AdaptAt(delta, points, first, y, m);
  }

  datatype Event = Event(cp: nat, at: nat)

  function Insert(s: seq<nat>, at: nat, cp: nat): seq<nat>
    requires at <= |s|
  {
    s[..at] + [cp] + s[at..]
  }

  function Remove(s: seq<nat>, at: nat): seq<nat>
    requires at < |s|
  {
    s[..at] + s[at + 1..]
  }

  predicate IsBasic(c: nat) { c < INITIAL_N }

  function Basics(s: seq<nat>): (r: seq<nat>)
    ensures forall j :: 0 <= j < |r| ==> IsBasic(r[j])
    ensures |r| <= |s|
  {
    if s == [] then []
    else Basics(s[..|s| - 1]) + if IsBasic(s[|s| - 1]) then [s[|s| - 1]] else []
  }

  /** The last position of the largest code point. */
  function LastMax(s: seq<nat>): (p: nat)
    requires s != []
    ensures p < |s|
    ensures forall j :: 0 <= j < |s| ==> s[j] <= s[p]
    ensures forall j :: p < j < |s| ==> s[j] < s[p]
  {
    var last := |s| - 1;
    if last == 0 then 0
    else var p := LastMax(s[..last]); if s[last] >= s[p] then last else p
  }

  /** The insertions that build s from Basics(s), smallest code point first, then left to right. */
  function Events(s: seq<nat>): seq<Event>
    decreases |s|
  {
    if s == [] || IsBasic(s[LastMax(s)]) then []
    else var p := LastMax(s); Events(Remove(s, p)) + [Event(s[p], p)]
  }

  /** Where the decoder stands: last code point, next position, length so far, and the bias in force. */
  datatype State = State(n: nat, i: nat, h: nat, bias: nat)

  /** How far ev lies from the first position of code point st.n, in steps of the decoder. */
  function Total(st: State, ev: Event): int
  {
    ev.at + (st.h + 1) * (ev.cp - st.n)
  }

  /** The number on the wire: the distance from where the decoder stands. */
  function Delta(st: State, ev: Event): nat
  {
    if Total(st, ev) >= st.i then Total(st, ev) - st.i else 0
  }

  predicate Follows(st: State, ev: Event)
  {
    ev.at <= st.h && (ev.cp > st.n || (ev.cp == st.n && ev.at >= st.i))
  }

  lemma TotalAhead(st: State, ev: Event)
    requires Follows(st, ev) && st.i <= st.h + 1
    ensures Total(st, ev) == st.i + Delta(st, ev) && Total(st, ev) >= ev.at
    ensures Total(st, ev) / (st.h + 1) == ev.cp - st.n && Total(st, ev) % (st.h + 1) == ev.at
  {
    MulAtLeast(st.h + 1, ev.cp - st.n);
    DivMod(ev.at, st.h + 1, ev.cp - st.n);
  }

  function Start(b: nat): State { State(INITIAL_N, 0, b, INITIAL_BIAS) }

  function Step(st: State, ev: Event): State
  {
    State(ev.cp, ev.at + 1, st.h + 1, Adapt(Delta(st, ev), st.h + 1, st.i == 0))
  }

  function After(b: nat, evs: seq<Event>): (st: State)
    ensures st.h == b + |evs|
    ensures evs == [] ==> st == Start(b)
    ensures evs != [] ==> st.n == evs[|evs| - 1].cp && st.i == evs[|evs| - 1].at + 1
  {
    if evs == [] then Start(b) else Step(After(b, evs[..|evs| - 1]), evs[|evs| - 1])
  }

  /** Each event comes after the one before, inside the string built so far. */
  predicate Run(b: nat, evs: seq<Event>)
  {
    evs == [] || (Run(b, evs[..|evs| - 1]) && Follows(After(b, evs[..|evs| - 1]), evs[|evs| - 1]))
  }

  lemma {:induction false} RunState(b: nat, evs: seq<Event>)
    requires Run(b, evs)
    ensures var st := After(b, evs); st.n >= INITIAL_N && st.i <= st.h && (st.i == 0 <==> evs == [])
  {
    if evs != [] { RunState(b, evs[..|evs| - 1]); }
  }

  /** Every code point and every distance the decoder meets fits 32 bits. */
  predicate InRange(b: nat, evs: seq<Event>)
  {
    evs == [] ||
    (InRange(b, evs[..|evs| - 1]) && evs[|evs| - 1].cp <= MAXINT && Total(After(b, evs[..|evs| - 1]), evs[|evs| - 1]) <= MAXINT)
  }

  /** Every number the encoder has to write fits 32 bits. */
  predicate Writable(b: nat, evs: seq<Event>)
  {
    evs == [] ||
    (Writable(b, evs[..|evs| - 1]) && Delta(After(b, evs[..|evs| - 1]), evs[|evs| - 1]) <= MAXINT)
  }

  lemma {:induction false} InRangeWritable(b: nat, evs: seq<Event>)
    requires InRange(b, evs)
    ensures Writable(b, evs)
  {
    if evs != [] { InRangeWritable(b, evs[..|evs| - 1]); }
  }

  function Wire(b: nat, evs: seq<Event>): seq<byte>
  {
    if evs == [] then []
    else
      var st, ev := After(b, evs[..|evs| - 1]), evs[|evs| - 1];
      Wire(b, evs[..|evs| - 1]) + VarDigits(Delta(st, ev), BASE, st.bias)
  }

  function Replay(bs: seq<nat>, evs: seq<Event>): (s: seq<nat>)
    requires Run(|bs|, evs)
    ensures |s| == |bs| + |evs|
  {
    if evs == [] then bs
    else
      Insert(Replay(bs, evs[..|evs| - 1]), evs[|evs| - 1].at, evs[|evs| - 1].cp)
  }

  /** Up to (cp, at): nothing greater than cp, and cp itself only before at. */
  ghost predicate Below(s: seq<nat>, cp: nat, at: nat)
  {
    forall j :: 0 <= j < |s| ==> s[j] < cp || (s[j] == cp && j < at)
  }

  /** Inserting after everything smaller adds exactly one event, at the end. */
  lemma EventsSnoc(s: seq<nat>, at: nat, cp: nat)
    requires at <= |s| && cp >= INITIAL_N && Below(s, cp, at)
    ensures Events(Insert(s, at, cp)) == Events(s) + [Event(cp, at)]
  {
    InsertParts(s, at, cp);
    LastMaxIs(Insert(s, at, cp), at);
  }

  lemma InsertParts(s: seq<nat>, at: nat, cp: nat)
    requires at <= |s|
    ensures var s' := Insert(s, at, cp);
      |s'| == |s| + 1 && s'[at] == cp && Remove(s', at) == s
    ensures Below(s, cp, at) ==> (forall j :: 0 <= j < at ==> Insert(s, at, cp)[j] <= cp) && (forall j :: at < j <= |s| ==> Insert(s, at, cp)[j] < cp)
  {
  }

  lemma LastMaxIs(s: seq<nat>, at: nat)
    requires at < |s| && (forall j :: 0 <= j < at ==> s[j] <= s[at]) && forall j :: at < j < |s| ==> s[j] < s[at]
    ensures LastMax(s) == at
  {
  }

  lemma {:induction false} BasicsAll(s: seq<nat>)
    requires forall j :: 0 <= j < |s| ==> IsBasic(s[j])
    ensures Basics(s) == s
  {
    if s != [] {
      BasicsAll(s[..|s| - 1]);
      assert s == s[..|s| - 1] + [s[|s| - 1]];
    }
  }

  lemma {:induction false} BasicsInsert(s: seq<nat>, at: nat, cp: nat)
    requires at <= |s| && cp >= INITIAL_N
    ensures Basics(Insert(s, at, cp)) == Basics(s)
  {
    var s' := Insert(s, at, cp);
    if at == |s| {
      assert s'[..|s' | - 1] == s;
    } else {
      var r := s[..|s| - 1];
      assert s'[..|s'| - 1] == Insert(r, at, cp);
      BasicsInsert(r, at, cp);
    }
  }

  lemma RemoveInsert(s: seq<nat>, p: nat)
    requires p < |s|
    ensures Insert(Remove(s, p), p, s[p]) == s
  {
  }

  /** A string's events form a run from its basic code points, and replaying them gives the string back. */
  lemma {:induction false} ReplayEvents(s: seq<nat>)
    ensures Run(|Basics(s)|, Events(s)) && Replay(Basics(s), Events(s)) == s
    ensures Events(s) != [] ==> s != [] && Events(s)[|Events(s)| - 1] == Event(s[LastMax(s)], LastMax(s))
    decreases |s|
  {
    if s == [] {
    } else {
      var p := LastMax(s);
      if IsBasic(s[p]) {
        BasicsAll(s);
      } else {
        var r := Remove(s, p);
        RemoveInsert(s, p);
        BasicsInsert(r, p, s[p]);
        ReplayEvents(r);
        assert Events(s)[..|Events(s)| - 1] == Events(r);
        LastEventFollows(s, p, After(|Basics(r)|, Events(r)));
      }
    }
  }

  lemma LastEventFollows(s: seq<nat>, p: nat, st: State)
    requires s != [] && p == LastMax(s) && s[p] >= INITIAL_N
    requires var r := Remove(s, p);
      st.h == |r| && (st == Start(st.h) || (r != [] && st.n == r[LastMax(r)] && st.i == LastMax(r) + 1))
    ensures Follows(st, Event(s[p], p))
  {
    var r := Remove(s, p);
    if r != [] {
      var q := LastMax(r);
      assert r[q] == s[if q < p then q else q + 1];
    }
  }

  /** A run replayed from basic code points stays below its last event. */
  lemma {:induction false} ReplayBelow(bs: seq<nat>, evs: seq<Event>)
    requires Run(|bs|, evs) && forall j :: 0 <= j < |bs| ==> IsBasic(bs[j])
    ensures var st := After(|bs|, evs); Below(Replay(bs, evs), st.n, st.i)
  {
    if evs != [] {
      var pre, ev := evs[..|evs| - 1], evs[|evs| - 1];
      ReplayBelow(bs, pre);
      var s := Replay(bs, pre);
      var s' := Insert(s, ev.at, ev.cp);
      assert forall j :: 0 <= j < |s'| ==> s'[j] == if j < ev.at then s[j] else if j == ev.at then ev.cp else s[j - 1];
    }
  }

  lemma LastSplits<T>(s: seq<T>)
    requires s != []
    ensures s[..|s| - 1] + [s[|s| - 1]] == s
  {
  }

  /** Different runs build different strings: a run is exactly the events of what it builds. */
  lemma {:induction false} EventsReplay(bs: seq<nat>, evs: seq<Event>)
    requires Run(|bs|, evs) && forall j :: 0 <= j < |bs| ==> IsBasic(bs[j])
    ensures Events(Replay(bs, evs)) == evs && Basics(Replay(bs, evs)) == bs
  {
    if evs == [] {
      BasicsAll(bs);
    } else {
      var pre, ev := evs[..|evs| - 1], evs[|evs| - 1];
      EventsReplay(bs, pre);
      ReplayBelow(bs, pre);
      var s := Replay(bs, pre);
      RunState(|bs|, pre);
      EventsSnoc(s, ev.at, ev.cp);
      BasicsInsert(s, ev.at, ev.cp);
      LastSplits(evs);
    }
  }
}
