/** Encoding and decoding as functions, and exactly when they undo each other. */
module PunyCodec {
  import opened Common
  import opened PunyDigits
  import opened PunyEvents

  const DASH: byte := 45

  function Encode(s: seq<nat>): seq<byte>
  {
    var bs := Basics(s);
    bs + (if bs != [] then [DASH] else []) + Wire(|bs|, Events(s))
  }

  /** The position of the last delimiter, 0 when there is none (or only one at the very start). */
  function LastDash(e: seq<byte>): (r: nat)
    ensures e != [] ==> r < |e|
    ensures r > 0 ==> r < |e| && e[r] == DASH
    ensures forall j :: r < j < |e| ==> e[j] != DASH
  {
    if e == [] then 0
    else if e[|e| - 1] == DASH then |e| - 1
    else LastDash(e[..|e| - 1])
  }

  function ExtStart(e: seq<byte>): (r: nat)
    ensures r <= |e|
  {
    if LastDash(e) > 0 then LastDash(e) + 1 else 0
  }

  /** e with the letters of its extended part in lower case. */
  function Fold(e: seq<byte>): (r: seq<byte>)
    ensures |r| == |e|
  {
    e[..ExtStart(e)] + LowerAll(e[ExtStart(e)..])
  }

  /** The event a parsed number stands for in state st. */
  function EventAt(st: State, i: nat): (ev: Event)
    ensures ev.at <= st.h && ev.cp >= st.n
  {
    DivLe(i, st.h + 1);
    Event(st.n + i / (st.h + 1), i % (st.h + 1))
  }

  datatype Move = Stuck | Move(pos: nat, st: State, out: seq<nat>)

  /** One round of the decoder: a number is read, and the code point it stands for inserted. */
  function Advance(e: seq<byte>, pos: nat, st: State, out: seq<nat>): (m: Move)
    requires st.i <= st.h == |out| && pos < |e| && |out| + |e| - pos <= MAXINT
    ensures m.Move? ==> pos < m.pos <= |e| && m.st.i <= m.st.h == |m.out| == |out| + 1
  {
    match ParseInt(e, pos, st.i, 1, BASE, st.bias)
    case Bad => Stuck
    case Parsed(i, next) =>
      var ev := EventAt(st, i);
      if ev.cp > MAXINT then Stuck
      else Move(next, State(ev.cp, ev.at + 1, st.h + 1, Adapt(i - st.i, st.h + 1, st.i == 0)), Insert(out, ev.at, ev.cp))
  }

  function DecodeFrom(e: seq<byte>, pos: nat, st: State, out: seq<nat>): (r: Option<seq<nat>>)
    requires st.i <= st.h == |out| && pos <= |e| && |out| + |e| - pos <= MAXINT
    decreases |e| - pos
  {
    if pos == |e| then Some(out)
    else
      match Advance(e, pos, st, out)
      case Stuck => None
      case Move(pos', st', out') => DecodeFrom(e, pos', st', out')
  }

  function Decode(e: seq<byte>): Option<seq<nat>>
    requires |e| <= MAXINT
  {
    var bc := LastDash(e);
    if exists j :: 0 <= j < bc && !IsBasic(e[j]) then None
    else DecodeFrom(e, ExtStart(e), Start(bc), e[..bc])
  }

  lemma LowerConcat(e: seq<byte>, a: nat, b: nat, c: nat)
    requires a <= b <= c <= |e|
    ensures LowerAll(e[a..b]) + LowerAll(e[b..c]) == LowerAll(e[a..c])
  {
  }

  /** A parsed number names the one event whose distance it is. */
  lemma EventAtTotal(st: State, i: nat)
    requires st.i <= i && st.i <= st.h
    ensures var ev := EventAt(st, i); Total(st, ev) == i && Follows(st, ev) && Delta(st, ev) == i - st.i
  {
    var w := st.h + 1;
    assert i == w * (i / w) + i % w;
    DivLe(i, w);
    if i / w == 0 {
      assert w * (i / w) == 0;
    }
  }

  lemma EventAtUnique(st: State, ev: Event)
    requires Follows(st, ev) && st.i <= st.h
    ensures Total(st, ev) >= 0 && EventAt(st, Total(st, ev)) == ev
  {
    TotalAhead(st, ev);
  }

  lemma SnocParts<T>(s: seq<T>, x: T)
    ensures (s + [x])[..|s + [x]| - 1] == s && (s + [x])[|s + [x]| - 1] == x
  {
  }

  lemma RunSnocAt(b: nat, evs: seq<Event>, ev: Event)
    requires Run(b, evs) && Follows(After(b, evs), ev)
    ensures Run(b, evs + [ev]) && After(b, evs + [ev]) == Step(After(b, evs), ev)
    ensures Wire(b, evs + [ev]) == Wire(b, evs) + VarDigits(Delta(After(b, evs), ev), BASE, After(b, evs).bias)
    ensures InRange(b, evs + [ev]) <==> InRange(b, evs) && ev.cp <= MAXINT && Total(After(b, evs), ev) <= MAXINT
    ensures Writable(b, evs + [ev]) <==> Writable(b, evs) && Delta(After(b, evs), ev) <= MAXINT
  {
    SnocParts(evs, ev);
  }

  lemma RunSnoc(bs: seq<nat>, evs: seq<Event>, ev: Event)
    requires Run(|bs|, evs) && Follows(After(|bs|, evs), ev)
    ensures Run(|bs|, evs + [ev]) && Replay(bs, evs + [ev]) == Insert(Replay(bs, evs), ev.at, ev.cp)
  {
    SnocParts(evs, ev);
  }

  /** A round that succeeds carries out one event, whose number the bytes read spell. */
  lemma AdvanceSound(e: seq<byte>, pos: nat, st: State, out: seq<nat>) returns (ev: Event)
    requires st.i <= st.h == |out| && pos < |e| && |out| + |e| - pos <= MAXINT && Advance(e, pos, st, out).Move?
    ensures Follows(st, ev) && ev.cp <= MAXINT && Total(st, ev) <= MAXINT
    ensures var m := Advance(e, pos, st, out);
      && m.st == Step(st, ev) && m.out == Insert(out, ev.at, ev.cp)
      && LowerAll(e[pos..m.pos]) == VarDigits(Delta(st, ev), BASE, st.bias)
  {
    var q := ParseSound(e, pos, st.i, 1, BASE, st.bias);
    var i := ParseInt(e, pos, st.i, 1, BASE, st.bias).i;
    ev := EventAt(st, i);
    EventAtTotal(st, i);
    assert 1 * q == q;
  }

  /** What the decoder accepts is the wire form of a run, up to letter case. */
  lemma {:induction false} DecodeSound(e: seq<byte>, start: nat, pos: nat, bs: seq<nat>, evs: seq<Event>) returns (all: seq<Event>)
    requires start <= pos <= |e| && Run(|bs|, evs) && InRange(|bs|, evs)
    requires After(|bs|, evs).i <= After(|bs|, evs).h && |bs| + |evs| + |e| - pos <= MAXINT
    requires LowerAll(e[start..pos]) == Wire(|bs|, evs)
    requires DecodeFrom(e, pos, After(|bs|, evs), Replay(bs, evs)).Some?
    ensures Run(|bs|, all) && InRange(|bs|, all) && Wire(|bs|, all) == LowerAll(e[start..])
    ensures DecodeFrom(e, pos, After(|bs|, evs), Replay(bs, evs)) == Some(Replay(bs, all))
    decreases |e| - pos
  {
    if pos == |e| {
      all := evs;
      assert e[start..pos] == e[start..];
    } else {
      var ev := AdvanceSound(e, pos, After(|bs|, evs), Replay(bs, evs));
      var next := Advance(e, pos, After(|bs|, evs), Replay(bs, evs)).pos;
      RunSnoc(bs, evs, ev);
      RunSnocAt(|bs|, evs, ev);
      LowerConcat(e, start, pos, next);
      all := DecodeSound(e, start, next, bs, evs + [ev]);
    }
  }

  lemma {:induction false} BiasOk(b: nat, evs: seq<Event>)
    requires Run(b, evs) && InRange(b, evs)
    ensures After(b, evs).bias <= MAXBIAS
  {
    if evs != [] {
      var st, ev := After(b, evs[..|evs| - 1]), evs[|evs| - 1];
      RunState(b, evs[..|evs| - 1]);
      TotalAhead(st, ev);
      AdaptBound(Delta(st, ev), st.h + 1, st.i == 0);
    }
  }

  lemma ParseEvent(e: seq<byte>, pos: nat, end: nat, st: State, ev: Event)
    requires pos <= end <= |e| && st.i <= st.h && st.i <= MAXINT && st.bias <= MAXBIAS
    requires Follows(st, ev) && Total(st, ev) <= MAXINT
    requires LowerAll(e[pos..end]) == VarDigits(Delta(st, ev), BASE, st.bias)
    ensures ParseInt(e, pos, st.i, 1, BASE, st.bias) == Parsed(st.i + Delta(st, ev), end)
    ensures EventAt(st, st.i + Delta(st, ev)) == ev
  {
    TotalAhead(st, ev);
    EventAtUnique(st, ev);
    var q := Delta(st, ev);
    assert st.i + 1 * q <= MAXINT;
    ParseComplete(e, pos, st.i, 1, 0, st.bias, q, end);
  }

  /** One event's number makes the decoder carry out that event. */
  lemma DecodeStep(e: seq<byte>, pos: nat, end: nat, st: State, out: seq<nat>, ev: Event)
    requires pos <= end <= |e| && st.i <= st.h == |out| && |out| + |e| - pos <= MAXINT && st.bias <= MAXBIAS
    requires Follows(st, ev) && ev.cp <= MAXINT && Total(st, ev) <= MAXINT
    requires LowerAll(e[pos..end]) == VarDigits(Delta(st, ev), BASE, st.bias)
    ensures pos < end && Advance(e, pos, st, out) == Move(end, Step(st, ev), Insert(out, ev.at, ev.cp))
  {
    ParseEvent(e, pos, end, st, ev);
  }

  /** The wire form of a run in range makes the decoder carry the run out. */
  lemma {:induction false} DecodeComplete(e: seq<byte>, start: nat, end: nat, bs: seq<nat>, evs: seq<Event>)
    requires start <= end <= |e| && |bs| + |e| - start <= MAXINT
    requires Run(|bs|, evs) && InRange(|bs|, evs) && LowerAll(e[start..end]) == Wire(|bs|, evs)
    ensures After(|bs|, evs).i <= After(|bs|, evs).h && |evs| <= end - start
    ensures DecodeFrom(e, start, Start(|bs|), bs) == DecodeFrom(e, end, After(|bs|, evs), Replay(bs, evs))
    decreases |evs|
  {
    RunState(|bs|, evs);
    if evs != [] {
      var pre, ev := evs[..|evs| - 1], evs[|evs| - 1];
      var st, mid := After(|bs|, pre), start + |Wire(|bs|, pre)|;
      LowerSplit(e, start, mid, end, Wire(|bs|, pre), VarDigits(Delta(st, ev), BASE, st.bias));
      DecodeComplete(e, start, mid, bs, pre);
      BiasOk(|bs|, pre);
      DecodeStep(e, mid, end, st, Replay(bs, pre), ev);
    }
  }

  lemma LowerSplit(e: seq<byte>, start: nat, mid: nat, end: nat, u: seq<byte>, v: seq<byte>)
    requires start <= end <= |e| && LowerAll(e[start..end]) == u + v && mid == start + |u|
    ensures mid <= end && LowerAll(e[start..mid]) == u && LowerAll(e[mid..end]) == v
  {
    LowerConcat(e, start, mid, end);
    assert (u + v)[..|u|] == u && (u + v)[|u|..] == v;
  }
}
