/** The decoder as it runs: over an array it shifts in place, or over nothing when only counting. */
module PunyDecoder {
  import opened Common
  import opened PunyDigits
  import opened PunyEvents
  import opened PunyCodec
  import opened PunyEncoder

  method FindDelimiter(e: seq<byte>) returns (basicCount: nat)
    ensures basicCount == LastDash(e)
  {
    basicCount := 0;
    var loop := 0;
    while loop < |e|
      invariant 0 <= loop <= |e| && basicCount == LastDash(e[..loop])
    {
      assert e[..loop + 1][..loop] == e[..loop];
      if e[loop] == DASH {
        basicCount := loop;
      }
      loop := loop + 1;
    }
    assert e[..|e|] == e;
  }

  /** The basic code points before the delimiter, copied when there is somewhere to copy them. */
  method CopyBasicPart(e: seq<byte>, bc: nat, out: array?<nat>) returns (ok: bool)
    requires bc <= |e| && (out != null ==> bc <= out.Length)
    modifies out
    ensures ok <==> forall j :: 0 <= j < bc ==> IsBasic(e[j])
    ensures ok && out != null ==> out[..bc] == e[..bc]
  {
    var loop := 0;
    while loop < bc
      invariant 0 <= loop <= bc && forall j :: 0 <= j < loop ==> IsBasic(e[j])
      invariant out != null ==> out[..loop] == e[..loop]
    {
      if !IsBasic(e[loop]) {
        return false;
      }
      if out != null {
        out[loop] := e[loop];
      }
      loop := loop + 1;
    }
    ok := true;
  }

  /** One generalised variable-length integer. */
  method ReadInt(e: seq<byte>, pos: nat, i0: nat, bias: nat) returns (r: Parsed)
    requires i0 <= MAXINT
    ensures r == ParseInt(e, pos, i0, 1, BASE, bias)
  {
    var loop: nat, i: nat, w: nat, k := pos, i0, 1, BASE;
    while true
      invariant i <= MAXINT && 0 < w <= MAXINT
      invariant ParseInt(e, loop, i, w, k, bias) == ParseInt(e, pos, i0, 1, BASE, bias)
      decreases |e| - loop
    {
      if loop >= |e| {
        return Bad;
      }
      var digit := DecodeDigit(e[loop]);
      loop := loop + 1;
      if digit < 0 || digit > (MAXINT - i) / w {
        return Bad;
      }
      MulFits(digit, w, MAXINT - i);
      i := i + digit * w;
      var t := Threshold(k, bias);
      if digit < t {
        return Parsed(i, loop);
      }
      if w > MAXINT / (BASE - t) {
        return Bad;
      }
      MulFits(w, BASE - t, MAXINT);
      w := w * (BASE - t);
      k := k + BASE;
    }
  }

  /** One round without the output: the code point to insert, where, and the bias that follows. */
  method ReadEvent(e: seq<byte>, pos: nat, n: nat, i: nat, written: nat, bias: nat, ghost built: seq<nat>)
    returns (ok: bool, next: nat, cp: nat, at: nat, bias': nat)
    requires i <= written == |built| && pos < |e| && written + |e| - pos <= MAXINT
    ensures ok <==> Advance(e, pos, State(n, i, written, bias), built).Move?
    ensures ok ==> at <= written && pos < next <= |e|
    ensures ok ==> Advance(e, pos, State(n, i, written, bias), built) == Move(next, State(cp, at + 1, written + 1, bias'), Insert(built, at, cp))
  {
    ok, next, cp, at, bias' := false, pos, n, 0, bias;
    var r := ReadInt(e, pos, i, bias);
    if r.Bad? {
      return;
    }
    next := r.pos;
    bias' := AdaptBias(r.i - i, written + 1, i == 0);
    DivLe(r.i, written + 1);
    if r.i / (written + 1) > MAXINT - n {
      return;
    }
    ok, cp, at := true, n + r.i / (written + 1), r.i % (written + 1);
  }

  /** The memmove by one place and the store: the code point goes in at position at. */
  method InsertInPlace(out: array<nat>, len: nat, at: nat, cp: nat)
    requires at <= len < out.Length
    modifies out
    ensures out[..len + 1] == Insert(old(out[..len]), at, cp)
  {
    var j := len;
    while j > at
      invariant at <= j <= len
      invariant forall x :: 0 <= x <= j && x < len ==> out[x] == old(out[x])
      invariant forall x :: j < x <= len ==> out[x] == old(out[x - 1])
    {
      out[j] := out[j - 1];
      j := j - 1;
    }
    out[at] := cp;
  }

  /** Decoding never shortens what is built, and lengthens it while input remains. */
  lemma {:induction false} DecodeGrows(e: seq<byte>, pos: nat, st: State, built: seq<nat>)
    requires st.i <= st.h == |built| && pos <= |e| && |built| + |e| - pos <= MAXINT
    requires DecodeFrom(e, pos, st, built).Some?
    ensures |DecodeFrom(e, pos, st, built).value| <= |built| + |e| - pos
    ensures |DecodeFrom(e, pos, st, built).value| >= |built| + if pos < |e| then 1 else 0
    decreases |e| - pos
  {
    if pos < |e| {
      var m := Advance(e, pos, st, built);
      DecodeGrows(e, m.pos, m.st, m.out);
    }
  }

  /** The room the decoder believes it has: the caller's length cut to 32 bits, or no limit when counting. */
  function Room(out: array?<nat>, maxOut: nat): nat
  {
    if out == null then MAXINT else maxOut % 0x1_0000_0000
  }

  ghost predicate Accepts(r: Option<seq<nat>>, room: nat)
  {
    r.Some? && |r.value| <= room
  }

  /** From the first byte after the basic part to the end of the input. */
  method DecodeExtended(e: seq<byte>, pos0: nat, bc: nat, out: array?<nat>, room: nat) returns (ok: bool, len: nat)
    requires pos0 <= |e| && bc <= |e| && bc + |e| - pos0 <= MAXINT && bc <= room
    requires out != null ==> room <= out.Length && out[..bc] == e[..bc]
    modifies out
    ensures ok <==> Accepts(DecodeFrom(e, pos0, Start(bc), e[..bc]), room)
    ensures ok ==> len == |DecodeFrom(e, pos0, Start(bc), e[..bc]).value| <= room
    ensures ok && out != null ==> out[..len] == DecodeFrom(e, pos0, Start(bc), e[..bc]).value
  {
    var loop: nat, n: nat, i: nat, bias: nat := pos0, INITIAL_N, 0, INITIAL_BIAS;
    len := bc;
    ghost var built := e[..bc];
    while loop < |e|
      invariant loop <= |e| && i <= len == |built| <= room && len + |e| - loop <= MAXINT
      invariant out != null ==> out[..len] == built
      invariant DecodeFrom(e, loop, State(n, i, len, bias), built) == DecodeFrom(e, pos0, Start(bc), e[..bc])
      decreases |e| - loop
    {
      ghost var st := State(n, i, len, bias);
      if DecodeFrom(e, loop, st, built).Some? { DecodeGrows(e, loop, st, built); }
      var next, cp, at, bias';
      ok, next, cp, at, bias' := ReadEvent(e, loop, n, i, len, bias, built);
      if !ok || len >= room {
        return false, len;
      }
      if out != null {
        InsertInPlace(out, len, at, cp);
      }
      built := Insert(built, at, cp);
      loop, n, i, len, bias := next, cp, at + 1, len + 1, bias';
    }
    ok := true;
  }

  /** The part before the last dash: when it is refused so is the whole, and otherwise what follows decides. */
  method TakeBasicPart(e: seq<byte>, out: array?<nat>, room: nat) returns (ok: bool, bc: nat, pos: nat)
    requires |e| <= MAXINT && (out != null ==> room <= out.Length)
    modifies out
    ensures bc <= |e| && pos <= |e| && (ok ==> bc + |e| - pos <= MAXINT)
    ensures !ok ==> !Accepts(Decode(e), room)
    ensures ok ==> bc <= room && Decode(e) == DecodeFrom(e, pos, Start(bc), e[..bc]) && (out != null ==> out[..bc] == e[..bc])
  {
    BasicPartKept(e);
    bc := FindDelimiter(e);
    pos, ok := 0, true;
    if bc > 0 {
      if bc > room {
        return false, bc, pos;
      }
      ok := CopyBasicPart(e, bc, out);
      pos := bc + 1;
    }
  }

  /**
    The decoder. It accepts exactly what Decode accepts and the caller has room for, and then leaves
    the decoded string in out. Without an out array it only counts, so a counting call and a writing
    call with enough room agree on acceptance and on the length.
   */
  method PunycodeDecode(e: seq<byte>, out: array?<nat>, maxOut: nat) returns (ok: bool, len: nat)
    requires |e| <= MAXINT && (out != null ==> maxOut <= out.Length)
    modifies out
    ensures ok <==> Accepts(Decode(e), Room(out, maxOut))
    ensures ok ==> len == |Decode(e).value| && len <= Room(out, maxOut)
    ensures ok && out != null ==> len <= out.Length && out[..len] == Decode(e).value
  {
    len := 0;
    var room := Room(out, maxOut);
    var bc, pos;
    ok, bc, pos := TakeBasicPart(e, out, room);
    if ok {
      ok, len := DecodeExtended(e, pos, bc, out, room);
    }
  }

  /** What Decode returns is at least as long as the basic part. */
  lemma BasicPartKept(e: seq<byte>)
    requires |e| <= MAXINT
    ensures Decode(e).Some? ==> LastDash(e) <= |Decode(e).value| <= |e|
  {
    if Decode(e).Some? { DecodeGrows(e, ExtStart(e), Start(LastDash(e)), e[..LastDash(e)]); }
  }
}
