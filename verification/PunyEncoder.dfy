/** The encoder as it runs. */
module PunyEncoder {
  import opened PunyDigits
  import opened PunyEvents
  import opened PunyCodec
  import opened PunyScan

  method AdaptBias(delta: nat, points: nat, first: bool) returns (r: nat)
    requires points > 0
    ensures r == Adapt(delta, points, first)
  {
    var d: nat := if first then delta / DAMP else delta / 2;
    DivLe(d, points);
    d := d + d / points;
    var k: nat := 0;
    while d > ((BASE - TMIN) * TMAX) / 2
      invariant AdaptLoop(d, k) == Adapt(delta, points, first)
      decreases d
    {
      d := d / (BASE - TMIN);
      k := k + BASE;
    }
    r := k + ((BASE - TMIN + 1) * d) / (d + SKEW);
  }

  method EncodeVarInt(bias: nat, delta: nat) returns (out: seq<byte>)
    ensures out == VarDigits(delta, BASE, bias)
  {
    out := [];
    var k, q := BASE, delta;
    var t := Threshold(k, bias);
    while q >= t
      invariant t == Threshold(k, bias) && 0 <= q
      invariant out + VarDigits(q, k, bias) == VarDigits(delta, BASE, bias)
      decreases q
    {
      Quotient(q, t);
      out := out + [EncodeDigit(t + (q - t) % (BASE - t))];
      q := (q - t) / (BASE - t);
      k := k + BASE;
      t := Threshold(k, bias);
    }
    out := out + [EncodeDigit(q)];
  }

  method CopyBasics(src: seq<nat>) returns (out: seq<byte>)
    ensures out == Basics(src)
  {
    out := [];
    var si := 0;
    while si < |src|
      invariant 0 <= si <= |src| && out == Basics(src[..si])
    {
      assert src[..si + 1][..si] == src[..si];
      if src[si] < 128 {
        out := out + [src[si]];
      }
      si := si + 1;
    }
    assert src[..|src|] == src;
  }

  /** The smallest code point from n up. */
  method FindNext(src: seq<nat>, n: nat) returns (m: nat, ghost w: nat)
    requires (forall j :: 0 <= j < |src| ==> src[j] <= MAXINT) && exists j :: 0 <= j < |src| && src[j] >= n
    ensures n <= m && (forall j :: 0 <= j < |src| ==> src[j] < n || src[j] >= m) && w < |src| && src[w] == m
  {
    m := MAXINT;
    w :| 0 <= w < |src| && src[w] >= n;
    var si := 0;
    while si < |src|
      invariant 0 <= si <= |src| && n <= m <= MAXINT
      invariant forall j :: 0 <= j < si ==> src[j] < n || src[j] >= m
      invariant w < |src| && src[w] >= n && (m == MAXINT || src[w] == m)
    {
      if src[si] >= n && src[si] < m {
        w := si;
        m := src[si];
      }
      si := si + 1;
    }
  }

  /**
    One position of the pass: smaller code points are counted, occurrences of n are written. w is
    some occurrence of n; past it delta counts positions only.
   */
  method WriteOne(src: seq<nat>, n: nat, si: nat, delta0: nat, h0: nat, bias0: nat, wire0: seq<byte>, b: nat, ghost w: nat)
    returns (ok: bool, delta: nat, h: nat, bias: nat, wire: seq<byte>)
    requires si < |src| <= MAXINT && b == |Basics(src)| && delta0 <= MAXINT && Scanning(src, n, si, delta0, h0, bias0, wire0)
    requires w < |src| && src[w] == n && (w < si ==> delta0 < si)
    ensures ok ==> Scanning(src, n, si + 1, delta, h, bias, wire)
    ensures ok ==> delta <= MAXINT && h >= h0 && (w <= si ==> delta <= si) && (w == si ==> h > h0)
    ensures !ok ==> !Writable(b, Events(src))
  {
    ok, delta, h, bias, wire := true, delta0, h0, bias0, wire0;
    if src[si] < n {
      if delta == MAXINT {
        ok := false;
        Unwritable(src, n, si, delta, h, bias, wire, w);
      } else {
        ScanPass(src, n, si, delta, h, bias, wire);
        delta := delta + 1;
      }
    } else if src[si] == n {
      var digits := EncodeVarInt(bias, delta);
      var next := AdaptBias(delta, h + 1, h == b);
      ScanEmit(src, n, si, delta, h, bias, wire, next);
      wire := wire + digits;
      bias := next;
      delta := 0;
      h := h + 1;
    } else {
      ScanPass(src, n, si, delta, h, bias, wire);
    }
  }

  /** One pass over the string: every occurrence of n is written. */
  method WritePass(src: seq<nat>, n: nat, delta0: nat, h0: nat, bias0: nat, wire0: seq<byte>, b: nat, ghost w: nat)
    returns (ok: bool, delta: nat, h: nat, bias: nat, wire: seq<byte>)
    requires |src| <= MAXINT && b == |Basics(src)| && delta0 <= MAXINT
    requires Scanning(src, n, 0, delta0, h0, bias0, wire0) && w < |src| && src[w] == n
    ensures ok ==> Scanning(src, n, |src|, delta, h, bias, wire) && delta < |src| && h > h0
    ensures !ok ==> !Writable(b, Events(src))
  {
    ok, delta, h, bias, wire := true, delta0, h0, bias0, wire0;
    var si := 0;
    while si < |src|
      invariant 0 <= si <= |src| && delta <= MAXINT && h >= h0
      invariant Scanning(src, n, si, delta, h, bias, wire)
      invariant w < si ==> delta < si && h > h0
      decreases |src| - si
    {
      ok, delta, h, bias, wire := WriteOne(src, n, si, delta, h, bias, wire, b, w);
      if !ok {
        return;
      }
      si := si + 1;
    }
  }

  lemma Unwritable(src: seq<nat>, n: nat, q: nat, delta: nat, h: nat, bias: nat, wire: seq<byte>, w: nat)
    requires q < |src| <= MAXINT && Scanning(src, n, q, delta, h, bias, wire) && w < |src| && src[w] == n
    requires delta > MAXINT || (src[q] < n && delta == MAXINT)
    requires w < q ==> delta < q
    ensures !Writable(|Basics(src)|, Events(src))
  {
    if Writable(|Basics(src)|, Events(src)) { DeltaFits(src, n, q, delta, h, bias, wire, w); }
  }

  /** The jump to the next code point m and its guard. */
  method JumpNext(src: seq<nat>, n: nat, delta0: nat, h: nat, ghost bias: nat, ghost wire: seq<byte>)
    returns (ok: bool, m: nat, delta: nat, ghost w: nat)
    requires |src| <= MAXINT && (forall j :: 0 <= j < |src| ==> src[j] <= MAXINT) && exists j :: 0 <= j < |src| && src[j] >= n
    requires delta0 <= MAXINT && Scanning(src, n, 0, delta0, h, bias, wire)
    ensures Scanning(src, m, 0, delta, h, bias, wire) && w < |src| && src[w] == m && m <= MAXINT
    ensures ok <==> delta <= MAXINT
  {
    m, w := FindNext(src, n);
    ScanJump(src, n, m, delta0, h, bias, wire);
    delta := Advanced(delta0, m - n, h + 1);
    ok := m - n <= (MAXINT - delta0) / (h + 1);
  }

  function Advanced(delta: nat, gap: nat, width: nat): (r: nat)
    requires width > 0 && delta <= MAXINT
    ensures r == delta + gap * width && (r <= MAXINT <==> gap <= (MAXINT - delta) / width)
  {
    MulFits(gap, width, MAXINT - delta);
    delta + gap * width
  }

  /** One round: the jump to the next code point, its guard, and the pass that writes it. */
  method WriteNext(src: seq<nat>, n0: nat, delta0: nat, h0: nat, bias0: nat, wire0: seq<byte>, b: nat)
    returns (ok: bool, n: nat, delta: nat, h: nat, bias: nat, wire: seq<byte>)
    requires |src| <= MAXINT && (forall j :: 0 <= j < |src| ==> src[j] <= MAXINT) && exists j :: 0 <= j < |src| && src[j] >= n0
    requires b == |Basics(src)| && delta0 <= MAXINT && Scanning(src, n0, 0, delta0, h0, bias0, wire0)
    ensures ok ==> Scanning(src, n, |src|, delta, h, bias, wire) && delta < |src| && h > h0 && n <= MAXINT
    ensures !ok ==> !Writable(b, Events(src))
  {
    ghost var w;
    ok, n, delta, w := JumpNext(src, n0, delta0, h0, bias0, wire0);
    if ok {
      ok, delta, h, bias, wire := WritePass(src, n, delta, h0, bias0, wire0, b, w);
    } else {
      Unwritable(src, n, 0, delta, h0, bias0, wire0, w);
      h, bias, wire := h0, bias0, wire0;
    }
  }

  /** One turn of the outer loop, with the increments that end it; n may wrap, n' does not. */
  method WriteRound(src: seq<nat>, n0: nat, delta0: nat, h0: nat, bias0: nat, wire0: seq<byte>, b: nat)
    returns (ok: bool, n: nat, delta: nat, h: nat, bias: nat, wire: seq<byte>, ghost n': nat)
    requires |src| <= MAXINT && (forall j :: 0 <= j < |src| ==> src[j] <= MAXINT) && h0 < |src|
    requires b == |Basics(src)| && delta0 <= MAXINT && Scanning(src, n0, 0, delta0, h0, bias0, wire0)
    ensures ok ==> Scanning(src, n', 0, delta, h, bias, wire) && delta <= MAXINT && h > h0 && (n' <= MAXINT ==> n == n')
    ensures !ok ==> !Writable(b, Events(src))
  {
    StillDue(src, n0, delta0, h0, bias0, wire0);
    ok, n, delta, h, bias, wire := WriteNext(src, n0, delta0, h0, bias0, wire0, b);
    n' := n + 1;
    if ok {
      ScanWrap(src, n, delta, h, bias, wire);
      n := if n == MAXINT then 0 else n + 1;
      delta := delta + 1;
    }
  }

  /** Everything after the delimiter. */
  method WriteExtended(src: seq<nat>, b: nat) returns (ok: bool, wire: seq<byte>)
    requires |src| <= MAXINT && (forall j :: 0 <= j < |src| ==> src[j] <= MAXINT) && b == |Basics(src)|
    ensures ok ==> wire == Wire(b, Events(src))
    ensures ok <==> Writable(b, Events(src))
  {
    ok, wire := true, [];
    var n: nat, bias: nat, delta: nat, h: nat := INITIAL_N, INITIAL_BIAS, 0, b;
    ghost var n': nat := n;
    ScanStart(src);
    while h < |src|
      invariant Scanning(src, n', 0, delta, h, bias, wire) && delta <= MAXINT
      invariant (n' <= MAXINT ==> n == n')
      decreases |src| - h
    {
      StillDue(src, n', delta, h, bias, wire);
      ok, n, delta, h, bias, wire, n' := WriteRound(src, n, delta, h, bias, wire, b);
      if !ok {
        return;
      }
    }
    ok := true;
    ScanDone(src, n', 0, delta, h, bias, wire);
  }

  /**
    The encoder succeeds exactly on the strings whose numbers fit 32 bits, and has then written
    Encode(src).
   */
  method PunycodeEncode(src: seq<nat>) returns (ok: bool, out: seq<byte>)
    requires |src| <= MAXINT && forall j :: 0 <= j < |src| ==> src[j] <= MAXINT
    ensures ok ==> out == Encode(src)
    ensures ok <==> Writable(|Basics(src)|, Events(src))
  {
    out := CopyBasics(src);
    var b := |out|;
    if b > 0 {
      out := out + [DASH];
    }
    var wire;
    ok, wire := WriteExtended(src, b);
    out := out + wire;
  }
}
