/** The SHA-1 block function (section 6.1.2 of FIPS 180-4) over any kind of word, and words in memory. */
module Sha1Rounds {
  import opened ShaPad
  import opened ShaStandard
  import opened ShaStream

  datatype Regs5<W> = Regs5(a: W, b: W, c: W, d: W, e: W)

  function Round<W>(o: Core1<W>, r: Regs5<W>, i: nat, w: W): Regs5<W>
  {
    Regs5(o.temp(i, r.a, r.b, r.c, r.d, r.e, w), r.a, o.turn(r.b), r.c, r.d)
  }

  function Rounds<W>(o: Core1<W>, r: Regs5<W>, ws: seq<W>, n: nat): Regs5<W>
    requires n <= |ws|
  {
    if n == 0 then r else Round(o, Rounds(o, r, ws, n - 1), n - 1, ws[n - 1])
  }

  function Schedule<W>(o: Core1<W>, block: seq<W>, i: nat): W
    requires |block| == 16
  {
    if i < 16 then block[i]
    else o.mix(Schedule(o, block, i - 3), Schedule(o, block, i - 8), Schedule(o, block, i - 14), Schedule(o, block, i - 16))
  }

  function Words<W>(o: Core1<W>, block: seq<W>, n: nat): (ws: seq<W>)
    requires |block| == 16
    ensures |ws| == n && forall i :: 0 <= i < n ==> ws[i] == Schedule(o, block, i)
  {
    seq(n, i requires 0 <= i => Schedule(o, block, i))
  }

  /** The block function. */
  function Transformed<W>(o: Core1<W>, state: seq<W>, block: seq<W>): (r: seq<W>)
    requires |state| == 5 && |block| == 16
    ensures |r| == 5
  {
    var r := Rounds(o, Regs5(state[0], state[1], state[2], state[3], state[4]), Words(o, block, 80), 80);
    [o.add(state[0], r.a), o.add(state[1], r.b), o.add(state[2], r.c), o.add(state[3], r.d), o.add(state[4], r.e)]
  }

  method FillSchedule<W>(o: Core1<W>, block: seq<W>) returns (ws: seq<W>)
    requires |block| == 16
    ensures ws == Words(o, block, 80)
  {
    ws := block;
    var i := 16;
    while i < 80
      invariant 16 <= i <= 80 && ws == Words(o, block, i)
    {
      ws := ws + [o.mix(ws[i - 3], ws[i - 8], ws[i - 14], ws[i - 16])];
      i := i + 1;
    }
  }

  /** The eighty rounds on five registers. */
  method RunRounds<W>(o: Core1<W>, state: seq<W>, ws: seq<W>, n: nat) returns (a: W, b: W, c: W, d: W, e: W)
    requires |state| == 5 && n <= |ws|
    ensures Regs5(a, b, c, d, e) == Rounds(o, Regs5(state[0], state[1], state[2], state[3], state[4]), ws, n)
  {
    ghost var r := Regs5(state[0], state[1], state[2], state[3], state[4]);
    a, b, c, d, e := state[0], state[1], state[2], state[3], state[4];
    var i := 0;
    while i < n
      invariant i <= n && Regs5(a, b, c, d, e) == Rounds(o, r, ws, i)
    {
      var temp := o.temp(i, a, b, c, d, e, ws[i]);
      e := d;
      d := c;
      c := o.turn(b);
      b := a;
      a := temp;
      i := i + 1;
    }
  }

  method Transform<W>(o: Core1<W>, state: array<W>, block: seq<W>)
    requires state.Length == 5 && |block| == 16
    modifies state
    ensures state[..] == Transformed(o, old(state[..]), block)
  {
    ghost var was := state[..];
    var ws := FillSchedule(o, block);
    var a, b, c, d, e := RunRounds(o, state[..], ws, 80);
    state[0] := o.add(state[0], a);
    state[1] := o.add(state[1], b);
    state[2] := o.add(state[2], c);
    state[3] := o.add(state[3], d);
    state[4] := o.add(state[4], e);
  }

  // ---- two ways to compute the same words ----

  ghost predicate Alike<W(!new)>(o: Core1<W>, p: Core1<W>)
  {
    && o.add == p.add && (forall a, b, c, d :: o.mix(a, b, c, d) == p.mix(a, b, c, d)) && (forall a :: o.turn(a) == p.turn(a))
    && forall i, a, b, c, d, e, w :: o.temp(i, a, b, c, d, e, w) == p.temp(i, a, b, c, d, e, w)
  }

  lemma {:induction false} AlikeSchedule<W(!new)>(o: Core1<W>, p: Core1<W>, block: seq<W>, i: nat)
    requires Alike(o, p) && |block| == 16
    ensures Schedule(o, block, i) == Schedule(p, block, i)
  {
    if i >= 16 {
      AlikeSchedule(o, p, block, i - 3);
      AlikeSchedule(o, p, block, i - 8);
      AlikeSchedule(o, p, block, i - 14);
      AlikeSchedule(o, p, block, i - 16);
    }
  }

  lemma AlikeWords<W(!new)>(o: Core1<W>, p: Core1<W>, block: seq<W>, n: nat)
    requires Alike(o, p) && |block| == 16
    ensures Words(o, block, n) == Words(p, block, n)
  {
    forall i | 0 <= i < n
      ensures Schedule(o, block, i) == Schedule(p, block, i)
    {
      AlikeSchedule(o, p, block, i);
    }
  }

  lemma {:induction false} AlikeRounds<W(!new)>(o: Core1<W>, p: Core1<W>, r: Regs5<W>, ws: seq<W>, n: nat)
    requires Alike(o, p) && n <= |ws|
    ensures Rounds(o, r, ws, n) == Rounds(p, r, ws, n)
  {
    if n > 0 {
      AlikeRounds(o, p, r, ws, n - 1);
    }
  }

  lemma AlikeTransformed<W(!new)>(o: Core1<W>, p: Core1<W>, state: seq<W>, block: seq<W>)
    requires Alike(o, p) && |state| == 5 && |block| == 16
    ensures Transformed(o, state, block) == Transformed(p, state, block)
  {
    AlikeWords(o, p, block, 80);
    AlikeRounds(o, p, Regs5(state[0], state[1], state[2], state[3], state[4]), Words(o, block, 80), 80);
  }

  // ---- words in memory ----

  function Reversed(y: seq<byte>): (r: seq<byte>)
    requires |y| == 4
    ensures |r| == 4
  {
    [y[3], y[2], y[1], y[0]]
  }

  /** Every group of four bytes reversed. */
  function Flip(m: seq<byte>): (r: seq<byte>)
    ensures |r| == |m|
  {
    if |m| < 4 then m else Reversed(m[..4]) + Flip(m[4..])
  }

  lemma {:induction false} FlipAt(m: seq<byte>, i: nat)
    requires 4 * i + 4 <= |m|
    ensures Flip(m)[4 * i..4 * i + 4] == Reversed(m[4 * i..4 * i + 4])
  {
    if i > 0 {
      FlipAt(m[4..], i - 1);
      var f, k := Flip(m), 4 * (i - 1);
      assert f[4..] == Flip(m[4..]);
      assert f[4..][k..k + 4] == f[k + 4..k + 8];
      assert m[4..][k..k + 4] == m[k + 4..k + 8];
    }
  }

  lemma {:induction false} FlipAppend(a: seq<byte>, b: seq<byte>)
    requires Rest(|a|, 4) == 0
    ensures Flip(a + b) == Flip(a) + Flip(b)
    decreases |a|
  {
    if |a| < 4 {
      assert a + b == b;
    } else {
      assert (a + b)[..4] == a[..4] && (a + b)[4..] == a[4..] + b;
      FlipAppend(a[4..], b);
    }
  }

  /** A word as the machine reads it: on a little-endian one the bytes count from the last. */
  function Native<W>(load: seq<byte> -> W, little: bool, y: seq<byte>): W
    requires |y| == 4
  {
    load(if little then Reversed(y) else y)
  }

  function Turned(little: bool, m: seq<byte>): (r: seq<byte>)
    ensures |r| == |m|
  {
    if little then Flip(m) else m
  }

  /** A word read from turned bytes is the big-endian word of the bytes. */
  lemma NativeOfTurned<W>(load: seq<byte> -> W, little: bool, m: seq<byte>, i: nat)
    requires 4 * i + 4 <= |m|
    ensures Native(load, little, Turned(little, m)[4 * i..4 * i + 4]) == load(m[4 * i..4 * i + 4])
  {
    if little {
      FlipAt(m, i);
      assert Reversed(Reversed(m[4 * i..4 * i + 4])) == m[4 * i..4 * i + 4];
    }
  }

  lemma {:induction false} LoadAt<W>(load: seq<byte> -> W, m: seq<byte>, i: nat)
    requires 4 * i + 4 <= |m|
    ensures i < |LoadWords(load, 4, m)| && LoadWords(load, 4, m)[i] == load(m[4 * i..4 * i + 4])
  {
    if i > 0 {
      LoadAt(load, m[4..], i - 1);
      var k := 4 * (i - 1);
      assert m[4..][k..k + 4] == m[k + 4..k + 8];
    }
  }

  lemma FlipCells(m: seq<byte>, at: nat, i: nat)
    requires at == 4 * i && at + 4 <= |m|
    ensures Flip(m)[at] == m[at + 3] && Flip(m)[at + 1] == m[at + 2] && Flip(m)[at + 2] == m[at + 1] && Flip(m)[at + 3] == m[at]
  {
    FlipAt(m, i);
    var f := Flip(m);
    var word, flipped := m[at..at + 4], f[at..at + 4];
    assert flipped[0] == f[at] && flipped[1] == f[at + 1] && flipped[2] == f[at + 2] && flipped[3] == f[at + 3];
  }

  /** maybe_byte_reverse: on a little-endian machine, the bytes of every word swapped in place. */
  method SwapBytes(little: bool, data: array<byte>, count: nat)
    requires data.Length == 4 * count
    modifies data
    ensures data[..] == Turned(little, old(data[..]))
  {
    if little {
      SwapWords(data, count, data[..], Flip(data[..]));
    }
  }

  method SwapWords(data: array<byte>, count: nat, ghost was: seq<byte>, ghost flipped: seq<byte>)
    requires data.Length == 4 * count && data[..] == was && flipped == Flip(was)
    modifies data
    ensures data[..] == flipped
  {
    var at := 0;
    ghost var i := 0;
    while at < data.Length
      invariant at == 4 * i && i <= count && SwappedTo(data[..], was, flipped, at)
    {
      FlipCells(was, at, i);
      SwapWord(data, at, was, flipped);
      at := at + 4;
      i := i + 1;
    }
  }

  ghost predicate SwappedTo(now: seq<byte>, was: seq<byte>, flipped: seq<byte>, at: nat)
  {
    && |now| == |was| == |flipped| && at <= |now|
    && (forall k :: 0 <= k < at ==> now[k] == flipped[k])
    && (forall k :: at <= k < |now| ==> now[k] == was[k])
  }

  method SwapWord(data: array<byte>, at: nat, ghost was: seq<byte>, ghost flipped: seq<byte>)
    requires at + 4 <= data.Length && SwappedTo(data[..], was, flipped, at)
    requires flipped[at] == was[at + 3] && flipped[at + 1] == was[at + 2] && flipped[at + 2] == was[at + 1] && flipped[at + 3] == was[at]
    modifies data
    ensures SwappedTo(data[..], was, flipped, at + 4)
  {
    ghost var d := data[..];
    assert d[at] == was[at] && d[at + 1] == was[at + 1] && d[at + 2] == was[at + 2] && d[at + 3] == was[at + 3];
    data[at], data[at + 3] := data[at + 3], data[at];
    data[at + 1], data[at + 2] := data[at + 2], data[at + 1];
    assert data[..] == d[at := was[at + 3]][at + 1 := was[at + 2]][at + 2 := was[at + 1]][at + 3 := was[at]];
  }

  /** The sixteen words of the block, as the machine reads them. */
  method NativeWords<W>(load: seq<byte> -> W, little: bool, data: seq<byte>, ghost block: seq<byte>) returns (ws: seq<W>)
    requires |block| == 64 && data == Turned(little, block)
    ensures |ws| == 16 && ws == LoadWords(load, 4, block)
  {
    LoadCount(load, 4, block, 16);
    ws := [];
    for i := 0 to 16
      invariant |ws| == i && forall k :: 0 <= k < i ==> ws[k] == LoadWords(load, 4, block)[k]
    {
      NativeOfTurned(load, little, block, i);
      LoadAt(load, block, i);
      ws := ws + [Native(load, little, data[4 * i..4 * i + 4])];
    }
  }
}
