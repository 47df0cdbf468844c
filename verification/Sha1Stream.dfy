/** The same for SHA-1, which counts bits in two words and fills the buffer first. */
module Sha1Stream {
  import opened ShaPad
  import opened ShaStandard
  import opened ShaStream
  import opened Sha1Rounds

  const B := 64
  const T := 56
  const WORD32 := 0x1_0000_0000

  /** Adding count bytes to the two-word bit count, as the source does it with 32-bit arithmetic. */
  function AddCount(lo: nat, hi: nat, count: nat): (r: (nat, nat))
  {
    var shl := count * 8 % WORD32;
    var hi' := if (lo + shl) % WORD32 < lo then hi + 1 else hi;
    ((lo + shl) % WORD32, (hi' + count / 0x2000_0000) % WORD32)
  }

  /** The two words are the number of bits modulo 2^64. */
  lemma AddCountExact(lo: nat, hi: nat, count: nat, n: nat)
    requires lo < WORD32 && hi < WORD32 && count < WORD32 && hi * WORD32 + lo == Bits(n)
    ensures var r := AddCount(lo, hi, count); r.0 < WORD32 && r.1 < WORD32 && r.1 * WORD32 + r.0 == Bits(n + count)
  {
    BitsIs(n);
    BitsIs(n + count);
    AddCountMod(lo, hi, count, n);
  }

  lemma AddCountMod(lo: nat, hi: nat, count: nat, n: nat)
    requires lo < WORD32 && hi < WORD32 && count < WORD32 && hi * WORD32 + lo == 8 * n % WORD64
    ensures var r := AddCount(lo, hi, count); r.0 < WORD32 && r.1 < WORD32 && r.1 * WORD32 + r.0 == 8 * (n + count) % WORD64
  {
    var shl, top := count * 8 % WORD32, count / 0x2000_0000;
    var r := AddCount(lo, hi, count);
    Shifted(count);
    Carried(lo, shl);
    var carry := if r.0 < lo then 1 else 0;
    var h := hi + carry + top;
    var g := if h >= WORD32 then 1 else 0;
    assert r.1 == h - g * WORD32;
    SumMod(8 * n, 8 * count, g, r.1 * WORD32 + r.0);
  }

  lemma Shifted(count: nat)
    requires count < WORD32
    ensures 8 * count == count / 0x2000_0000 * WORD32 + count * 8 % WORD32 && count / 0x2000_0000 < 8
  {
  }

  lemma Carried(lo: nat, shl: nat)
    requires lo < WORD32 && shl < WORD32
    ensures lo + shl == (lo + shl) % WORD32 + if (lo + shl) % WORD32 < lo then WORD32 else 0
  {
  }

  lemma SumMod(a: nat, b: nat, g: nat, r: nat)
    requires a % WORD64 + b == g * WORD64 + r && r < WORD64 && g <= 1
    ensures (a + b) % WORD64 == r
  {
  }

  /** The position in the block can be read off the bit count. */
  lemma LocalFromCount(lo: nat, hi: nat, n: nat)
    requires lo < WORD32 && hi * WORD32 + lo == Bits(n)
    ensures lo / 8 % 64 == n % 64
  {
    BitsIs(n);
    var k := 8 * n / WORD64 * WORD32 + hi;
    assert 8 * n == k * WORD32 + lo;
    EighthOf(n, k, lo);
    Mod64(k, lo / 8);
  }

  lemma EighthOf(n: nat, k: nat, lo: nat)
    requires 8 * n == k * WORD32 + lo
    ensures n == k * 0x2000_0000 + lo / 8
  {
  }

  lemma Mod64(k: nat, m: nat)
    ensures (k * 0x2000_0000 + m) % 64 == m % 64
  {
    assert k * 0x2000_0000 + m == 64 * (k * 0x80_0000) + m;
  }

  lemma Pow256Four()
    ensures Pow256(4) == WORD32
  {
    assert Pow256(2) == 0x1_0000;
  }

  lemma BigEndianSplit(hi: nat, lo: nat)
    requires lo < WORD32
    ensures BigEndian(hi * WORD32 + lo, 8) == BigEndian(hi, 4) + BigEndian(lo, 4)
  {
    Pow256Four();
    BigEndianJoin(hi, lo, 4, 4);
  }

  lemma Pieces(m: seq<byte>, src: seq<byte>, a: nat, b: nat)
    requires a <= b <= |src|
    ensures m + src[..a] + src[a..b] + src[b..] == m + src
  {
    assert src == src[..a] + src[a..b] + src[b..];
  }

  // ---- the block function ----

  /** The word functions, words as bytes, and the byte order of the machine. */
  datatype Kit1<!W> = Kit1(o: Core1<W>, load: seq<byte> -> W, store: W -> seq<byte>, little: bool)

  predicate Fits<W>(kit: Kit1<W>, state: seq<W>, block: seq<byte>)
  {
    |state| == 5 && |block| == B
  }

  function BlockStep<W>(kit: Kit1<W>, state: seq<W>, block: seq<byte>): (r: seq<W>)
    ensures |r| == |state|
  {
    if !Fits(kit, state, block) then state
    else
      LoadCount(kit.load, 4, block, 16);
      Transformed(kit.o, state, LoadWords(kit.load, 4, block))
  }

  function Block<W>(kit: Kit1<W>): Compress<seq<W>>
  {
    (state: seq<W>, block: seq<byte>) => BlockStep(kit, state, block)
  }

  /** The function c is the kit's block function. */
  ghost predicate Runs<W(!new)>(kit: Kit1<W>, c: Compress<seq<W>>)
  {
    forall state: seq<W>, block: seq<byte> {:trigger Fits(kit, state, block)} ::
      Fits(kit, state, block) ==> c(state, block) == BlockStep(kit, state, block)
  }

  /** The last words of a block: their bytes as the machine stores them. */
  lemma TurnedCount(little: bool, m: seq<byte>, hi: nat, lo: nat)
    requires |m| == T
    ensures Turned(little, m) + (Turned(little, BigEndian(hi, 4)) + Turned(little, BigEndian(lo, 4)))
         == Turned(little, m + (BigEndian(hi, 4) + BigEndian(lo, 4)))
  {
    if little {
      RestIsMod(T, 4);
      FlipAppend(m, BigEndian(hi, 4) + BigEndian(lo, 4));
      FlipAppend(BigEndian(hi, 4), BigEndian(lo, 4));
    }
  }

  lemma Started<W>(p: Progress<seq<W>>, c: Compress<seq<W>>, init: seq<W>)
    requires p.done == [] && p.state == init && p.tail == []
    ensures After(p, c, B, init, [])
  {
    AfterNone(p, c, B, init);
  }

  lemma Position(n: nat, k: nat)
    requires k < B && k <= n && Rest(n - k, B) == 0
    ensures n % 64 == k
  {
    RestIsMod(n - k, B);
  }

  class Sha1Context<W(!new)> {
    const kit: Kit1<W>
    ghost const c: Compress<seq<W>>
    const init: seq<W>
    const state: array<W>
    const data: array<byte>
    var local: nat
    var countLo: nat
    var countHi: nat
    ghost var msg: seq<byte>
    ghost var done: seq<byte>

    ghost function Held(): Progress<seq<W>>
      requires local <= data.Length
      reads this`local, this`done, state, data
    {
      Progress(done, state[..], data[..local])
    }

    ghost predicate Sized()
    {
      state.Length == 5 && data.Length == B && Runs(kit, c)
    }

    /** The buffer part of Valid. */
    ghost predicate Buffered()
      reads this`local, this`msg, this`done, state, data
    {
      Sized() && local < B && After(Held(), c, B, init, msg)
    }

    ghost predicate Counted()
      reads this`countLo, this`countHi, this`msg
    {
      countLo < WORD32 && countHi < WORD32 && countHi * WORD32 + countLo == Bits(|msg|)
    }

    ghost predicate Valid()
      reads this, state, data
    {
      Buffered() && Counted()
    }

    constructor (kit: Kit1<W>, ghost c: Compress<seq<W>>, init: seq<W>)
      requires |init| == 5
      ensures this.kit == kit && this.c == c && this.init == init && local == 0 && countLo == 0 && countHi == 0 && msg == [] && done == []
      ensures fresh(state) && fresh(data) && state.Length == 5 && data.Length == B && state[..] == init
    {
      this.kit, this.c, this.init := kit, c, init;
      local, countLo, countHi, msg, done := 0, 0, 0, [], [];
      state := new W[5](i requires 0 <= i < 5 => init[i]);
      data := new byte[B];
    }

    /** sha_init. */
    static method Start(kit: Kit1<W>, ghost c: Compress<seq<W>>, init: seq<W>) returns (ctx: Sha1Context<W>)
      requires |init| == 5 && Runs(kit, c)
      ensures fresh(ctx) && fresh(ctx.state) && fresh(ctx.data) && ctx.Valid() && ctx.msg == []
      ensures ctx.kit == kit && ctx.c == c && ctx.init == init
    {
      ctx := new Sha1Context(kit, c, init);
      Started(ctx.Held(), c, init);
    }

    /** The bit count, and with it the message the context stands for once its bytes are in. */
    method Count(count: nat)
      requires count < WORD32 && Counted()
      modifies this`countLo, this`countHi
      ensures countLo < WORD32 && countHi < WORD32 && countHi * WORD32 + countLo == Bits(|msg| + count)
    {
      AddCountExact(countLo, countHi, count, |msg|);
      if (countLo + count * 8 % WORD32) % WORD32 < countLo {
        countHi := countHi + 1;
      }
      countLo := (countLo + count * 8 % WORD32) % WORD32;
      countHi := (countHi + count / 0x2000_0000) % WORD32;
    }

    /** sha_transform on words that lie in memory as the machine reads them. */
    method TransformData(ghost block: seq<byte>)
      requires Sized() && |block| == B && data[..] == Turned(kit.little, block)
      modifies state
      ensures state[..] == c(old(state[..]), block)
    {
      assert Fits(kit, state[..], block);
      var ws := NativeWords(kit.load, kit.little, data[..], block);
      Transform(kit.o, state, ws);
    }

    /** The bytes of the buffer swapped into words, and the block function. */
    method Squeeze()
      requires Sized()
      modifies state, data
      ensures state[..] == c(old(state[..]), old(data[..]))
    {
      ghost var block := data[..];
      SwapBytes(kit.little, data, 16);
      TransformData(block);
    }

    /** Filling up a begun block: done when the input is used up before the block is full. */
    method FillUp(src: seq<byte>) returns (pos: nat, done: bool)
      requires Buffered() && local > 0
      modifies state, this`local, this`msg, this`done, data
      ensures pos <= |src| && Buffered() && msg == old(msg) + src[..pos] && (if done then pos == |src| else local == 0)
    {
      pos := if B - local > |src| then |src| else B - local;
      done := local + pos != B;
      if done {
        KeepPart(src[..pos]);
      } else {
        FillBlock(src[..pos]);
      }
    }

    method KeepPart(part: seq<byte>)
      requires Buffered() && local + |part| < B
      modifies this`local, this`msg, data
      ensures Buffered() && local == old(local) + |part| && msg == old(msg) + part
    {
      AfterPart(Held(), c, B, init, msg, part);
      CopyIn(data, local, part);
      local := local + |part|;
      msg := msg + part;
    }

    method TopUp(part: seq<byte>)
      requires Sized() && local + |part| == B
      modifies state, data
      ensures state[..] == c(old(state[..]), old(data[..local]) + part)
    {
      CopyIn(data, local, part);
      assert data[..] == data[..B];
      Squeeze();
    }

    method FillBlock(part: seq<byte>)
      requires Buffered() && local + |part| == B
      modifies state, this`local, this`msg, this`done, data
      ensures Buffered() && local == 0 && msg == old(msg) + part
    {
      AfterFill(Held(), c, B, init, msg, part);
      TopUp(part);
      local := 0;
      msg := msg + part;
      done := msg;
    }

    method WholeBlocks(src: seq<byte>, pos0: nat) returns (pos: nat)
      requires Buffered() && local == 0 && pos0 <= |src|
      modifies state, this`local, this`msg, this`done, data
      ensures Buffered() && local == 0 && pos0 <= pos <= |src| && |src| - pos < B && msg == old(msg) + src[pos0..pos]
    {
      pos := pos0;
      assert src[pos0..pos] == [];
      while |src| - pos >= B
        invariant Buffered() && local == 0 && pos0 <= pos <= |src| && msg == old(msg) + src[pos0..pos]
        decreases |src| - pos
      {
        assert src[pos0..pos + B] == src[pos0..pos] + src[pos..pos + B];
        FillBlock(src[pos..pos + B]);
        pos := pos + B;
      }
    }

    method Absorb(src: seq<byte>)
      requires Buffered()
      modifies state, this`local, this`msg, this`done, data
      ensures Buffered() && msg == old(msg) + src
    {
      var pos, done := 0, false;
      assert msg + src[..0] == msg;
      if local > 0 {
        pos, done := FillUp(src);
        if done {
          assert src[..pos] == src;
          return;
        }
      }
      ghost var m, a := old(msg), pos;
      pos := WholeBlocks(src, pos);
      KeepPart(src[pos..]);
      Pieces(m, src, a, pos);
    }

    /** More of the message. */
    method Process(src: seq<byte>)
      requires Valid() && |src| < WORD32
      modifies state, this`local, this`msg, this`done, this`countLo, this`countHi, data
      ensures Valid() && msg == old(msg) + src
    {
      Count(|src|);
      Absorb(src);
    }

    method ZeroTo(from: nat, end: nat)
      requires from <= end <= data.Length
      modifies data
      ensures data[..end] == old(data[..from]) + Zeros(end - from)
    {
      var i := from;
      while i < end
        invariant from <= i <= end && data[..i] == old(data[..from]) + Zeros(i - from)
      {
        data[i] := ZERO;
        i := i + 1;
      }
    }

    /** The end mark, and a block of its own for it when the length does not fit behind it. */
    method MarkEnd(count: nat, ghost tail: seq<byte>)
      requires Sized() && count < B && data[..count] == tail
      modifies state, data
      ensures if count + 1 > T then state[..] == c(old(state[..]), tail + [MARK] + Zeros(B - count - 1)) && data[..T] == Zeros(T)
        else state[..] == old(state[..]) && data[..T] == tail + [MARK] + Zeros(T - count - 1)
    {
      data[count] := MARK;
      assert data[..count + 1] == tail + [MARK];
      if count + 1 > T {
        ZeroTo(count + 1, B);
        assert data[..] == data[..B];
        Squeeze();
        ZeroTo(0, T);
        assert [] + Zeros(T) == Zeros(T);
      } else {
        ZeroTo(count + 1, T);
      }
    }

    /** The bytes of the block swapped into words, and the two words of the count after them, stored as the machine does. */
    method StoreCount(ghost head: seq<byte>)
      requires data.Length == B && data[..T] == head
      modifies data
      ensures data[..] == Turned(kit.little, head + (BigEndian(countHi, 4) + BigEndian(countLo, 4)))
    {
      SwapHead(head);
      CopyIn(data, T, Turned(kit.little, BigEndian(countHi, 4)) + Turned(kit.little, BigEndian(countLo, 4)));
      assert data[..] == data[..B];
      TurnedCount(kit.little, head, countHi, countLo);
    }

    method SwapHead(ghost head: seq<byte>)
      requires data.Length == B && data[..T] == head
      modifies data
      ensures data[..T] == Turned(kit.little, head)
    {
      ghost var tail := data[T..];
      assert data[..] == head + tail;
      SwapBytes(kit.little, data, 16);
      TurnedHead(kit.little, head, tail);
      assert data[..T] == data[..][..T];
    }

    /** The last state is that of the whole message, padded, at one go. */
    method Close()
      requires Valid()
      modifies state, data
      ensures state[..] == Hash(c, B, T, init, msg)
    {
      ghost var p, bits := Held(), countHi * WORD32 + countLo;
      HashLast(p, c, B, T, init, msg, bits);
      LocalFromCount(countLo, countHi, |msg|);
      Position(|msg|, local);
      BigEndianSplit(countHi, countLo);
      CloseBlocks(p.tail, BigEndian(bits, 8));
    }

    method CloseBlocks(ghost tail: seq<byte>, ghost field: seq<byte>)
      requires Sized() && countLo / 8 % 64 == |tail| && data[..|tail|] == tail
      requires |field| == 8 && field == BigEndian(countHi, 4) + BigEndian(countLo, 4)
      modifies state, data
      ensures state[..] == LastState(c, B, T, old(state[..]), tail, field)
    {
      MarkEnd(countLo / 8 % 64, tail);
      CloseBlock(data[..T], field);
    }

    method CloseBlock(ghost head: seq<byte>, ghost field: seq<byte>)
      requires Sized() && data[..T] == head && |field| == 8 && field == BigEndian(countHi, 4) + BigEndian(countLo, 4)
      modifies state, data
      ensures state[..] == c(old(state[..]), head + field)
    {
      StoreCount(head);
      TransformData(head + field);
    }

    /** The last step: the bytes written are the digest of the whole message. */
    method Done(out: array<byte>)
      requires Valid() && (forall w :: |kit.store(w)| == 4) && out.Length == 20
      modifies state, data, out
      ensures out[..] == StoreWords(kit.store, Hash(c, B, T, init, msg))
    {
      Close();
      FiveWords(kit.store, state[..]);
      WriteWords(kit.store, state[..], out);
    }
  }

  lemma FiveWords<W(!new)>(store: W -> seq<byte>, ws: seq<W>)
    requires forall w :: |store(w)| == 4
    ensures |StoreWords(store, ws)| == 4 * |ws|
  {
    if ws != [] {
      FiveWords(store, ws[..|ws| - 1]);
    }
  }

  lemma TurnedHead(little: bool, head: seq<byte>, tail: seq<byte>)
    requires |head| == T
    ensures Turned(little, head + tail)[..T] == Turned(little, head)
  {
    if little {
      RestIsMod(T, 4);
      FlipAppend(head, tail);
    }
  }

  method ProcessPieces<W(!new)>(ctx: Sha1Context<W>, pieces: seq<seq<byte>>)
    requires ctx.Valid() && forall i :: 0 <= i < |pieces| ==> |pieces[i]| < WORD32
    modifies ctx.state, ctx`local, ctx`msg, ctx`done, ctx`countLo, ctx`countHi, ctx.data
    ensures ctx.Valid() && ctx.msg == old(ctx.msg) + Joined(pieces)
  {
    if pieces != [] {
      JoinedOn(ctx.msg, pieces);
      ctx.Process(pieces[0]);
      ProcessPieces(ctx, pieces[1..]);
    }
  }

  method Run<W(!new)>(kit: Kit1<W>, ghost c: Compress<seq<W>>, init: seq<W>, pieces: seq<seq<byte>>) returns (digest: seq<byte>)
    requires |init| == 5 && Runs(kit, c) && (forall w :: |kit.store(w)| == 4) && forall i :: 0 <= i < |pieces| ==> |pieces[i]| < WORD32
    ensures digest == StoreWords(kit.store, Hash(c, B, T, init, Joined(pieces))) && |digest| == 20
  {
    var ctx := Sha1Context.Start(kit, c, init);
    ProcessPieces(ctx, pieces);
    assert [] + Joined(pieces) == Joined(pieces);
    digest := FinishedBytes(ctx);
  }

  method FinishedBytes<W(!new)>(ctx: Sha1Context<W>) returns (digest: seq<byte>)
    requires ctx.Valid() && forall w :: |ctx.kit.store(w)| == 4
    modifies ctx.state, ctx.data
    ensures digest == StoreWords(ctx.kit.store, Hash(ctx.c, B, T, ctx.init, ctx.msg)) && |digest| == 20
  {
    var out := new byte[20];
    ctx.Done(out);
    digest := out[..];
  }
}
