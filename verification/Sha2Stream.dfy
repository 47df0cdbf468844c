/** SHA-256 and SHA-512 piece by piece. */
module Sha2Stream {
  import opened ShaPad
  import opened ShaRounds
  import opened ShaStream

  /** The word functions, words of `width` bytes as the source reads and writes them, the number of rounds, and which
      of the two forms of the rounds is used. */
  datatype Kit<!W> = Kit(o: Core<W>, load: seq<byte> -> W, store: W -> seq<byte>, width: nat, rounds: nat, unrolled: bool)

  predicate GoodKit<W>(kit: Kit<W>)
  {
    kit.width > 0 && kit.rounds >= 16 && kit.rounds % 8 == 0
  }

  predicate Fits<W>(kit: Kit<W>, state: seq<W>, block: seq<byte>)
  {
    kit.width > 0 && |state| == 8 && |block| == 16 * kit.width
  }

  /** The block function: sixteen words loaded from the block, and the rounds. */
  function BlockStep<W>(kit: Kit<W>, state: seq<W>, block: seq<byte>): (r: seq<W>)
    ensures |r| == |state|
  {
    if !Fits(kit, state, block) then state
    else
      LoadCount(kit.load, kit.width, block, 16);
      Compressed(kit.o, state, LoadWords(kit.load, kit.width, block), kit.rounds)
  }

  function Block<W>(kit: Kit<W>): Compress<seq<W>>
  {
    (state: seq<W>, block: seq<byte>) => BlockStep(kit, state, block)
  }

  /** The function c is the kit's block function. */
  ghost predicate Runs<W(!new)>(kit: Kit<W>, c: Compress<seq<W>>)
  {
    forall state: seq<W>, block: seq<byte> {:trigger Fits(kit, state, block)} ::
      Fits(kit, state, block) ==> c(state, block) == BlockStep(kit, state, block)
  }

  /** The digest at one go: padding, blocks, and the words of the last state as bytes. */
  function Digest<W>(kit: Kit<W>, b: nat, t: nat, init: seq<W>, m: seq<byte>): seq<byte>
    requires 0 < t < b
  {
    StoreWords(kit.store, Hash(Block(kit), b, t, init, m))
  }

  /** The loading loop. */
  method LoadBlock<W>(kit: Kit<W>, block: seq<byte>) returns (ws: seq<W>)
    requires kit.width > 0 && |block| == 16 * kit.width
    ensures |ws| == 16 && ws == LoadWords(kit.load, kit.width, block)
  {
    LoadCount(kit.load, kit.width, block, 16);
    ws := [];
    var rest := block;
    while |rest| >= kit.width
      invariant ws + LoadWords(kit.load, kit.width, rest) == LoadWords(kit.load, kit.width, block)
      decreases |rest|
    {
      ws := ws + [kit.load(rest[..kit.width])];
      rest := rest[kit.width..];
    }
  }

  /** One block of the message. */
  method CompressBlock<W>(kit: Kit<W>, state: array<W>, block: seq<byte>)
    requires GoodKit(kit) && state.Length == 8 && |block| == 16 * kit.width
    modifies state
    ensures state[..] == BlockStep(kit, old(state[..]), block)
  {
    var ws := LoadBlock(kit, block);
    ShaRounds.Compress(kit.o, state, ws, kit.rounds, kit.unrolled);
  }

  /** The context of SHA-256 (b = 64, t = 56) and SHA-512 (b = 128, t = 112). */
  class ShaContext<W(!new)> {
    const b: nat
    const t: nat
    const kit: Kit<W>
    ghost const c: Compress<seq<W>>
    const init: seq<W>
    const state: array<W>
    const buf: array<byte>
    var curlen: nat
    var length: nat
    /** Everything processed so far, and the whole blocks of it. */
    ghost var msg: seq<byte>
    ghost var done: seq<byte>

    ghost function Held(): Progress<seq<W>>
      requires curlen <= buf.Length
      reads this`curlen, this`done, state, buf
    {
      Progress(done, state[..], buf[..curlen])
    }

    ghost predicate Sized()
    {
      8 < b && 0 < t <= b - 8 && buf.Length == b == 16 * kit.width && state.Length == 8 && GoodKit(kit) && Runs(kit, c)
    }

    ghost predicate Buffered()
      reads this`curlen, this`msg, this`done, state, buf
    {
      Sized() && curlen < b && After(Held(), c, b, init, msg)
    }

    /** The bits of the blocks that are done. */
    ghost predicate Counted()
      reads this`length, this`done
    {
      length == Bits(|done|)
    }

    ghost predicate Valid()
      reads this, state, buf
    {
      Buffered() && Counted()
    }

    constructor (b: nat, t: nat, kit: Kit<W>, ghost c: Compress<seq<W>>, init: seq<W>)
      requires b > 0 && |init| == 8
      ensures this.b == b && this.t == t && this.kit == kit && this.c == c && this.init == init && curlen == 0
      ensures length == 0 && msg == [] && done == []
      ensures fresh(state) && fresh(buf) && state.Length == 8 && buf.Length == b && state[..] == init
    {
      this.b, this.t, this.kit, this.c, this.init := b, t, kit, c, init;
      curlen, length, msg, done := 0, 0, [], [];
      state := new W[8](i requires 0 <= i < 8 => init[i]);
      buf := new byte[b];
    }

    /** sha_init. */
    static method Start(b: nat, t: nat, kit: Kit<W>, ghost c: Compress<seq<W>>, init: seq<W>) returns (ctx: ShaContext<W>)
      requires 8 < b == 16 * kit.width && 0 < t <= b - 8 && GoodKit(kit) && Runs(kit, c) && |init| == 8
      ensures fresh(ctx) && fresh(ctx.state) && fresh(ctx.buf) && ctx.Valid() && ctx.msg == []
      ensures ctx.b == b && ctx.t == t && ctx.kit == kit && ctx.c == c && ctx.init == init
    {
      ctx := new ShaContext(b, t, kit, c, init);
      AfterNone(ctx.Held(), c, b, init);
    }

    method Squeeze(block: seq<byte>)
      requires Sized() && |block| == b
      modifies state
      ensures state[..] == c(old(state[..]), block)
    {
      CompressBlock(kit, state, block);
    }

    /** The bits of k more bytes. */
    method CountBytes(k: nat, ghost n: nat)
      requires length == Bits(n)
      modifies this`length
      ensures length == Bits(n + k)
    {
      BitsAdd(n, k);
      length := (length + 8 * k) % WORD64;
    }

    /** A whole block straight from the input. */
    method AbsorbBlock(block: seq<byte>)
      requires Valid() && curlen == 0 && |block| == b
      modifies state, this`length, this`msg, this`done
      ensures Valid() && curlen == 0 && msg == old(msg) + block
    {
      AfterBlock(Held(), c, b, init, msg, block);
      Squeeze(block);
      CountBytes(b, |done|);
      msg := msg + block;
      done := msg;
    }

    /** Copying the input behind what the buffer holds fills it. */
    method TopUp(part: seq<byte>)
      requires Sized() && curlen + |part| == b
      modifies state, buf
      ensures state[..] == c(old(state[..]), old(buf[..curlen]) + part)
    {
      CopyIn(buf, curlen, part);
      assert buf[..] == buf[..b];
      Squeeze(buf[..]);
    }

    method FillBlock(part: seq<byte>)
      requires Valid() && curlen + |part| == b
      modifies state, this`curlen, this`length, this`msg, this`done, buf
      ensures Valid() && msg == old(msg) + part
    {
      AfterFill(Held(), c, b, init, msg, part);
      TopUp(part);
      CountBytes(b, |done|);
      curlen := 0;
      msg := msg + part;
      done := msg;
    }

    method KeepPart(part: seq<byte>)
      requires Valid() && curlen + |part| < b
      modifies this`curlen, this`msg, this`done, buf
      ensures Valid() && msg == old(msg) + part
    {
      AfterPart(Held(), c, b, init, msg, part);
      CopyIn(buf, curlen, part);
      curlen := curlen + |part|;
      msg := msg + part;
    }

    /** One turn of the loop. */
    method Absorb(src: seq<byte>, pos: nat) returns (next: nat)
      requires Valid() && pos < |src|
      modifies state, this`curlen, this`length, this`msg, this`done, buf
      ensures Valid() && pos < next <= |src| && msg == old(msg) + src[pos..next]
    {
      if curlen == 0 && |src| - pos >= b {
        next := pos + b;
        AbsorbBlock(src[pos..next]);
      } else {
        next := pos + if |src| - pos < b - curlen then |src| - pos else b - curlen;
        if next - pos == b - curlen {
          FillBlock(src[pos..next]);
        } else {
          KeepPart(src[pos..next]);
        }
      }
    }

    /** More of the message. */
    method Process(src: seq<byte>)
      requires Valid()
      modifies state, this`curlen, this`length, this`msg, this`done, buf
      ensures Valid() && msg == old(msg) + src
    {
      var pos := 0;
      while pos < |src|
        invariant Valid() && pos <= |src| && msg == old(msg) + src[..pos]
      {
        var next := Absorb(src, pos);
        assert src[..next] == src[..pos] + src[pos..next];
        pos := next;
      }
    }

    /** Zeros from curlen up to end. */
    method PadTo(end: nat)
      requires curlen <= end <= buf.Length
      modifies buf, this`curlen
      ensures curlen == end && buf[..end] == old(buf[..curlen]) + Zeros(end - old(curlen))
    {
      ghost var was := buf[..curlen];
      while curlen < end
        invariant |was| <= curlen <= end && buf[..curlen] == was + Zeros(curlen - |was|)
      {
        buf[curlen] := ZERO;
        curlen := curlen + 1;
      }
    }

    /** The rest of the last block: zeros and the length. */
    method Finish(ghost prefix: seq<byte>)
      requires Sized() && curlen <= t && buf[..curlen] == prefix && length < WORD64
      modifies state, this`curlen, buf
      ensures state[..] == c(old(state[..]), prefix + Zeros(t - |prefix|) + BigEndian(length, b - t))
    {
      PadTo(b - 8);
      StoreLength(buf, b - 8, length);
      Squeeze(buf[..]);
      LengthField(prefix, length, b, t);
    }

    /** The end mark; when the length does not fit behind it, the block is filled up and compressed. */
    method MarkEnd(ghost tail: seq<byte>) returns (ghost prefix: seq<byte>)
      requires Sized() && curlen < b && buf[..curlen] == tail
      modifies state, this`curlen, buf
      ensures curlen <= t && buf[..curlen] == prefix
      ensures if |tail| + 1 > t then prefix == [] && state[..] == c(old(state[..]), tail + [MARK] + Zeros(b - |tail| - 1))
        else prefix == tail + [MARK] && state[..] == old(state[..])
    {
      buf[curlen] := MARK;
      curlen := curlen + 1;
      prefix := tail + [MARK];
      assert buf[..curlen] == prefix;
      if curlen > t {
        PadTo(b);
        assert buf[..] == buf[..b];
        Squeeze(buf[..]);
        curlen := 0;
        prefix := [];
      }
    }

    /** The closing blocks. */
    method CloseBlocks(ghost tail: seq<byte>)
      requires Sized() && curlen < b && buf[..curlen] == tail && length < WORD64
      modifies state, this`curlen, buf
      ensures state[..] == LastState(c, b, t, old(state[..]), tail, BigEndian(length, b - t))
    {
      ghost var prefix := MarkEnd(tail);
      Finish(prefix);
      assert [] + Zeros(t) == Zeros(t);
    }

    /** The last state is that of the whole message, padded, at one go. */
    method Close()
      requires Valid()
      modifies state, this`curlen, this`length, buf
      ensures state[..] == Hash(c, b, t, init, msg)
    {
      CountBytes(curlen, |done|);
      HashLast(Held(), c, b, t, init, msg, length);
      CloseBlocks(buf[..curlen]);
    }

    /** The last step: the bytes written are the digest of the whole message. */
    method Done(out: array<byte>)
      requires Valid() && StoresWidth(kit) && out.Length == 8 * kit.width && out != buf
      modifies state, this`curlen, this`length, buf, out
      ensures out[..] == StoreWords(kit.store, Hash(c, b, t, init, msg))
    {
      Close();
      StoredLength(kit, state[..]);
      WriteWords(kit.store, state[..], out);
    }
  }

  ghost predicate StoresWidth<W(!new)>(kit: Kit<W>)
  {
    forall w :: |kit.store(w)| == kit.width
  }

  lemma {:induction false} StoredLength<W(!new)>(kit: Kit<W>, ws: seq<W>)
    requires StoresWidth(kit)
    ensures |StoreWords(kit.store, ws)| == |ws| * kit.width
  {
    if ws != [] {
      StoredLength(kit, ws[..|ws| - 1]);
      assert |ws| * kit.width == (|ws| - 1) * kit.width + kit.width;
    }
  }

  lemma LengthField(prefix: seq<byte>, x: nat, b: nat, t: nat)
    requires 8 < b && 0 < t <= b - 8 && |prefix| <= t && x < WORD64
    ensures prefix + Zeros(b - 8 - |prefix|) + BigEndian(x, 8) == prefix + Zeros(t - |prefix|) + BigEndian(x, b - t)
  {
    Pow256Eight();
    BigEndianWide(x, 8, b - t - 8);
    assert Zeros(b - 8 - |prefix|) == Zeros(t - |prefix|) + Zeros(b - t - 8);
  }

  /** store64: x in the last eight bytes of buf, most significant first. */
  method StoreLength(buf: array<byte>, at: nat, x: nat)
    requires at + 8 == buf.Length
    modifies buf
    ensures buf[..] == old(buf[..at]) + BigEndian(x, 8)
  {
    var i := 0;
    while i < 8
      invariant i <= 8 && buf[..at] == old(buf[..at]) && forall j :: 0 <= j < i ==> buf[at + j] == BigEndian(x, 8)[j]
    {
      BigEndianAt(x, 8, 7 - i);
      buf[at + i] := LowByte(x / Pow256(7 - i));
      i := i + 1;
    }
  }

  method ProcessAll<W(!new)>(ctx: ShaContext<W>, pieces: seq<seq<byte>>)
    requires ctx.Valid()
    modifies ctx.state, ctx`curlen, ctx`length, ctx`msg, ctx`done, ctx.buf
    ensures ctx.Valid() && ctx.msg == old(ctx.msg) + Joined(pieces)
  {
    if pieces != [] {
      JoinedOn(ctx.msg, pieces);
      ctx.Process(pieces[0]);
      ProcessAll(ctx, pieces[1..]);
    }
  }

  /** sha_init, sha_process for every piece, sha_done. */
  method DigestPieces<W(!new)>(kit: Kit<W>, ghost c: Compress<seq<W>>, b: nat, t: nat, init: seq<W>, pieces: seq<seq<byte>>)
      returns (digest: seq<byte>)
    requires 8 < b == 16 * kit.width && 0 < t <= b - 8 && GoodKit(kit) && Runs(kit, c) && |init| == 8 && StoresWidth(kit)
    ensures digest == StoreWords(kit.store, Hash(c, b, t, init, Joined(pieces))) && |digest| == 8 * kit.width
  {
    var ctx := ShaContext.Start(b, t, kit, c, init);
    ProcessAll(ctx, pieces);
    assert [] + Joined(pieces) == Joined(pieces);
    digest := Finished(ctx);
  }

  method Finished<W(!new)>(ctx: ShaContext<W>) returns (digest: seq<byte>)
    requires ctx.Valid() && StoresWidth(ctx.kit)
    modifies ctx.state, ctx`curlen, ctx`length, ctx.buf
    ensures digest == StoreWords(ctx.kit.store, Hash(ctx.c, ctx.b, ctx.t, ctx.init, ctx.msg)) && |digest| == 8 * ctx.kit.width
  {
    var out := new byte[8 * ctx.kit.width];
    ctx.Done(out);
    digest := out[..];
  }
}
