/** Hashing a message piece by piece: what is known after some of it, and what the last step has to do. */
module ShaStream {
  import opened ShaPad
  import opened ShaStandard

  /** What the context holds after some bytes, however they were split: the whole blocks among them are done and the
      rest waits. */
  datatype Progress<S> = Progress(done: seq<byte>, state: S, tail: seq<byte>)

  ghost predicate After<S>(p: Progress<S>, c: Compress<S>, b: nat, init: S, msg: seq<byte>)
    requires b > 0
  {
    |p.tail| < b && msg == p.done + p.tail && Rest(|p.done|, b) == 0 && p.state == Fold(c, b, init, p.done)
  }

  /** Some input that does not finish the block. */
  lemma AfterPart<S>(p: Progress<S>, c: Compress<S>, b: nat, init: S, msg: seq<byte>, part: seq<byte>)
    requires b > 0 && After(p, c, b, init, msg) && |p.tail| + |part| < b
    ensures After(p.(tail := p.tail + part), c, b, init, msg + part)
  {
    assert (p.done + p.tail) + part == p.done + (p.tail + part);
  }

  /** Input that finishes the block. */
  lemma AfterFill<S>(p: Progress<S>, c: Compress<S>, b: nat, init: S, msg: seq<byte>, part: seq<byte>)
    requires b > 0 && After(p, c, b, init, msg) && |p.tail| + |part| == b
    ensures After(Progress(msg + part, c(p.state, p.tail + part), []), c, b, init, msg + part)
  {
    assert msg + part == p.done + (p.tail + part);
    FoldOne(c, b, init, p.done, p.tail + part);
    assert (msg + part) + [] == msg + part;
  }

  /** A whole block straight from the input. */
  lemma AfterBlock<S>(p: Progress<S>, c: Compress<S>, b: nat, init: S, msg: seq<byte>, block: seq<byte>)
    requires b > 0 && After(p, c, b, init, msg) && p.tail == [] && |block| == b
    ensures After(Progress(msg + block, c(p.state, block), []), c, b, init, msg + block)
  {
    AfterFill(p, c, b, init, msg, block);
    assert p.tail + block == block;
  }

  lemma AfterNone<S>(p: Progress<S>, c: Compress<S>, b: nat, init: S)
    requires b > 0 && p == Progress([], init, [])
    ensures After(p, c, b, init, [])
  {
  }

  /** Padding from where the context stands: one more block, or two when the length does not fit behind the mark. */
  function LastBlocks(tail: seq<byte>, bits: nat, b: nat, t: nat): (r: seq<byte>)
    requires 0 < t < b && |tail| < b
    ensures |r| == if |tail| + 1 > t then 2 * b else b
  {
    if |tail| + 1 > t then tail + [MARK] + Zeros(b - |tail| - 1) + Zeros(t) + BigEndian(bits, b - t)
    else tail + [MARK] + Zeros(t - |tail| - 1) + BigEndian(bits, b - t)
  }

  lemma ZeroCountIs(n: nat, k: nat, b: nat, t: nat)
    requires 0 < t < b && k < b && k <= n && Rest(n - k, b) == 0
    ensures ZeroCount(n, b, t) == if k + 1 > t then b - k - 1 + t else t - k - 1
  {
    RestAdd(n - k, k, b);
    RestAdd(n, 1, b);
  }

  lemma PadTail(done: seq<byte>, tail: seq<byte>, b: nat, t: nat, bits: nat)
    requires 0 < t < b && |tail| < b && Rest(|done|, b) == 0 && bits == Bits(|done + tail|)
    ensures Pad(done + tail, b, t) == done + LastBlocks(tail, bits, b, t)
  {
    ZeroCountIs(|done + tail|, |tail|, b, t);
    PadParts(done, tail, bits, b, t, ZeroCount(|done + tail|, b, t));
  }

  lemma PadParts(head: seq<byte>, tail: seq<byte>, bits: nat, b: nat, t: nat, z: nat)
    requires 0 < t < b && |tail| < b && z == if |tail| + 1 > t then b - |tail| - 1 + t else t - |tail| - 1
    ensures head + tail + [MARK] + Zeros(z) + BigEndian(bits, b - t) == head + LastBlocks(tail, bits, b, t)
  {
    if |tail| + 1 > t {
      assert Zeros(z) == Zeros(b - |tail| - 1) + Zeros(t);
    }
  }

  /** What the last step has to compute. */
  lemma HashFrom<S>(p: Progress<S>, c: Compress<S>, b: nat, t: nat, init: S, msg: seq<byte>, bits: nat)
    requires 0 < t < b && After(p, c, b, init, msg) && bits == Bits(|msg|)
    ensures Hash(c, b, t, init, msg) == Fold(c, b, p.state, LastBlocks(p.tail, bits, b, t))
  {
    PadTail(p.done, p.tail, b, t, bits);
    FoldAppend(c, b, init, p.done, LastBlocks(p.tail, bits, b, t));
  }

  /** The state after the closing block, or the two of them. */
  function LastState<S>(c: Compress<S>, b: nat, t: nat, s: S, tail: seq<byte>, field: seq<byte>): S
    requires 0 < t < b && |tail| < b
  {
    if |tail| + 1 > t then c(c(s, tail + [MARK] + Zeros(b - |tail| - 1)), Zeros(t) + field)
    else c(s, tail + [MARK] + Zeros(t - |tail| - 1) + field)
  }

  lemma FoldLast<S>(c: Compress<S>, b: nat, s: S, tail: seq<byte>, bits: nat, t: nat)
    requires 0 < t < b && |tail| < b
    ensures Fold(c, b, s, LastBlocks(tail, bits, b, t)) == LastState(c, b, t, s, tail, BigEndian(bits, b - t))
  {
    var r := LastBlocks(tail, bits, b, t);
    if |tail| + 1 > t {
      var u, v := tail + [MARK] + Zeros(b - |tail| - 1), Zeros(t) + BigEndian(bits, b - t);
      assert r == u + v;
      FoldOne(c, b, s, u, v);
      FoldOne(c, b, s, [], u);
      assert [] + u == u;
    } else {
      FoldOne(c, b, s, [], r);
      assert [] + r == r;
    }
  }

  /** What the last step has to compute, block by block. */
  lemma HashLast<S>(p: Progress<S>, c: Compress<S>, b: nat, t: nat, init: S, msg: seq<byte>, bits: nat)
    requires 0 < t < b && After(p, c, b, init, msg) && bits == Bits(|msg|)
    ensures Hash(c, b, t, init, msg) == LastState(c, b, t, p.state, p.tail, BigEndian(bits, b - t))
  {
    HashFrom(p, c, b, t, init, msg, bits);
    FoldLast(c, b, p.state, p.tail, bits, t);
  }

  /** memcpy of part to buf at offset at. */
  method CopyIn(buf: array<byte>, at: nat, part: seq<byte>)
    requires at + |part| <= buf.Length
    modifies buf
    ensures buf[..at + |part|] == old(buf[..at]) + part
    ensures forall k :: at + |part| <= k < buf.Length ==> buf[k] == old(buf[k])
  {
    var i := 0;
    while i < |part|
      invariant i <= |part| && buf[..at + i] == old(buf[..at]) + part[..i]
      invariant forall k :: at + i <= k < buf.Length ==> buf[k] == old(buf[k])
    {
      buf[at + i] := part[i];
      i := i + 1;
    }
  }

  // ---- words of a block, bytes of a digest ----

  function LoadWords<W>(load: seq<byte> -> W, width: nat, m: seq<byte>): seq<W>
    requires width > 0
    decreases |m|
  {
    if |m| < width then [] else [load(m[..width])] + LoadWords(load, width, m[width..])
  }

  lemma {:induction false} LoadCount<W>(load: seq<byte> -> W, width: nat, m: seq<byte>, n: nat)
    requires width > 0 && |m| == n * width
    ensures |LoadWords(load, width, m)| == n
  {
    if n > 0 {
      assert (n - 1) * width + width == n * width;
      LoadCount(load, width, m[width..], n - 1);
    }
  }

  function StoreWords<W>(store: W -> seq<byte>, ws: seq<W>): seq<byte>
  {
    if ws == [] then [] else StoreWords(store, ws[..|ws| - 1]) + store(ws[|ws| - 1])
  }

  lemma {:induction false} StorePrefix<W>(store: W -> seq<byte>, ws: seq<W>, i: nat)
    requires i <= |ws|
    ensures |StoreWords(store, ws[..i])| <= |StoreWords(store, ws)|
  {
    if i < |ws| {
      StorePrefix(store, ws[..|ws| - 1], i);
      assert ws[..|ws| - 1][..i] == ws[..i];
    } else {
      assert ws[..i] == ws;
    }
  }

  /** The loop over the words of the state. */
  method WriteWords<W>(store: W -> seq<byte>, ws: seq<W>, out: array<byte>)
    requires out.Length == |StoreWords(store, ws)|
    modifies out
    ensures out[..] == StoreWords(store, ws)
  {
    var i, at := 0, 0;
    while i < |ws|
      invariant i <= |ws| && 0 <= at <= out.Length && out[..at] == StoreWords(store, ws[..i])
    {
      StorePrefix(store, ws, i + 1);
      assert ws[..i + 1][..i] == ws[..i];
      CopyIn(out, at, store(ws[i]));
      at := at + |store(ws[i])|;
      i := i + 1;
    }
    assert ws[..i] == ws;
    assert out[..] == out[..at];
  }

  /** The message that pieces make up. */
  function Joined(pieces: seq<seq<byte>>): seq<byte>
  {
    if pieces == [] then [] else pieces[0] + Joined(pieces[1..])
  }

  lemma JoinedOn(m: seq<byte>, pieces: seq<seq<byte>>)
    requires pieces != []
    ensures m + Joined(pieces) == (m + pieces[0]) + Joined(pieces[1..])
  {
  }

  // ---- next to the standard's text ----

  /** Reading words from the front or from the back. */
  lemma {:induction false} WordsFromBack<W>(load: seq<byte> -> W, word: seq<byte> -> W, width: nat, q: seq<byte>, n: nat)
    requires width > 0 && |q| == n * width && forall y :: load(y) == word(y)
    ensures LoadWords(load, width, q) == WordsOf(word, width, q)
  {
    if n > 0 {
      var p := q[..|q| - width];
      assert |p| == (n - 1) * width by { assert (n - 1) * width + width == n * width; }
      WordsFromBack(load, word, width, p, n - 1);
      LoadLast(load, width, p, q[|q| - width..], n - 1);
      assert q == p + q[|q| - width..];
    }
  }

  lemma {:induction false} LoadLast<W>(load: seq<byte> -> W, width: nat, p: seq<byte>, y: seq<byte>, n: nat)
    requires width > 0 && |p| == n * width && |y| == width
    ensures LoadWords(load, width, p + y) == LoadWords(load, width, p) + [load(y)]
  {
    if n == 0 {
      assert p + y == y && y[..width] == y && y[width..] == [];
    } else {
      assert (n - 1) * width + width == n * width;
      assert (p + y)[..width] == p[..width] && (p + y)[width..] == p[width..] + y;
      LoadLast(load, width, p[width..], y, n - 1);
    }
  }

  /** The bytes written hold the words. */
  lemma {:induction false} StoredWords<W>(store: W -> seq<byte>, word: seq<byte> -> W, width: nat, ws: seq<W>)
    requires width > 0 && forall x :: |store(x)| == width && word(store(x)) == x
    ensures WordsOf(word, width, StoreWords(store, ws)) == ws && |StoreWords(store, ws)| == |ws| * width
  {
    if ws != [] {
      var d, before := StoreWords(store, ws), StoreWords(store, ws[..|ws| - 1]);
      StoredWords(store, word, width, ws[..|ws| - 1]);
      assert d == before + store(ws[|ws| - 1]);
      assert (|ws| - 1) * width + width == |ws| * width;
      assert d[..|d| - width] == before && d[|d| - width..] == store(ws[|ws| - 1]);
    }
  }
}
