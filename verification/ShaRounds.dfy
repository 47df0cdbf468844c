/**
  The SHA-2 block function over any kind of word: the message schedule, the rounds of section 6.2.2 and
  6.4.2 of FIPS 180-4, and the two ways the source runs them.
 */
module ShaRounds {
  /** What a round needs to know about words: addition and the functions of section 4.1. */
  datatype Core<!W> = Core(add: (W, W) -> W, sum0: W -> W, sum1: W -> W, small0: W -> W, small1: W -> W,
                           ch: (W, W, W) -> W, maj: (W, W, W) -> W, k: nat -> W)

  datatype Regs<W> = Regs(a: W, b: W, c: W, d: W, e: W, f: W, g: W, h: W)

  function T1<W>(o: Core<W>, e: W, f: W, g: W, h: W, i: nat, w: W): W
  {
    o.add(o.add(o.add(o.add(h, o.sum1(e)), o.ch(e, f, g)), o.k(i)), w)
  }

  function T2<W>(o: Core<W>, a: W, b: W, c: W): W
  {
    o.add(o.sum0(a), o.maj(a, b, c))
  }

  /** One round as the standard states it. */
  function Round<W>(o: Core<W>, r: Regs<W>, i: nat, w: W): Regs<W>
  {
    var t1 := T1(o, r.e, r.f, r.g, r.h, i, w);
    Regs(o.add(t1, T2(o, r.a, r.b, r.c)), r.a, r.b, r.c, o.add(r.d, t1), r.e, r.f, r.g)
  }

  function Rounds<W>(o: Core<W>, r: Regs<W>, ws: seq<W>, n: nat): Regs<W>
    requires n <= |ws|
  {
    if n == 0 then r else Round(o, Rounds(o, r, ws, n - 1), n - 1, ws[n - 1])
  }

  /** The i-th word of the message schedule. */
  function Schedule<W>(o: Core<W>, block: seq<W>, i: nat): W
    requires |block| == 16
  {
    if i < 16 then block[i]
    else o.add(o.add(o.add(o.small1(Schedule(o, block, i - 2)), Schedule(o, block, i - 7)), o.small0(Schedule(o, block, i - 15))),
               Schedule(o, block, i - 16))
  }

  function Words<W>(o: Core<W>, block: seq<W>, n: nat): (ws: seq<W>)
    requires |block| == 16
    ensures |ws| == n && forall i :: 0 <= i < n ==> ws[i] == Schedule(o, block, i)
  {
    seq(n, i requires 0 <= i => Schedule(o, block, i))
  }

  method FillSchedule<W>(o: Core<W>, block: seq<W>, n: nat) returns (ws: seq<W>)
    requires |block| == 16 <= n
    ensures ws == Words(o, block, n)
  {
    ws := block;
    var i := 16;
    while i < n
      invariant 16 <= i <= n && ws == Words(o, block, i)
    {
      ws := ws + [o.add(o.add(o.add(o.small1(ws[i - 2]), ws[i - 7]), o.small0(ws[i - 15])), ws[i - 16])];
      i := i + 1;
    }
  }

  function At(p: nat, k: nat): (r: nat)
    requires p < 8 && k < 8
    ensures r < 8
  {
    if p + k < 8 then p + k else p + k - 8
  }

  /** Eight registers in an array, the one that plays a at index p and the others behind it, cyclically. */
  function View<W>(s: seq<W>, p: nat): Regs<W>
    requires |s| == 8 && p < 8
  {
    Regs(s[p], s[At(p, 1)], s[At(p, 2)], s[At(p, 3)], s[At(p, 4)], s[At(p, 5)], s[At(p, 6)], s[At(p, 7)])
  }

  /** RND: the two registers that change, given where the eight are. */
  method Rnd<W>(o: Core<W>, s: array<W>, a: nat, b: nat, c: nat, d: nat, e: nat, f: nat, g: nat, h: nat, i: nat, w: W)
    requires s.Length == 8 && a < 8 && b < 8 && c < 8 && d < 8 && e < 8 && f < 8 && g < 8 && h < 8 && d != h && a != d && b != d && c != d
    modifies s
    ensures var t1 := T1(o, old(s[e]), old(s[f]), old(s[g]), old(s[h]), i, w);
      s[..] == old(s[..])[d := o.add(old(s[d]), t1)][h := o.add(t1, T2(o, old(s[a]), old(s[b]), old(s[c])))]
  {
    var t0 := o.add(o.add(o.add(o.add(s[h], o.sum1(s[e])), o.ch(s[e], s[f], s[g])), o.k(i)), w);
    var t1 := o.add(o.sum0(s[a]), o.maj(s[a], s[b], s[c]));
    s[d] := o.add(s[d], t0);
    s[h] := o.add(t0, t1);
  }

  /** Instead of moving eight registers, the next round looks at them one place further. */
  lemma Turn<W>(o: Core<W>, s: seq<W>, p: nat, i: nat, w: W)
    requires |s| == 8 && p < 8
    ensures var t1 := T1(o, s[At(p, 4)], s[At(p, 5)], s[At(p, 6)], s[At(p, 7)], i, w);
      var s' := s[At(p, 3) := o.add(s[At(p, 3)], t1)][At(p, 7) := o.add(t1, T2(o, s[p], s[At(p, 1)], s[At(p, 2)]))];
      View(s', At(p, 7)) == Round(o, View(s, p), i, w)
  {
  }

  /** SHA-256: a round, then every register moves one place. */
  method PlainRound<W>(o: Core<W>, s: array<W>, i: nat, ws: seq<W>, ghost r: Regs<W>)
    requires s.Length == 8 && i < |ws| && View(s[..], 0) == Rounds(o, r, ws, i)
    modifies s
    ensures View(s[..], 0) == Rounds(o, r, ws, i + 1)
  {
    Turn(o, s[..], 0, i, ws[i]);
    Rnd(o, s, 0, 1, 2, 3, 4, 5, 6, 7, i, ws[i]);
    var t := s[7];
    s[7] := s[6];
    s[6] := s[5];
    s[5] := s[4];
    s[4] := s[3];
    s[3] := s[2];
    s[2] := s[1];
    s[1] := s[0];
    s[0] := t;
  }

  method PlainRounds<W>(o: Core<W>, s: array<W>, ws: seq<W>)
    requires s.Length == 8
    modifies s
    ensures View(s[..], 0) == Rounds(o, old(View(s[..], 0)), ws, |ws|)
  {
    ghost var r := View(s[..], 0);
    var i := 0;
    while i < |ws|
      invariant i <= |ws| && View(s[..], 0) == Rounds(o, r, ws, i)
    {
      PlainRound(o, s, i, ws, r);
      i := i + 1;
    }
  }

  method TurnRound<W>(o: Core<W>, s: array<W>, p: nat, a: nat, b: nat, c: nat, d: nat, e: nat, f: nat, g: nat, h: nat, i: nat,
                      ws: seq<W>, ghost r: Regs<W>)
    requires s.Length == 8 && p < 8 && a == p && b == At(p, 1) && c == At(p, 2) && d == At(p, 3)
    requires e == At(p, 4) && f == At(p, 5) && g == At(p, 6) && h == At(p, 7)
    requires i < |ws| && View(s[..], p) == Rounds(o, r, ws, i)
    modifies s
    ensures View(s[..], h) == Rounds(o, r, ws, i + 1)
  {
    Turn(o, s[..], p, i, ws[i]);
    Rnd(o, s, a, b, c, d, e, f, g, h, i, ws[i]);
  }

  method FirstFour<W>(o: Core<W>, s: array<W>, i: nat, ws: seq<W>, ghost r: Regs<W>)
    requires s.Length == 8 && i + 8 <= |ws| && View(s[..], 0) == Rounds(o, r, ws, i)
    modifies s
    ensures View(s[..], 4) == Rounds(o, r, ws, i + 4)
  {
    TurnRound(o, s, 0, 0, 1, 2, 3, 4, 5, 6, 7, i, ws, r);
    TurnRound(o, s, 7, 7, 0, 1, 2, 3, 4, 5, 6, i + 1, ws, r);
    TurnRound(o, s, 6, 6, 7, 0, 1, 2, 3, 4, 5, i + 2, ws, r);
    TurnRound(o, s, 5, 5, 6, 7, 0, 1, 2, 3, 4, i + 3, ws, r);
  }

  method LastFour<W>(o: Core<W>, s: array<W>, i: nat, ws: seq<W>, ghost r: Regs<W>)
    requires s.Length == 8 && i + 8 <= |ws| && View(s[..], 4) == Rounds(o, r, ws, i + 4)
    modifies s
    ensures View(s[..], 0) == Rounds(o, r, ws, i + 8)
  {
    TurnRound(o, s, 4, 4, 5, 6, 7, 0, 1, 2, 3, i + 4, ws, r);
    TurnRound(o, s, 3, 3, 4, 5, 6, 7, 0, 1, 2, i + 5, ws, r);
    TurnRound(o, s, 2, 2, 3, 4, 5, 6, 7, 0, 1, i + 6, ws, r);
    TurnRound(o, s, 1, 1, 2, 3, 4, 5, 6, 7, 0, i + 7, ws, r);
  }

  /** SHA-512: eight rounds without moving anything; afterwards every register is back at its place. */
  method EightRounds<W>(o: Core<W>, s: array<W>, i: nat, ws: seq<W>, ghost r: Regs<W>)
    requires s.Length == 8 && i + 8 <= |ws| && View(s[..], 0) == Rounds(o, r, ws, i)
    modifies s
    ensures View(s[..], 0) == Rounds(o, r, ws, i + 8)
  {
    FirstFour(o, s, i, ws, r);
    LastFour(o, s, i, ws, r);
  }

  method UnrolledRounds<W>(o: Core<W>, s: array<W>, ws: seq<W>, ghost turns: nat)
    requires s.Length == 8 && |ws| == 8 * turns
    modifies s
    ensures View(s[..], 0) == Rounds(o, old(View(s[..], 0)), ws, |ws|)
  {
    ghost var r, left := View(s[..], 0), turns;
    var i := 0;
    while i < |ws|
      invariant 0 <= i && i + 8 * left == |ws|
      invariant View(s[..], 0) == Rounds(o, r, ws, i)
      decreases left
    {
      EightRounds(o, s, i, ws, r);
      i, left := i + 8, left - 1;
    }
  }

  /** The block function: schedule, rounds, and the sum with the state before. */
  function Compressed<W>(o: Core<W>, state: seq<W>, block: seq<W>, n: nat): seq<W>
    requires |state| == 8 && |block| == 16
  {
    var r := Rounds(o, View(state, 0), Words(o, block, n), n);
    [o.add(state[0], r.a), o.add(state[1], r.b), o.add(state[2], r.c), o.add(state[3], r.d),
     o.add(state[4], r.e), o.add(state[5], r.f), o.add(state[6], r.g), o.add(state[7], r.h)]
  }

  method Registers<W>(state: array<W>) returns (s: array<W>)
    requires state.Length == 8
    ensures fresh(s) && s.Length == 8 && s[..] == state[..]
  {
    s := new W[8](i requires 0 <= i < 8 reads state => state[i]);
    assert s[..] == state[..];
  }

  method RunRounds<W>(o: Core<W>, s: array<W>, ws: seq<W>, unrolled: bool)
    requires s.Length == 8 && |ws| % 8 == 0
    modifies s
    ensures View(s[..], 0) == Rounds(o, old(View(s[..], 0)), ws, |ws|)
  {
    if unrolled {
      UnrolledRounds(o, s, ws, |ws| / 8);
    } else {
      PlainRounds(o, s, ws);
    }
  }

  /** Both forms compute the block function: unrolled (SHA-512, 80 rounds) and plain (SHA-256, 64 rounds). */
  method Compress<W>(o: Core<W>, state: array<W>, block: seq<W>, n: nat, unrolled: bool)
    requires state.Length == 8 && |block| == 16 <= n && n % 8 == 0
    modifies state
    ensures state[..] == Compressed(o, old(state[..]), block, n)
  {
    ghost var was := state[..];
    var s := Registers(state);
    var ws := FillSchedule(o, block, n);
    RunRounds(o, s, ws, unrolled);
    Feedback(o, state, s);
    FeedbackIs(o, was, block, n, s[..], state[..]);
  }

  lemma FeedbackIs<W>(o: Core<W>, was: seq<W>, block: seq<W>, n: nat, s: seq<W>, now: seq<W>)
    requires |was| == |s| == |now| == 8 && |block| == 16 && View(s, 0) == Rounds(o, View(was, 0), Words(o, block, n), n)
    requires forall i :: 0 <= i < 8 ==> now[i] == o.add(was[i], s[i])
    ensures now == Compressed(o, was, block, n)
  {
  }

  method Feedback<W>(o: Core<W>, state: array<W>, s: array<W>)
    requires state.Length == 8 == s.Length && state != s
    modifies state
    ensures forall i :: 0 <= i < 8 ==> state[i] == o.add(old(state[i]), s[i])
  {
    var i := 0;
    while i < 8
      invariant i <= 8 && (forall j :: 0 <= j < i ==> state[j] == o.add(old(state[j]), s[j])) && forall j :: i <= j < 8 ==> state[j] == old(state[j])
    {
      state[i] := o.add(state[i], s[i]);
      i := i + 1;
    }
  }

  // ---- two ways to compute the same word functions ----

  /** The same function of words in every place. */
  ghost predicate Alike<W(!new)>(o: Core<W>, p: Core<W>)
  {
    && o.add == p.add && o.k == p.k
    && (forall x :: o.sum0(x) == p.sum0(x)) && (forall x :: o.sum1(x) == p.sum1(x))
    && (forall x :: o.small0(x) == p.small0(x)) && (forall x :: o.small1(x) == p.small1(x))
    && (forall x, y, z :: o.ch(x, y, z) == p.ch(x, y, z))
    && (forall x, y, z :: o.maj(x, y, z) == p.maj(x, y, z))
  }

  lemma {:induction false} AlikeSchedule<W(!new)>(o: Core<W>, p: Core<W>, block: seq<W>, i: nat)
    requires Alike(o, p) && |block| == 16
    ensures Schedule(o, block, i) == Schedule(p, block, i)
  {
    if i >= 16 {
      AlikeSchedule(o, p, block, i - 2);
      AlikeSchedule(o, p, block, i - 7);
      AlikeSchedule(o, p, block, i - 15);
      AlikeSchedule(o, p, block, i - 16);
    }
  }

  lemma AlikeWords<W(!new)>(o: Core<W>, p: Core<W>, block: seq<W>, n: nat)
    requires Alike(o, p) && |block| == 16
    ensures Words(o, block, n) == Words(p, block, n)
  {
    forall i | 0 <= i < n
      ensures Schedule(o, block, i) == Schedule(p, block, i)
    {
      AlikeSchedule(o, p, block, i);
    }
  }

  lemma {:induction false} AlikeRounds<W(!new)>(o: Core<W>, p: Core<W>, r: Regs<W>, ws: seq<W>, n: nat)
    requires Alike(o, p) && n <= |ws|
    ensures Rounds(o, r, ws, n) == Rounds(p, r, ws, n)
  {
    if n > 0 {
      AlikeRounds(o, p, r, ws, n - 1);
    }
  }

  /** They compress alike. */
  lemma AlikeCompressed<W(!new)>(o: Core<W>, p: Core<W>, state: seq<W>, block: seq<W>, n: nat)
    requires Alike(o, p) && |state| == 8 && |block| == 16
    ensures Compressed(o, state, block, n) == Compressed(p, state, block, n)
  {
    AlikeWords(o, p, block, n);
    AlikeRounds(o, p, View(state, 0), Words(o, block, n), n);
  }
}
