/**
  What the encoder has dealt with when its scan for code point n stands before position q: the
  smaller code points everywhere, and n itself before q.
 */
module PunyScan {
  import opened PunyDigits
  import opened PunyEvents
  import opened PunyCodec

  predicate Done(s: seq<nat>, n: nat, q: nat, j: nat)
    requires j < |s|
  {
    s[j] < n || (s[j] == n && j < q)
  }

  /** The code points dealt with among the first len. */
  function Kept(s: seq<nat>, n: nat, q: nat, len: nat): (r: seq<nat>)
    requires len <= |s|
    ensures |r| <= len
  {
    if len == 0 then []
    else Kept(s, n, q, len - 1) + if Done(s, n, q, len - 1) then [s[len - 1]] else []
  }

  /** Kept depends only on which positions are done. */
  lemma {:induction false} KeptEqual(s: seq<nat>, n: nat, q: nat, n': nat, q': nat, len: nat)
    requires len <= |s| && forall j :: 0 <= j < len ==> (Done(s, n, q, j) <==> Done(s, n', q', j))
    ensures Kept(s, n, q, len) == Kept(s, n', q', len)
  {
    if len > 0 { KeptEqual(s, n, q, n', q', len - 1); }
  }

  lemma {:induction false} KeptBelow(s: seq<nat>, n: nat, q: nat, len: nat)
    requires len <= |s|
    ensures Below(Kept(s, n, q, len), n, |Kept(s, n, q, if len < q then len else q)|)
  {
    if len > 0 {
      KeptBelow(s, n, q, len - 1);
    }
  }

  /** Dealing with an occurrence of n at p inserts it after what is kept before p. */
  lemma {:induction false} KeptInsert(s: seq<nat>, n: nat, p: nat, len: nat)
    requires p < len <= |s| && s[p] == n
    ensures |Kept(s, n, p, p)| <= |Kept(s, n, p, len)|
    ensures Kept(s, n, p + 1, len) == Insert(Kept(s, n, p, len), |Kept(s, n, p, p)|, n)
    decreases len
  {
    if len == p + 1 {
      KeptEqual(s, n, p, n, p + 1, p);
    } else {
      KeptInsert(s, n, p, len - 1);
    }
  }

  lemma {:induction false} KeptGrows(s: seq<nat>, n: nat, q: nat, a: nat, b: nat)
    requires a <= b <= |s|
    ensures |Kept(s, n, q, a)| <= |Kept(s, n, q, b)|
    ensures a < b && s[a] < n ==> |Kept(s, n, q, a)| < |Kept(s, n, q, b)|
    decreases b
  {
    if a < b { KeptGrows(s, n, q, a, b - 1); }
  }

  lemma {:induction false} KeptStart(s: seq<nat>, len: nat)
    requires len <= |s|
    ensures Kept(s, INITIAL_N, 0, len) == Basics(s[..len])
  {
    if len > 0 {
      KeptStart(s, len - 1);
      assert s[..len][..len - 1] == s[..len - 1];
    }
  }

  /** Nothing is missing exactly when every position is done, and then the string itself is kept. */
  lemma {:induction false} KeptAll(s: seq<nat>, n: nat, q: nat, len: nat)
    requires len <= |s|
    ensures |Kept(s, n, q, len)| == len <==> forall j :: 0 <= j < len ==> Done(s, n, q, j)
    ensures |Kept(s, n, q, len)| == len ==> Kept(s, n, q, len) == s[..len]
  {
    if len > 0 {
      KeptAll(s, n, q, len - 1);
    }
  }

  /** Dealing with one more occurrence adds one event, at the end. */
  lemma EventsEmit(s: seq<nat>, n: nat, p: nat)
    requires p < |s| && s[p] == n && n >= INITIAL_N
    ensures Events(Kept(s, n, p + 1, |s|)) == Events(Kept(s, n, p, |s|)) + [Event(n, |Kept(s, n, p, p)|)]
    ensures |Kept(s, n, p + 1, |s|)| == |Kept(s, n, p, |s|)| + 1
  {
    KeptInsert(s, n, p, |s|);
    KeptBelow(s, n, p, |s|);
    EventsSnoc(Kept(s, n, p, |s|), |Kept(s, n, p, p)|, n);
  }

  /** The encoder's variables against the events written: delta is the distance to position at of n. */
  ghost predicate Stands(b: nat, evs: seq<Event>, at: nat, n: nat, delta: int, bias: nat, wire: seq<byte>)
  {
    && Run(b, evs) && Writable(b, evs) && wire == Wire(b, evs)
    && After(b, evs).n <= n && bias == After(b, evs).bias
    && delta + After(b, evs).i == Total(After(b, evs), Event(n, at))
  }

  ghost predicate Scanning(s: seq<nat>, n: nat, q: nat, delta: int, h: nat, bias: nat, wire: seq<byte>)
  {
    && n >= INITIAL_N && q <= |s| && h == |Kept(s, n, q, |s|)| == |Basics(s)| + |Events(Kept(s, n, q, |s|))|
    && Stands(|Basics(s)|, Events(Kept(s, n, q, |s|)), |Kept(s, n, q, q)|, n, delta, bias, wire)
  }

  lemma ScanStart(s: seq<nat>)
    ensures Scanning(s, INITIAL_N, 0, 0, |Basics(s)|, INITIAL_BIAS, [])
  {
    KeptStart(s, |s|);
    assert s[..|s|] == s;
    NoEvents(Basics(s));
    StandsStart(|Basics(s)|);
  }

  lemma StandsStart(b: nat)
    ensures Stands(b, [], 0, INITIAL_N, 0, INITIAL_BIAS, [])
  {
  }

  /** The distance grows with the position. */
  lemma StandsNext(b: nat, evs: seq<Event>, at: nat, n: nat, delta: int, bias: nat, wire: seq<byte>, at': nat, delta': int)
    requires Stands(b, evs, at, n, delta, bias, wire) && at' - at == delta' - delta
    ensures Stands(b, evs, at', n, delta', bias, wire)
  {
  }

  lemma NoEvents(s: seq<nat>)
    requires forall j :: 0 <= j < |s| ==> IsBasic(s[j])
    ensures Events(s) == []
  {
  }

  lemma ScanPass(s: seq<nat>, n: nat, q: nat, delta: int, h: nat, bias: nat, wire: seq<byte>)
    requires Scanning(s, n, q, delta, h, bias, wire) && q < |s| && s[q] != n
    ensures Scanning(s, n, q + 1, if s[q] < n then delta + 1 else delta, h, bias, wire)
  {
    KeptPassed(s, n, q);
    StandsNext(|Basics(s)|, Events(Kept(s, n, q, |s|)), |Kept(s, n, q, q)|, n, delta, bias, wire,
      |Kept(s, n, q + 1, q + 1)|, if s[q] < n then delta + 1 else delta);
  }

  lemma KeptPassed(s: seq<nat>, n: nat, q: nat)
    requires q < |s| && s[q] != n
    ensures Kept(s, n, q + 1, |s|) == Kept(s, n, q, |s|)
    ensures |Kept(s, n, q + 1, q + 1)| == |Kept(s, n, q, q)| + if s[q] < n then 1 else 0
  {
    KeptEqual(s, n, q, n, q + 1, |s|);
    KeptEqual(s, n, q, n, q + 1, q);
  }

  lemma KeptPast(s: seq<nat>, n: nat, q: nat)
    requires q < |s| && s[q] == n
    ensures |Kept(s, n, q + 1, q + 1)| == |Kept(s, n, q, q)| + 1
  {
    KeptEqual(s, n, q, n, q + 1, q);
  }

  /** Writing the number at an occurrence of n brings the decoder's state to it. */
  lemma EmitStands(b: nat, evs: seq<Event>, at: nat, n: nat, delta: nat, bias: nat, wire: seq<byte>, h: nat, bias': nat, evs': seq<Event>)
    requires Stands(b, evs, at, n, delta, bias, wire) && at <= h == b + |evs| && delta <= MAXINT
    requires bias' == Adapt(delta, h + 1, h == b) && evs' == evs + [Event(n, at)]
    ensures |evs'| == |evs| + 1 && Stands(b, evs', at + 1, n, 0, bias', wire + VarDigits(delta, BASE, bias))
  {
    RunState(b, evs);
    EmitFollows(After(b, evs), n, at, delta);
    RunSnocAt(b, evs, Event(n, at));
    StepTotal(After(b, evs), Event(n, at));
  }

  lemma StepTotal(st: State, ev: Event)
    ensures Step(st, ev).n == ev.cp && Total(Step(st, ev), Event(ev.cp, ev.at + 1)) == ev.at + 1 == Step(st, ev).i
    ensures Step(st, ev).bias == Adapt(Delta(st, ev), st.h + 1, st.i == 0)
  {
  }

  /** At an occurrence of n, delta is the number to write. */
  lemma ScanEmit(s: seq<nat>, n: nat, q: nat, delta: nat, h: nat, bias: nat, wire: seq<byte>, bias': nat)
    requires Scanning(s, n, q, delta, h, bias, wire) && q < |s| && s[q] == n && delta <= MAXINT
    requires bias' == Adapt(delta, h + 1, h == |Basics(s)|)
    ensures Scanning(s, n, q + 1, 0, h + 1, bias', wire + VarDigits(delta, BASE, bias))
  {
    EmitAtKept(s, n, q, h, Events(Kept(s, n, q, |s|)), |Kept(s, n, q, q)|);
    EmitStands(|Basics(s)|, Events(Kept(s, n, q, |s|)), |Kept(s, n, q, q)|, n, delta, bias, wire, h, bias', Events(Kept(s, n, q + 1, |s|)));
  }

  lemma EmitAtKept(s: seq<nat>, n: nat, q: nat, h: nat, evs: seq<Event>, at: nat)
    requires q < |s| && s[q] == n >= INITIAL_N && h == |Kept(s, n, q, |s|)|
    requires evs == Events(Kept(s, n, q, |s|)) && at == |Kept(s, n, q, q)|
    ensures at <= h && Events(Kept(s, n, q + 1, |s|)) == evs + [Event(n, at)]
    ensures |Kept(s, n, q + 1, |s|)| == h + 1 && |Kept(s, n, q + 1, q + 1)| == at + 1
  {
    KeptPast(s, n, q);
    EventsEmit(s, n, q);
    KeptGrows(s, n, q, q, |s|);
  }

  lemma EmitFollows(st: State, n: nat, at: nat, delta: nat)
    requires at <= st.h && st.n <= n && delta + st.i == Total(st, Event(n, at))
    ensures Follows(st, Event(n, at)) && Delta(st, Event(n, at)) == delta
  {
    if st.n == n {
      assert (st.h + 1) * (n - st.n) == 0;
    }
  }

  /** The distance to a later code point: one turn through the string for each code point passed. */
  lemma TotalMove(st: State, n: nat, m: nat, at: nat)
    ensures Total(st, Event(m, at)) == Total(st, Event(n, at)) + (m - n) * (st.h + 1)
    ensures Total(st, Event(n + 1, 0)) == Total(st, Event(n, st.h)) + 1
  {
    JumpArith(st.h + 1, n, m, st.n);
    JumpArith(st.h + 1, n, n + 1, st.n);
  }

  lemma JumpArith(w: int, n: int, m: int, a: int)
    ensures w * (m - a) == w * (n - a) + (m - n) * w
  {
  }

  lemma StandsJump(b: nat, evs: seq<Event>, at: nat, n: nat, m: nat, delta: int, bias: nat, wire: seq<byte>)
    requires Stands(b, evs, at, n, delta, bias, wire) && n <= m
    ensures Stands(b, evs, at, m, delta + (m - n) * (b + |evs| + 1), bias, wire)
  {
    TotalMove(After(b, evs), n, m, at);
  }

  lemma StandsWrap(b: nat, evs: seq<Event>, n: nat, delta: int, bias: nat, wire: seq<byte>)
    requires Stands(b, evs, b + |evs|, n, delta, bias, wire)
    ensures Stands(b, evs, 0, n + 1, delta + 1, bias, wire)
  {
    TotalMove(After(b, evs), n, n, 0);
  }

  /** No code point lies between n and m: the scan may start at m. */
  lemma ScanJump(s: seq<nat>, n: nat, m: nat, delta: int, h: nat, bias: nat, wire: seq<byte>)
    requires Scanning(s, n, 0, delta, h, bias, wire) && n <= m && forall j :: 0 <= j < |s| ==> s[j] < n || s[j] >= m
    ensures Scanning(s, m, 0, delta + (m - n) * (h + 1), h, bias, wire)
  {
    KeptEqual(s, n, 0, m, 0, |s|);
    StandsJump(|Basics(s)|, Events(Kept(s, n, 0, |s|)), 0, n, m, delta, bias, wire);
  }

  lemma KeptWrap(s: seq<nat>, n: nat)
    ensures Kept(s, n + 1, 0, |s|) == Kept(s, n, |s|, |s|)
  {
    KeptEqual(s, n, |s|, n + 1, 0, |s|);
  }

  lemma ScanWrap(s: seq<nat>, n: nat, delta: int, h: nat, bias: nat, wire: seq<byte>)
    requires Scanning(s, n, |s|, delta, h, bias, wire)
    ensures Scanning(s, n + 1, 0, delta + 1, h, bias, wire)
  {
    KeptWrap(s, n);
    StandsWrap(|Basics(s)|, Events(Kept(s, n, |s|, |s|)), n, delta, bias, wire);
  }

  lemma ScanDone(s: seq<nat>, n: nat, q: nat, delta: int, h: nat, bias: nat, wire: seq<byte>)
    requires Scanning(s, n, q, delta, h, bias, wire) && h == |s|
    ensures wire == Wire(|Basics(s)|, Events(s)) && Writable(|Basics(s)|, Events(s))
  {
    KeptAll(s, n, q, |s|);
    assert s[..|s|] == s;
  }

  // ---- what is still due ----

  /** The next code point the encoder will write: the smallest one not done, at its first place. */
  lemma NextDue(s: seq<nat>, n: nat, q: nat) returns (p: nat)
    requires exists j :: 0 <= j < |s| && !Done(s, n, q, j)
    ensures p < |s| && s[p] >= n
    ensures Kept(s, n, q, |s|) == Kept(s, s[p], p, |s|)
  {
    p :| p < |s| && !Done(s, n, q, p);
    var i := 0;
    while i < |s|
      invariant 0 <= i <= |s| && p < |s| && !Done(s, n, q, p)
      invariant forall j :: 0 <= j < i && !Done(s, n, q, j) ==> s[j] > s[p] || (s[j] == s[p] && j >= p)
    {
      if !Done(s, n, q, i) && (s[i] < s[p] || (s[i] == s[p] && i < p)) {
        p := i;
      }
      i := i + 1;
    }
    KeptEqual(s, n, q, s[p], p, |s|);
  }

  /** What is written so far is always the beginning of what will be written. */
  lemma {:induction false} EventsPrefix(s: seq<nat>, n: nat, q: nat)
    requires n >= INITIAL_N
    ensures Events(Kept(s, n, q, |s|)) <= Events(s)
    decreases |s| - |Kept(s, n, q, |s|)|
  {
    KeptAll(s, n, q, |s|);
    assert s[..|s|] == s;
    if |Kept(s, n, q, |s|)| < |s| {
      var p := NextDue(s, n, q);
      EventsEmit(s, s[p], p);
      EventsPrefix(s, s[p], p + 1);
    }
  }

  lemma {:induction false} WritablePrefix(b: nat, evs: seq<Event>, pre: seq<Event>)
    requires Writable(b, evs) && pre <= evs
    ensures Writable(b, pre)
  {
    if pre == evs {
    } else {
      WritablePrefix(b, evs[..|evs| - 1], pre);
    }
  }

  lemma FirstFrom(s: seq<nat>, n: nat, q: nat) returns (p: nat)
    requires exists j :: q <= j < |s| && s[j] == n
    ensures q <= p < |s| && s[p] == n && forall j :: q <= j < p ==> s[j] != n
  {
    p := q;
    while s[p] != n
      invariant q <= p < |s| && forall j :: q <= j < p ==> s[j] != n
      decreases |s| - p
    {
      p := p + 1;
    }
  }

  /** For a writable string, the number of every code point fits. */
  lemma DueDelta(s: seq<nat>, n: nat, p: nat)
    requires n >= INITIAL_N && p < |s| && s[p] == n && Writable(|Basics(s)|, Events(s))
    ensures Delta(After(|Basics(s)|, Events(Kept(s, n, p, |s|))), Event(n, |Kept(s, n, p, p)|)) <= MAXINT
  {
    var evs, ev := Events(Kept(s, n, p, |s|)), Event(n, |Kept(s, n, p, p)|);
    EventsEmit(s, n, p);
    EventsPrefix(s, n, p + 1);
    WritablePrefix(|Basics(s)|, Events(s), evs + [ev]);
    SnocParts(evs, ev);
  }

  /** For a writable string, delta cannot overflow before the next occurrence of n. */
  lemma DeltaFits(s: seq<nat>, n: nat, q: nat, delta: nat, h: nat, bias: nat, wire: seq<byte>, w: nat)
    requires Scanning(s, n, q, delta, h, bias, wire) && q <= w < |s| && s[w] == n && Writable(|Basics(s)|, Events(s))
    ensures delta <= MAXINT && (s[q] < n ==> delta < MAXINT)
  {
    DistanceFits(s, n, q, After(|Basics(s)|, Events(Kept(s, n, q, |s|))), delta, w);
  }

  lemma DistanceFits(s: seq<nat>, n: nat, q: nat, st: State, delta: nat, w: nat)
    requires n >= INITIAL_N && Writable(|Basics(s)|, Events(s)) && q <= w < |s| && s[w] == n
    requires st == After(|Basics(s)|, Events(Kept(s, n, q, |s|)))
    requires delta + st.i == Total(st, Event(n, |Kept(s, n, q, q)|))
    ensures delta <= MAXINT && (s[q] < n ==> delta < MAXINT)
  {
    var p := FirstFrom(s, n, q);
    DueDelta(s, n, p);
    KeptUntil(s, n, q, p);
    DeltaFrom(st, n, |Kept(s, n, q, q)|, |Kept(s, n, p, p)|);
  }

  lemma DeltaFrom(st: State, n: nat, at: nat, at': nat)
    requires at <= at' && st.i <= Total(st, Event(n, at))
    ensures Delta(st, Event(n, at')) == Total(st, Event(n, at)) - st.i + (at' - at)
  {
  }

  lemma KeptUntil(s: seq<nat>, n: nat, q: nat, p: nat)
    requires q <= p < |s| && s[p] == n && forall j :: q <= j < p ==> s[j] != n
    ensures Kept(s, n, q, |s|) == Kept(s, n, p, |s|)
    ensures |Kept(s, n, q, q)| <= |Kept(s, n, p, p)|
    ensures s[q] < n ==> |Kept(s, n, q, q)| < |Kept(s, n, p, p)|
  {
    KeptEqual(s, n, q, n, p, |s|);
    KeptEqual(s, n, q, n, p, p);
    KeptGrows(s, n, q, q, p);
  }

  /** While something is missing, some code point from n up is still to be written. */
  lemma StillDue(s: seq<nat>, n: nat, delta: int, h: nat, bias: nat, wire: seq<byte>)
    requires Scanning(s, n, 0, delta, h, bias, wire) && h < |s| && forall j :: 0 <= j < |s| ==> s[j] <= MAXINT
    ensures n <= MAXINT && exists j :: 0 <= j < |s| && s[j] >= n
  {
    KeptAll(s, n, 0, |s|);
  }
}
