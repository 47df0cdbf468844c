/** In what order things happen when a pool is destroyed, by their places in the log. */
module PoolOrders {
  import opened Pools
  import opened PoolTrees

  lemma {:induction false} RanOf(p: PoolNode, cs: seq<Cleanup>)
    ensures forall e :: e in RanAll(p, cs) ==> e.Ran? && e.pool == p && e.what in cs && e.what.fn != 0
  {
    if cs != [] {
      RanOf(p, cs[..|cs| - 1]);
    }
  }

  lemma {:induction false} EventsOf(f: Forest)
    ensures forall e :: e in LogAll(f) ==> e.pool in PoolTrees.Elems(f)
    decreases f
  {
    if f.Pools? {
      EventsOf(f.kids);
      EventsOf(f.next);
      RanOf(f.root, f.pre);
      RanOf(f.root, f.post);
    }
  }

  /** The cleanups run in the order of the list. */
  lemma {:induction false} RanInOrder(p: PoolNode, cs: seq<Cleanup>)
    requires forall c :: c in cs ==> c.fn != 0
    ensures |RanAll(p, cs)| == |cs| && forall i :: 0 <= i < |cs| ==> RanAll(p, cs)[i] == Ran(p, cs[i])
  {
    if cs != [] {
      RanInOrder(p, cs[..|cs| - 1]);
    }
  }

  /** One without a callback leaves no trace. */
  lemma {:induction false} RanSkips(p: PoolNode, a: seq<Cleanup>, c: Cleanup, b: seq<Cleanup>)
    requires c.fn == 0
    ensures RanAll(p, a + [c] + b) == RanAll(p, a + b)
  {
    if b == [] {
      assert a + [c] + b == a + [c] && a + b == a;
      RanSnoc(p, a, c);
    } else {
      var r, d := b[..|b| - 1], b[|b| - 1];
      RanSkips(p, a, c, r);
      RanSnoc(p, a + [c] + r, d);
      RanSnoc(p, a + r, d);
      assert a + [c] + b == (a + [c] + r) + [d] && a + b == (a + r) + [d];
    }
  }

  /** No pool stands in two places. */
  predicate Distinct(f: Forest)
  {
    f.Pools? ==>
      && f.root !in PoolTrees.Elems(f.kids) && f.root !in PoolTrees.Elems(f.next)
      && PoolTrees.Elems(f.kids) !! PoolTrees.Elems(f.next) && Distinct(f.kids) && Distinct(f.next)
  }

  lemma {:induction false} ShapeDistinct(mem: Mem, f: Forest, parent: PoolNode, prev: PoolNode?, head: PoolNode?)
    requires Shape(mem, f, parent, prev, head)
    ensures Distinct(f)
    decreases f
  {
    if f.Pools? {
      ShapeDistinct(mem, f.kids, f.root, null, mem[f.root].child);
      ShapeDistinct(mem, f.next, parent, f.root, mem[f.root].sibling);
    }
  }

  /** The pool p with its lists and what hangs below it. */
  function Part(f: Forest, p: PoolNode): (s: Forest)
    requires p in PoolTrees.Elems(f)
    ensures s.Pools? && s.root == p && PoolTrees.Elems(s.kids) <= PoolTrees.Elems(f)
  {
    if f.root == p then f else if p in PoolTrees.Elems(f.kids) then Part(f.kids, p) else Part(f.next, p)
  }

  /** Of a pool's own events and those of the pools below it: these lie behind its pre-cleanups and before its cleanups, and
      all of them lie before its memory goes back. */
  ghost predicate Ordered(log: seq<Event>, s: Forest)
    requires s.Pools?
  {
    && (forall i, j :: 0 <= i < |log| && 0 <= j < |log| && log[i].pool == s.root && log[j].pool in PoolTrees.Elems(s.kids) ==>
          && (log[i].Returned? ==> j < i)
          && (log[i].Ran? && log[i].what !in s.post ==> i < j) && (log[i].Ran? && log[i].what !in s.pre ==> j < i))
    && (forall i, j :: 0 <= i < |log| && 0 <= j < |log| && log[i].pool == s.root && log[j] == Returned(s.root) && log[i].Ran? ==> i < j)
  }

  lemma OwnOrder(s: Forest)
    requires s.Pools? && Distinct(s)
    ensures Ordered(LogOne(s.root, s.pre, s.post, s.kids), s)
  {
    var a, b, c := RanAll(s.root, s.pre), LogAll(s.kids), RanAll(s.root, s.post);
    EventsOf(s.kids);
    RanOf(s.root, s.pre);
    RanOf(s.root, s.post);
    var log := a + b + c + [Returned(s.root)];
    forall i | 0 <= i < |log|
      ensures i < |a| ==> log[i] in a
      ensures |a| <= i < |a| + |b| ==> log[i] in b
      ensures |a| + |b| <= i < |a| + |b| + |c| ==> log[i] in c
      ensures i >= |a| + |b| + |c| ==> log[i] == Returned(s.root)
    {
    }
  }

  /** Events of other pools before and behind change nothing. */
  lemma Widened(a: seq<Event>, b: seq<Event>, c: seq<Event>, s: Forest)
    requires s.Pools? && Ordered(b, s)
    requires forall e :: e in a || e in c ==> e.pool != s.root && e.pool !in PoolTrees.Elems(s.kids)
    ensures Ordered(a + b + c, s)
  {
    var log := a + b + c;
    forall i | 0 <= i < |log|
      ensures i < |a| ==> log[i] in a
      ensures |a| <= i < |a| + |b| ==> log[i] == b[i - |a|]
      ensures i >= |a| + |b| ==> log[i] in c
    {
      InThree(a, b, c, i);
    }
  }

  lemma InThree(a: seq<Event>, b: seq<Event>, c: seq<Event>, i: nat)
    requires i < |a + b + c|
    ensures i < |a| ==> (a + b + c)[i] in a
    ensures |a| <= i < |a| + |b| ==> (a + b + c)[i] == b[i - |a|]
    ensures i >= |a| + |b| ==> (a + b + c)[i] in c
  {
  }

  lemma WithLast(log: seq<Event>, a: seq<Event>, b: seq<Event>, c: seq<Event>, d: Event, s: Forest)
    requires s.Pools? && Ordered(b, s) && log == a + b + c + [d]
    requires forall e :: e in a || e in c || e == d ==> e.pool != s.root && e.pool !in PoolTrees.Elems(s.kids)
    ensures Ordered(log, s)
  {
    var rest := c + [d];
    assert forall e :: e in rest ==> e in c || e == d;
    Widened(a, b, rest, s);
    assert log == a + b + rest;
  }

  lemma OwnEvents(f: Forest)
    requires f.Pools?
    ensures forall e :: e in LogOne(f.root, f.pre, f.post, f.kids) ==> e.pool == f.root || e.pool in PoolTrees.Elems(f.kids)
    ensures forall e :: e in RanAll(f.root, f.pre) || e in RanAll(f.root, f.post) ==> e.pool == f.root
  {
    EventsOf(f.kids);
    RanOf(f.root, f.pre);
    RanOf(f.root, f.post);
  }

  lemma AtRoot(f: Forest)
    requires f.Pools? && Distinct(f)
    ensures Ordered(LogAll(f), f)
  {
    var own, rest := LogOne(f.root, f.pre, f.post, f.kids), LogAll(f.next);
    OwnOrder(f);
    EventsOf(f.next);
    Widened([], own, rest, f);
    assert [] + own + rest == LogAll(f);
  }

  lemma BelowOwn(f: Forest, s: Forest)
    requires f.Pools? && Distinct(f) && s.Pools? && Ordered(LogAll(f.kids), s)
    requires s.root in PoolTrees.Elems(f.kids) && PoolTrees.Elems(s.kids) <= PoolTrees.Elems(f.kids)
    ensures Ordered(LogOne(f.root, f.pre, f.post, f.kids), s)
  {
    var a, c := RanAll(f.root, f.pre), RanAll(f.root, f.post);
    OwnEvents(f);
    WithLast(LogOne(f.root, f.pre, f.post, f.kids), a, LogAll(f.kids), c, Returned(f.root), s);
  }

  lemma AmongKids(f: Forest, s: Forest)
    requires f.Pools? && Distinct(f) && s.Pools? && Ordered(LogAll(f.kids), s)
    requires s.root in PoolTrees.Elems(f.kids) && PoolTrees.Elems(s.kids) <= PoolTrees.Elems(f.kids)
    ensures Ordered(LogAll(f), s)
  {
    var own, rest := LogOne(f.root, f.pre, f.post, f.kids), LogAll(f.next);
    BelowOwn(f, s);
    EventsOf(f.next);
    Widened([], own, rest, s);
    assert [] + own + rest == LogAll(f);
  }

  lemma AmongNext(f: Forest, s: Forest)
    requires f.Pools? && Distinct(f) && s.Pools? && Ordered(LogAll(f.next), s)
    requires s.root in PoolTrees.Elems(f.next) && PoolTrees.Elems(s.kids) <= PoolTrees.Elems(f.next)
    ensures Ordered(LogAll(f), s)
  {
    var own, rest := LogOne(f.root, f.pre, f.post, f.kids), LogAll(f.next);
    OwnEvents(f);
    Widened(own, rest, [], s);
    assert own + rest + [] == LogAll(f);
  }

  /** When pools are destroyed this holds of every one of them, at any depth. */
  lemma {:induction false} DestroyedInOrder(f: Forest, p: PoolNode)
    requires Distinct(f) && p in PoolTrees.Elems(f)
    ensures Ordered(LogAll(f), Part(f, p))
    decreases f
  {
    if p == f.root {
      AtRoot(f);
    } else if p in PoolTrees.Elems(f.kids) {
      DestroyedInOrder(f.kids, p);
      AmongKids(f, Part(f.kids, p));
    } else {
      DestroyedInOrder(f.next, p);
      AmongNext(f, Part(f.next, p));
    }
  }

  lemma InTwo(a: seq<Event>, b: seq<Event>, i: nat)
    requires i < |a + b|
    ensures i < |a| ==> (a + b)[i] in a
    ensures i >= |a| ==> (a + b)[i] in b
  {
    assert i >= |a| ==> (a + b)[i] == b[i - |a|];
  }

  /** Siblings go one after the other, each with all that is below it. */
  lemma SiblingOrder(f: Forest, i: nat, j: nat)
    requires f.Pools? && Distinct(f)
    requires var log := LogAll(f);
      i < |log| && j < |log| && log[i].pool !in PoolTrees.Elems(f.next) && log[j].pool in PoolTrees.Elems(f.next)
    ensures i < j
  {
    var a, b := LogOne(f.root, f.pre, f.post, f.kids), LogAll(f.next);
    EventsOf(f.next);
    EventsOf(f.kids);
    RanOf(f.root, f.pre);
    RanOf(f.root, f.post);
    InTwo(a, b, i);
    InTwo(a, b, j);
  }
}
