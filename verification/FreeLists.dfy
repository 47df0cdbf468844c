/** The allocator's cache: buckets of free nodes by index, the sink at 0, and the cache budget. */
module FreeLists {
  import opened Common
  import opened MemNodes

  /** The cache as the source keeps it: buckets (a list each), the highest bucket in use, the budget left. */
  datatype Store = Store(buf: seq<seq<MemNode>>, last: nat, current: nat)

  /** Where a node of this index is kept: large ones go to the sink. */
  function Home(index: nat): nat { if index < MAX_INDEX then index else 0 }

  ghost predicate Sorted(buf: seq<seq<MemNode>>)
  {
    |buf| == MAX_INDEX && forall i, n {:trigger n in buf[i]} :: 0 <= i < MAX_INDEX && n in buf[i] ==> n.index >= 1 && Home(n.index) == i
  }

  ghost predicate LastOk(buf: seq<seq<MemNode>>, last: nat)
  {
    && last < |buf| && (last > 0 ==> buf[last] != [])
    && forall i {:trigger buf[i]} :: last < i < |buf| ==> buf[i] == []
  }

  ghost predicate Good(s: Store) { Sorted(s.buf) && LastOk(s.buf, s.last) }

  function Units(ns: seq<MemNode>): nat
  {
    if ns == [] then 0 else ns[0].index + 1 + Units(ns[1..])
  }

  function UnitsFrom(buf: seq<seq<MemNode>>, i: nat): nat
    requires i <= |buf|
    decreases |buf| - i
  {
    if i == |buf| then 0 else Units(buf[i]) + UnitsFrom(buf, i + 1)
  }

  lemma {:induction false} UnitsUpdate(buf: seq<seq<MemNode>>, i: nat, b: nat, ns: seq<MemNode>)
    requires i <= |buf| && b < |buf|
    ensures UnitsFrom(buf[b := ns], i) == UnitsFrom(buf, i) + if b < i then 0 else Units(ns) - Units(buf[b])
    decreases |buf| - i
  {
    if i < |buf| { UnitsUpdate(buf, i + 1, b, ns); }
  }

  lemma {:induction false} UnitsDrop(ns: seq<MemNode>, i: nat)
    requires i < |ns|
    ensures Units(Without(ns, i)) == Units(ns) - (ns[i].index + 1)
  {
    if i == 0 {
      assert Without(ns, 0) == ns[1..];
    } else {
      assert Without(ns, i)[1..] == Without(ns[1..], i - 1);
      UnitsDrop(ns[1..], i - 1);
    }
  }

  /** With a limit set, what is cached and what is left of the budget add up to the limit. */
  ghost predicate Budget(s: Store, max: nat)
  {
    |s.buf| > 0 && if max == 0 then s.current == 0 else s.current + UnitsFrom(s.buf, 0) == max
  }

  // ---- freeing ----

  function Keeps(s: Store, max: nat, n: MemNode): bool { max == 0 || n.index + 1 <= s.current }

  /** One node handed back: cached at the front of its list, or left to be released. */
  function FreeOne(s: Store, max: nat, n: MemNode): Store
    requires |s.buf| == MAX_INDEX
  {
    if !Keeps(s, max, n) then s
    else
      var h := Home(n.index);
      Store(s.buf[h := [n] + s.buf[h]],
            if s.buf[h] == [] && h > s.last then h else s.last,
            if s.current >= n.index + 1 then s.current - (n.index + 1) else 0)
  }

  lemma FreeOneGood(s: Store, max: nat, n: MemNode)
    requires Good(s) && n.index >= 1
    ensures Good(FreeOne(s, max, n)) && (Budget(s, max) ==> Budget(FreeOne(s, max, n), max))
  {
    var h := Home(n.index);
    UnitsUpdate(s.buf, 0, h, [n] + s.buf[h]);
    assert ([n] + s.buf[h])[1..] == s.buf[h];
  }

  function FreeAll(s: Store, max: nat, ns: seq<MemNode>): (r: Store)
    requires |s.buf| == MAX_INDEX
    ensures |r.buf| == MAX_INDEX
  {
    if ns == [] then s else FreeOne(FreeAll(s, max, ns[..|ns| - 1]), max, ns[|ns| - 1])
  }

  /** Those of ns that are not kept, last one first, as the release list collects them. */
  function Released(s: Store, max: nat, ns: seq<MemNode>): seq<MemNode>
    requires |s.buf| == MAX_INDEX
  {
    if ns == [] then []
    else
      var r, n := Released(s, max, ns[..|ns| - 1]), ns[|ns| - 1];
      if Keeps(FreeAll(s, max, ns[..|ns| - 1]), max, n) then r else [n] + r
  }

  lemma {:induction false} FreeAllGood(s: Store, max: nat, ns: seq<MemNode>)
    requires Good(s) && forall n :: n in ns ==> n.index >= 1
    ensures Good(FreeAll(s, max, ns)) && (Budget(s, max) ==> Budget(FreeAll(s, max, ns), max))
  {
    if ns != [] {
      FreeAllGood(s, max, ns[..|ns| - 1]);
      FreeOneGood(FreeAll(s, max, ns[..|ns| - 1]), max, ns[|ns| - 1]);
    }
  }

  /** Lists freed one after the other are one list freed. */
  lemma {:induction false} FreeAllJoin(s: Store, max: nat, a: seq<MemNode>, b: seq<MemNode>)
    requires |s.buf| == MAX_INDEX
    ensures FreeAll(s, max, a + b) == FreeAll(FreeAll(s, max, a), max, b)
  {
    if b == [] {
      assert a + b == a;
    } else {
      FreeAllJoin(s, max, a, b[..|b| - 1]);
      assert (a + b)[..|a + b| - 1] == a + b[..|b| - 1];
    }
  }

  /** A node that is kept stands in front of its list, the one of its index or the sink. */
  lemma InFront(s: Store, max: nat, n: MemNode)
    requires |s.buf| == MAX_INDEX && (max == 0 || n.index < s.current)
    ensures var i, t := (if n.index < MAX_INDEX then n.index else 0), FreeOne(s, max, n).buf;
      t[i] == [n] + s.buf[i] && forall j :: 0 <= j < MAX_INDEX && j != i ==> t[j] == s.buf[j]
  {
  }

  /** Without a limit nothing is released. */
  lemma {:induction false} NoLimit(s: Store, ns: seq<MemNode>)
    requires |s.buf| == MAX_INDEX
    ensures Released(s, 0, ns) == []
  {
    if ns != [] { NoLimit(s, ns[..|ns| - 1]); }
  }

  /** With a limit a node is released if and only if the cache so far has no room for it. */
  lemma {:induction false} ReleasedExact(s: Store, max: nat, ns: seq<MemNode>, k: nat)
    requires Good(s) && Budget(s, max) && max > 0 && NoDup(ns) && k < |ns| && forall n :: n in ns ==> n.index >= 1
    ensures ns[k] in Released(s, max, ns) <==> UnitsFrom(FreeAll(s, max, ns[..k]).buf, 0) + (ns[k].index + 1) > max
  {
    var r, n := ns[..|ns| - 1], ns[|ns| - 1];
    if k < |ns| - 1 {
      ReleasedExact(s, max, r, k);
      assert r[..k] == ns[..k] && n != ns[k];
    } else {
      FreeAllGood(s, max, r);
      ReleasedAmong(s, max, r);
    }
  }

  lemma {:induction false} ReleasedAmong(s: Store, max: nat, ns: seq<MemNode>)
    requires |s.buf| == MAX_INDEX
    ensures forall n :: n in Released(s, max, ns) ==> n in ns
  {
    if ns != [] { ReleasedAmong(s, max, ns[..|ns| - 1]); }
  }

  /** The nodes of ns that belong in list i and were not released, last one first. */
  function Stacked(ns: seq<MemNode>, out: seq<MemNode>, i: nat): seq<MemNode>
  {
    if ns == [] then []
    else
      var n, before := ns[|ns| - 1], Stacked(ns[..|ns| - 1], out, i);
      if n !in out && i == (if n.index < MAX_INDEX then n.index else 0) then [n] + before else before
  }

  lemma {:induction false} StackedSame(ns: seq<MemNode>, out: seq<MemNode>, out': seq<MemNode>, i: nat)
    requires forall n :: n in ns ==> (n in out <==> n in out')
    ensures Stacked(ns, out, i) == Stacked(ns, out', i)
  {
    if ns != [] { StackedSame(ns[..|ns| - 1], out, out', i); }
  }

  /** Every list then holds the kept nodes that belong there, last one first, in front of what it held. */
  lemma {:induction false} FreeAllStacks(s: Store, max: nat, ns: seq<MemNode>, i: nat)
    requires |s.buf| == MAX_INDEX && NoDup(ns) && i < MAX_INDEX
    ensures FreeAll(s, max, ns).buf[i] == Stacked(ns, Released(s, max, ns), i) + s.buf[i]
  {
    if ns != [] {
      var r, n := ns[..|ns| - 1], ns[|ns| - 1];
      FreeAllStacks(s, max, r, i);
      ReleasedAmong(s, max, r);
      assert forall x :: x in r ==> x != n;
      StackedSame(r, Released(s, max, r), Released(s, max, ns), i);
    }
  }

  // ---- taking ----

  ghost predicate Cached(s: Store, n: MemNode) { exists i :: 0 <= i < |s.buf| && n in s.buf[i] }

  /** The bucket search: the lowest bucket from i up that has a node. */
  function FindFrom(buf: seq<seq<MemNode>>, i: nat, last: nat): (r: nat)
    requires i <= last < |buf|
    ensures i <= r <= last && (buf[r] != [] || r == last) && forall j {:trigger buf[j]} :: i <= j < r ==> buf[j] == []
    decreases last - i
  {
    if buf[i] == [] && i < last then FindFrom(buf, i + 1, last) else i
  }

  /** The highest bucket below i with a node, or 0. */
  function TopBelow(buf: seq<seq<MemNode>>, i: nat): (r: nat)
    requires 0 < i < |buf|
    ensures r < i && (r > 0 ==> buf[r] != []) && forall j {:trigger buf[j]} :: r < j < i ==> buf[j] == []
  {
    if i == 1 || buf[i - 1] != [] then i - 1 else TopBelow(buf, i - 1)
  }

  function Credit(s: Store, max: nat, n: MemNode): nat
  {
    if s.current + n.index + 1 > max then max else s.current + n.index + 1
  }

  /** The front node of bucket i, taken out. */
  function TakeFront(s: Store, max: nat, i: nat): Store
    requires 0 < i < |s.buf| && s.buf[i] != []
  {
    var buf := s.buf[i := s.buf[i][1..]];
    Store(buf, if buf[i] == [] && i >= s.last then TopBelow(buf, i) else s.last, Credit(s, max, s.buf[i][0]))
  }

  /** The k-th node of the sink, taken out. */
  function TakeSink(s: Store, max: nat, k: nat): Store
    requires |s.buf| > 0 && k < |s.buf[0]|
  {
    Store(s.buf[0 := Without(s.buf[0], k)], s.last, Credit(s, max, s.buf[0][k]))
  }

  lemma TakeFrontGood(s: Store, max: nat, i: nat)
    requires Good(s) && 0 < i < |s.buf| && s.buf[i] != []
    ensures Good(TakeFront(s, max, i)) && (Budget(s, max) ==> Budget(TakeFront(s, max, i), max))
  {
    UnitsUpdate(s.buf, 0, i, s.buf[i][1..]);
    assert forall n :: n in s.buf[i][1..] ==> n in s.buf[i];
  }

  lemma TakeSinkGood(s: Store, max: nat, k: nat)
    requires Good(s) && k < |s.buf[0]|
    ensures Good(TakeSink(s, max, k)) && (Budget(s, max) ==> Budget(TakeSink(s, max, k), max))
  {
    UnitsUpdate(s.buf, 0, 0, Without(s.buf[0], k));
    UnitsDrop(s.buf[0], k);
    assert forall n :: n in Without(s.buf[0], k) ==> n in s.buf[0];
  }

  /** The node is the first of the lowest bucket from index up that has one, and the list goes on behind it. */
  ghost predicate TookFront(s: Store, s': Store, index: nat, i: nat, node: MemNode)
  {
    && 1 <= index <= i < |s.buf| && s.buf[i] != [] && (forall j {:trigger s.buf[j]} :: index <= j < i ==> s.buf[j] == [])
    && node == s.buf[i][0] && s'.buf == s.buf[i := s.buf[i][1..]]
  }

  /** No bucket from index up has a node, and this is the first of the sink that is large enough. */
  ghost predicate TookSink(s: Store, s': Store, index: nat, k: nat, node: MemNode)
  {
    && |s.buf| > 0 && k < |s.buf[0]| && node == s.buf[0][k] && node.index >= index
    && (forall j {:trigger s.buf[j]} :: 1 <= index <= j < |s.buf| ==> s.buf[j] == [])
    && (forall j :: 0 <= j < k ==> s.buf[0][j].index < index) && s'.buf == s.buf[0 := s.buf[0][..k] + s.buf[0][k + 1..]]
  }

  ghost predicate TookBest(s: Store, s': Store, index: nat, node: MemNode)
  {
    (exists i :: TookFront(s, s', index, i, node)) || (exists k :: TookSink(s, s', index, k, node))
  }

  /** A request above last finds nothing in the buckets; one up to last always does. */
  lemma BucketsCover(s: Store, index: nat)
    requires Good(s) && index >= 1
    ensures index <= s.last ==> s.buf[FindFrom(s.buf, index, s.last)] != []
    ensures index > s.last ==> forall i, n {:trigger n in s.buf[i]} :: 0 < i < |s.buf| && n in s.buf[i] ==> n.index < index
  {
  }

  // ---- the limit ----

  /** set_max in 32-bit arithmetic. */
  function Limit(current: nat, max: nat, newMax: nat): nat
    requires current < WORD32 && max < WORD32 && newMax < WORD32
  {
    var c := (current + newMax - max) % WORD32;
    if c > newMax then newMax else c
  }

  /**
    Setting a limit keeps the budget exact if and only if what is cached fits the new limit (and, coming
    from no limit at all, nothing was cached).
   */
  lemma LimitExact(s: Store, max: nat, newMax: nat)
    requires Good(s) && Budget(s, max) && max < WORD32 && 0 < newMax < WORD32
    ensures s.current < WORD32
    ensures Budget(s.(current := Limit(s.current, max, newMax)), newMax) <==>
      if max == 0 then UnitsFrom(s.buf, 0) == 0 else UnitsFrom(s.buf, 0) <= newMax
  {
    var u := UnitsFrom(s.buf, 0);
    if max == 0 {
      assert (s.current + newMax - max) % WORD32 == newMax;
    } else {
      assert s.current + newMax - max == newMax - u;
    }
  }
}
