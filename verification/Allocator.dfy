/** The allocator as it runs. A free list is a sequence of nodes, front first. */
module Allocators {
  import opened Common
  import opened MemNodes
  import opened FreeLists

  /** No node is cached twice (one list never holds it twice, and its index names the list). */
  ghost predicate Once(buf: seq<seq<MemNode>>) { forall i {:trigger buf[i]} :: 0 <= i < |buf| ==> NoDup(buf[i]) }

  function Bytes(ns: seq<MemNode>): nat
  {
    if ns == [] then 0 else ns[0].Endp() + Bytes(ns[1..])
  }

  lemma {:induction false} BytesDrop(ns: seq<MemNode>, i: nat)
    requires i < |ns|
    ensures Bytes(Without(ns, i)) == Bytes(ns) - ns[i].Endp()
  {
    if i == 0 {
      assert Without(ns, 0) == ns[1..];
    } else {
      assert Without(ns, i)[1..] == Without(ns[1..], i - 1);
      BytesDrop(ns[1..], i - 1);
    }
  }

  lemma DropIn(ns: seq<MemNode>, i: nat, n: MemNode)
    requires i < |ns| && NoDup(ns)
    ensures n in Without(ns, i) <==> n in ns && n != ns[i]
  {
    if n in ns && n != ns[i] {
      var j :| 0 <= j < |ns| && ns[j] == n;
      assert Without(ns, i)[if j < i then j else j - 1] == n;
    }
  }

  /** The nodes in use: owned and not cached. */
  ghost function LiveOf(owned: seq<MemNode>, s: Store): set<MemNode>
  {
    set n | n in owned && !Cached(s, n)
  }

  ghost function CachedOf(s: Store): set<MemNode>
  {
    set i, n | 0 <= i < |s.buf| && n in s.buf[i] :: n
  }

  class Allocator {
    var buf: seq<seq<MemNode>>
    var last: nat
    var max: nat
    var current: nat
    var allocatedBytes: nat
    /** Every node obtained from the system and not yet released, whether in use or cached. */
    ghost var owned: seq<MemNode>

    ghost function Cache(): Store reads this { Store(buf, last, current) }

    ghost predicate Valid()
      reads this
    {
      && Good(Cache()) && Once(buf) && NoDup(owned) && allocatedBytes == Bytes(owned)
      && (forall n :: n in owned ==> 1 <= n.index <= MAX_NODE_INDEX)
      && (forall i, n {:trigger n in buf[i]} :: 0 <= i < |buf| && n in buf[i] ==> n in owned)
      && max < WORD32
    }

    ghost function CachedNodes(): set<MemNode> reads this { CachedOf(Cache()) }

    /** In use: owned and not cached. */
    ghost predicate Live(n: MemNode)
      reads this
    {
      n in owned && !Cached(Cache(), n)
    }

    ghost function LiveSet(): set<MemNode> reads this { LiveOf(owned, Cache()) }

    constructor ()
      ensures Valid() && owned == [] && max == 0 && Budget(Cache(), max)
    {
      buf, last, max, current, allocatedBytes, owned := seq(MAX_INDEX, i => []), 0, 0, 0, 0, [];
    }

    /** The limit, in boundary units; the budget stays exact exactly when the cache fits it. */
    method SetMax(size: nat)
      requires Valid() && Budget(Cache(), max)
      modifies this`max, this`current
      ensures Valid() && buf == old(buf) && owned == old(owned)
      ensures max == (Align(size % WORD64, BOUNDARY_SIZE) / BOUNDARY_SIZE) % WORD32
      ensures max > 0 ==> (Budget(Cache(), max) <==> if old(max) == 0 then UnitsFrom(buf, 0) == 0 else UnitsFrom(buf, 0) <= max)
      ensures max == 0 ==> Budget(Cache(), max)
    {
      var newMax := (Align(size % WORD64, BOUNDARY_SIZE) / BOUNDARY_SIZE) % WORD32;
      if newMax > 0 { LimitExact(Cache(), max, newMax); }
      current := (current + newMax - max) % WORD32;
      max := newMax;
      if current > max {
        current := max;
      }
    }

    method FindBucket(index: nat) returns (i: nat)
      requires index <= last < |buf|
      ensures i == FindFrom(buf, index, last)
    {
      i := index;
      while buf[i] == [] && i < last
        invariant index <= i <= last && FindFrom(buf, i, last) == FindFrom(buf, index, last)
      {
        i := i + 1;
      }
    }

    method LowerLast(i: nat) returns (m: nat)
      requires 0 < i < |buf|
      ensures m == TopBelow(buf, i)
    {
      m := i - 1;
      while buf[m] == [] && m > 0
        invariant m < i && TopBelow(buf, i) == TopBelow(buf, m + 1)
      {
        m := m - 1;
      }
    }

    /** The first node of the sink whose index is large enough. */
    method FindSink(index: nat) returns (k: nat)
      requires |buf| > 0
      ensures k <= |buf[0]| && (k < |buf[0]| ==> buf[0][k].index >= index) && forall j :: 0 <= j < k ==> buf[0][j].index < index
    {
      k := 0;
      while k < |buf[0]| && index > buf[0][k].index
        invariant k <= |buf[0]| && forall j :: 0 <= j < k ==> buf[0][j].index < index
      {
        k := k + 1;
      }
    }

    method PopBucket(i: nat) returns (node: MemNode)
      requires 0 < i < |buf| && buf[i] != [] && last < |buf|
      modifies this`buf, this`last, this`current
      ensures node == old(buf)[i][0] && Cache() == TakeFront(old(Cache()), max, i)
    {
      node := buf[i][0];
      buf := buf[i := buf[i][1..]];
      if buf[i] == [] && i >= last {
        last := LowerLast(i);
      }
      current := current + node.index + 1;
      if current > max {
        current := max;
      }
    }

    method PopSink(k: nat) returns (node: MemNode)
      requires |buf| > 0 && k < |buf[0]|
      modifies this`buf, this`current
      ensures node == old(buf)[0][k] && Cache() == TakeSink(old(Cache()), max, k)
    {
      node := buf[0][k];
      buf := buf[0 := Without(buf[0], k)];
      current := current + node.index + 1;
      if current > max {
        current := max;
      }
    }

    /** The cache has lost node and nothing else. */
    ghost predicate Fewer(s: Store, s': Store, node: MemNode)
    {
      && (forall i, n {:trigger n in s'.buf[i]} :: 0 <= i < |s'.buf| && n in s'.buf[i] ==> Cached(s, n) && n != node)
      && (forall i, n {:trigger n in s.buf[i]} :: 0 <= i < |s.buf| && n in s.buf[i] && n != node ==> Cached(s', n))
    }

    /** What taking node out of the cache means. */
    ghost predicate TookOut(s: Store, s': Store, max: nat, node: MemNode)
    {
      && Good(s') && Once(s'.buf) && (Budget(s, max) ==> Budget(s', max))
      && Cached(s, node) && Fewer(s, s', node)
    }

    lemma FrontOut(s: Store, max: nat, i: nat)
      requires Good(s) && Once(s.buf) && 0 < i < |s.buf| && s.buf[i] != []
      ensures TookOut(s, TakeFront(s, max, i), max, s.buf[i][0])
    {
      var s', node := TakeFront(s, max, i), s.buf[i][0];
      TakeFrontGood(s, max, i);
      assert s.buf[i][1..] == Without(s.buf[i], 0);
      ListOut(s, s', i, 0);
    }

    lemma SinkOut(s: Store, max: nat, k: nat)
      requires Good(s) && Once(s.buf) && k < |s.buf[0]|
      ensures TookOut(s, TakeSink(s, max, k), max, s.buf[0][k])
    {
      TakeSinkGood(s, max, k);
      ListOut(s, TakeSink(s, max, k), 0, k);
    }

    lemma ListOut(s: Store, s': Store, i: nat, k: nat)
      requires Sorted(s.buf) && Once(s.buf) && i < |s.buf| && k < |s.buf[i]| && s'.buf == s.buf[i := Without(s.buf[i], k)]
      ensures Once(s'.buf) && Cached(s, s.buf[i][k]) && Fewer(s, s', s.buf[i][k])
    {
      var node := s.buf[i][k];
      assert node in s.buf[i];
      forall j, n {:trigger n in s'.buf[j]} | 0 <= j < |s'.buf| && n in s'.buf[j] ensures Cached(s, n) && n != node {
        DropIn(s.buf[i], k, n);
        assert n in s.buf[j];
      }
      forall j, n {:trigger n in s.buf[j]} | 0 <= j < |s.buf| && n in s.buf[j] && n != node ensures Cached(s', n) {
        DropIn(s.buf[i], k, n);
        assert n in s'.buf[j];
      }
    }

    /** From the cache, if some cached node is large enough. */
    method TakeCached(index: nat) returns (node: MemNode?)
      requires Valid() && index >= 1
      modifies this`buf, this`last, this`current
      ensures Valid() && max == old(max) && owned == old(owned) && (old(Budget(Cache(), max)) ==> Budget(Cache(), max))
      ensures node != null ==> node.index >= index && TookOut(old(Cache()), Cache(), max, node) && TookBest(old(Cache()), Cache(), index, node)
      ensures node == null ==> buf == old(buf) && forall i, n {:trigger n in buf[i]} :: 0 <= i < |buf| && n in buf[i] ==> n.index < index
    {
      node := null;
      ghost var s := Cache();
      BucketsCover(s, index);
      if index <= last {
        var i := FindBucket(index);
        FrontOut(Cache(), max, i);
        assert buf[i][0] in buf[i];
        node := PopBucket(i);
        assert TookFront(s, Cache(), index, i, node);
      } else if buf[0] != [] {
        var k := FindSink(index);
        if k < |buf[0]| {
          SinkOut(Cache(), max, k);
          node := PopSink(k);
          assert TookSink(s, Cache(), index, k, node);
        }
      }
    }

    /** A node from the system. */
    method NewNode(index: nat) returns (node: MemNode)
      requires Valid() && 1 <= index <= MAX_NODE_INDEX
      modifies this`owned, this`allocatedBytes
      ensures fresh(node) && node.index == index && node.firstAvail == SIZEOF_MEMNODE && node.next == null
      ensures Valid() && owned == [node] + old(owned) && node !in old(owned) && !Cached(Cache(), node)
      ensures buf == old(buf) && Cache() == old(Cache()) && max == old(max)
    {
      node := new MemNode(index);
      allocatedBytes := allocatedBytes + node.Endp();
      owned := [node] + owned;
    }

    /**
      The request is refused exactly when its size does not fit. Otherwise the node is in use afterwards
      and has at least inSize usable bytes; it is new only when no cached node was large enough.
     */
    method Alloc(inSize: nat, ghost held: set<MemNode> := {}) returns (node: MemNode?)
      requires Valid() && inSize < WORD64 && forall n :: n in held ==> Live(n)
      modifies this`buf, this`last, this`current, this`owned, this`allocatedBytes, CachedNodes()
      ensures Valid() && max == old(max) && (old(Budget(Cache(), max)) ==> Budget(Cache(), max))
      ensures node == null <==> inSize > MAX_REQUEST
      ensures node == null ==> Cache() == old(Cache()) && owned == old(owned)
      ensures CachedNodes() <= old(CachedNodes()) && (node != null ==> fresh(node) || node in old(CachedNodes()))
      ensures node != null ==> Live(node) && node.Endp() >= SIZEOF_MEMNODE + inSize && node.firstAvail == SIZEOF_MEMNODE && node.next == null
      ensures node != null && !fresh(node) ==> owned == old(owned) && TookOut(old(Cache()), Cache(), max, node)
      ensures node != null && !fresh(node) ==> TookBest(old(Cache()), Cache(), RequestSize(inSize) / BOUNDARY_SIZE - 1, node)
      ensures node != null && fresh(node) ==> owned == [node] + old(owned) && buf == old(buf)
      ensures node != null && fresh(node) ==> node.Endp() == MIN_ALLOC || node.Endp() < inSize + SIZEOF_MEMNODE + BOUNDARY_SIZE
      ensures node != null && fresh(node) ==>
        forall i, n {:trigger n in buf[i]} :: 0 <= i < |buf| && n in buf[i] ==> n.Endp() < SIZEOF_MEMNODE + inSize
      ensures forall n :: n in held ==> Live(n) && n != node
      ensures forall n :: n in held ==>
        n.next == old(n.next) && n.prev == old(n.prev) && n.freeIndex == old(n.freeIndex) && n.firstAvail == old(n.firstAvail)
    {
      RequestAdequate(inSize);
      var size := RequestSize(inSize);
      if size == 0 {
        return null;
      }
      var index := size / BOUNDARY_SIZE - 1;
      node := TakeCached(index);
      if node != null {
        node.next := null;
        node.firstAvail := SIZEOF_MEMNODE;
      } else {
        node := NewNode(index);
      }
    }

    // ---- free ----

    /** Cached after freeing ns: what was cached, and those of ns that were kept. */
    ghost predicate TookIn(s: Store, s': Store, ns: seq<MemNode>, out: seq<MemNode>)
    {
      && (forall i, n {:trigger n in s'.buf[i]} :: 0 <= i < |s'.buf| && n in s'.buf[i] ==> Cached(s, n) || (n in ns && n !in out))
      && (forall i, n {:trigger n in s.buf[i]} :: 0 <= i < |s.buf| && n in s.buf[i] ==> Cached(s', n))
      && (forall n :: n in ns && n !in out ==> Cached(s', n))
      && (forall n :: n in out ==> n in ns)
    }

    lemma FreeOneIn(s: Store, s1: Store, max: nat, ns: seq<MemNode>, out: seq<MemNode>, n: MemNode)
      requires |s.buf| == MAX_INDEX && |s1.buf| == MAX_INDEX && TookIn(s, s1, ns, out) && n !in ns
      ensures TookIn(s, FreeOne(s1, max, n), ns + [n], if Keeps(s1, max, n) then out else [n] + out)
    {
      var s2, h := FreeOne(s1, max, n), Home(n.index);
      if Keeps(s1, max, n) {
        forall i, x {:trigger x in s1.buf[i]} | 0 <= i < |s1.buf| && x in s1.buf[i] ensures Cached(s2, x) { assert x in s2.buf[i]; }
        assert n in s2.buf[h];
        forall i, x {:trigger x in s2.buf[i]} | 0 <= i < |s2.buf| && x in s2.buf[i] ensures x == n || Cached(s1, x) {
          if x != n { assert x in s1.buf[i]; }
        }
      }
    }

    lemma FreeOneOnce(s: Store, max: nat, n: MemNode)
      requires Good(s) && Once(s.buf) && !Cached(s, n)
      ensures Once(FreeOne(s, max, n).buf)
    {
      var h := Home(n.index);
      assert n !in s.buf[h];
    }

    lemma {:induction false} FreeAllIn(s: Store, max: nat, ns: seq<MemNode>)
      requires Good(s) && Once(s.buf) && NoDup(ns) && forall n :: n in ns ==> n.index >= 1 && !Cached(s, n)
      ensures TookIn(s, FreeAll(s, max, ns), ns, Released(s, max, ns)) && Once(FreeAll(s, max, ns).buf)
    {
      if ns != [] {
        var r, n := ns[..|ns| - 1], ns[|ns| - 1];
        assert ns == r + [n];
        FreeAllIn(s, max, r);
        FreeAllGood(s, max, r);
        FreeOneIn(s, FreeAll(s, max, r), max, r, Released(s, max, r), n);
        NotYet(s, FreeAll(s, max, r), r, Released(s, max, r), n);
        FreeOneOnce(FreeAll(s, max, r), max, n);
      }
    }

    lemma NotYet(s: Store, s': Store, ns: seq<MemNode>, out: seq<MemNode>, n: MemNode)
      requires TookIn(s, s', ns, out) && n !in ns && !Cached(s, n)
      ensures !Cached(s', n)
    {
    }

    method FreeLoop(nodes: seq<MemNode>) returns (freelist: seq<MemNode>)
      requires |buf| == MAX_INDEX
      modifies this`buf, this`last, this`current
      ensures Cache() == FreeAll(old(Cache()), max, nodes) && freelist == Released(old(Cache()), max, nodes)
    {
      ghost var s := Cache();
      freelist := [];
      var maxIndex: nat, currentFree: nat := last, current;
      var i := 0;
      while i < |nodes|
        invariant i <= |nodes| && Store(buf, maxIndex, currentFree) == FreeAll(s, max, nodes[..i]) && freelist == Released(s, max, nodes[..i])
      {
        assert nodes[..i + 1][..i] == nodes[..i];
        var node := nodes[i];
        var index := node.index;
        if max != 0 && index + 1 > currentFree {
          freelist := [node] + freelist;
        } else if index < MAX_INDEX {
          if buf[index] == [] && index > maxIndex {
            maxIndex := index;
          }
          buf := buf[index := [node] + buf[index]];
          currentFree := if currentFree >= index + 1 then currentFree - (index + 1) else 0;
        } else {
          buf := buf[0 := [node] + buf[0]];
          currentFree := if currentFree >= index + 1 then currentFree - (index + 1) else 0;
        }
        i := i + 1;
      }
      assert nodes[..|nodes|] == nodes;
      last, current := maxIndex, currentFree;
    }

    /** owned without one node. */
    ghost method Disown(node: MemNode)
      requires node in owned && NoDup(owned)
      modifies this`owned
      ensures NoDup(owned) && Bytes(owned) == Bytes(old(owned)) - node.Endp() && forall n :: n in owned <==> n in old(owned) && n != node
    {
      var i :| 0 <= i < |owned| && owned[i] == node;
      BytesDrop(owned, i);
      forall n ensures n in Without(owned, i) <==> n in owned && n != node { DropIn(owned, i, n); }
      owned := Without(owned, i);
    }

    method ReleaseAll(freelist: seq<MemNode>)
      requires NoDup(owned) && allocatedBytes == Bytes(owned) && NoDup(freelist) && forall n :: n in freelist ==> n in owned
      modifies this`owned, this`allocatedBytes
      ensures NoDup(owned) && allocatedBytes == Bytes(owned) && forall n :: n in owned <==> n in old(owned) && n !in freelist
    {
      var i := 0;
      while i < |freelist|
        invariant i <= |freelist| && NoDup(owned) && allocatedBytes == Bytes(owned)
        invariant forall n :: n in owned <==> n in old(owned) && n !in freelist[..i]
      {
        assert freelist[..i + 1] == freelist[..i] + [freelist[i]];
        Disown(freelist[i]);
        allocatedBytes := allocatedBytes - freelist[i].Endp();
        i := i + 1;
      }
      assert freelist[..|freelist|] == freelist;
    }

    lemma {:induction false} ReleasedNoDup(s: Store, max: nat, ns: seq<MemNode>)
      requires |s.buf| == MAX_INDEX && NoDup(ns)
      ensures NoDup(Released(s, max, ns)) && forall n :: n in Released(s, max, ns) ==> n in ns
    {
      if ns != [] {
        var r, n := ns[..|ns| - 1], ns[|ns| - 1];
        assert ns == r + [n];
        ReleasedNoDup(s, max, r);
        assert forall j :: 0 <= j < |r| ==> r[j] == ns[j];
        assert n !in Released(s, max, r);
      }
    }

    /**
      Nodes in use, handed back: each ends up cached or released, never both, and none is left in use.
      Without a limit all are kept; with one, the budget stays exact.
     */
    method Free(nodes: seq<MemNode>)
      requires Valid() && nodes != [] && NoDup(nodes) && forall n :: n in nodes ==> Live(n)
      modifies this`buf, this`last, this`current, this`owned, this`allocatedBytes
      ensures Valid() && max == old(max) && (old(Budget(Cache(), max)) ==> Budget(Cache(), max))
      ensures Cache() == FreeAll(old(Cache()), max, nodes)
      ensures TookIn(old(Cache()), Cache(), nodes, Released(old(Cache()), max, nodes))
      ensures forall n :: n in owned <==> n in old(owned) && n !in Released(old(Cache()), max, nodes)
      ensures max == 0 ==> Released(old(Cache()), max, nodes) == []
      ensures forall i :: 0 <= i < MAX_INDEX ==> buf[i] == Stacked(nodes, Released(old(Cache()), max, nodes), i) + old(buf)[i]
      ensures LiveSet() == old(LiveSet()) - set n | n in nodes
      ensures CachedNodes() <= old(CachedNodes()) + set n | n in nodes
    {
      ghost var s, was := Cache(), owned;
      FreeAllGood(s, max, nodes);
      FreeAllIn(s, max, nodes);
      ReleasedNoDup(s, max, nodes);
      NoLimit(s, nodes);
      forall i | 0 <= i < MAX_INDEX ensures FreeAll(s, max, nodes).buf[i] == Stacked(nodes, Released(s, max, nodes), i) + s.buf[i] {
        FreeAllStacks(s, max, nodes, i);
      }
      var freelist := FreeLoop(nodes);
      ReleaseAll(freelist);
      LiveAfterFree(was, s, owned, Cache(), nodes, freelist);
    }

    lemma LiveAfterFree(was: seq<MemNode>, s: Store, now: seq<MemNode>, s': Store, nodes: seq<MemNode>, out: seq<MemNode>)
      requires TookIn(s, s', nodes, out) && (forall n :: n in now <==> n in was && n !in out) && forall n :: n in nodes ==> n in was && !Cached(s, n)
      ensures LiveOf(now, s') == LiveOf(was, s) - set n | n in nodes
    {
    }

    /** The destructor: everything cached goes back to the system, and only what is in use stays accounted for. */
    method Destroy()
      requires Valid()
      modifies this`buf, this`owned, this`allocatedBytes
      ensures forall i {:trigger buf[i]} :: 0 <= i < |buf| ==> buf[i] == []
      ensures NoDup(owned) && allocatedBytes == Bytes(owned) && forall n :: n in owned <==> n in old(owned) && !Cached(old(Cache()), n)
    {
      ghost var s := Cache();
      var index := 0;
      while index < MAX_INDEX
        invariant index <= MAX_INDEX == |buf| == |s.buf| && NoDup(owned) && allocatedBytes == Bytes(owned)
        invariant forall i {:trigger buf[i]} :: 0 <= i < |buf| ==> buf[i] == if i < index then [] else s.buf[i]
        invariant forall n :: n in owned <==> n in old(owned) && !InFirst(s.buf, index, n)
      {
        forall n | n in buf[index] ensures n in owned && !InFirst(s.buf, index, n) { assert n in s.buf[index]; }
        ReleaseAll(buf[index]);
        buf := buf[index := []];
        index := index + 1;
      }
    }

    ghost predicate InFirst(buf: seq<seq<MemNode>>, k: nat, n: MemNode)
      requires k <= |buf|
    {
      exists i :: 0 <= i < k && n in buf[i]
    }
  }
}
