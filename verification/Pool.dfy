/** The pool: a bump allocator over a ring of memory nodes. */
module Pools {
  import opened Common
  import opened MemNodes
  import opened FreeLists
  import opened Allocators
  import opened NodeRing

  const ALIGNMENT := 16
  const SIZEOF_POOL := 176

  /** A block handed out: len bytes at offset off of a node. */
  datatype Block = Block(node: MemNode, off: nat, len: nat)

  ghost predicate Disjoint(a: Block, b: Block)
  {
    a.node != b.node || a.off + a.len <= b.off || b.off + b.len <= a.off
  }

  ghost predicate AllDisjoint(bs: seq<Block>) { forall i, j :: 0 <= i < j < |bs| ==> Disjoint(bs[i], bs[j]) }

  ghost function LinksOf(s: set<MemNode>): Links
    reads set n | n in s :: n`next, set n | n in s :: n`prev, set n | n in s :: n`freeIndex
  {
    map n | n in s :: Link(n.next, n.prev, n.freeIndex)
  }

  function Elems(s: seq<MemNode>): set<MemNode> { set n | n in s }

  /** What malloc promises of an address. */
  predicate OnBoundary(off: nat) { off % 16 == 0 }

  /** Blocks lie below their node's first free byte, on a boundary, apart from each other, and nodes are not overrun. */
  ghost predicate Placed(nodes: set<MemNode>, blocks: seq<Block>)
    reads set n | n in nodes :: n`firstAvail
  {
    && AllDisjoint(blocks)
    && (forall b :: b in blocks ==> b.node in nodes && SIZEOF_MEMNODE <= b.off && b.off + b.len <= b.node.firstAvail && OnBoundary(b.off))
    && (forall n :: n in nodes ==> SIZEOF_MEMNODE <= n.firstAvail <= n.Endp() && OnBoundary(n.firstAvail))
  }

  lemma NextBoundary(off: nat, len: nat)
    requires OnBoundary(off) && OnBoundary(len)
    ensures OnBoundary(off + len)
  {
  }

  lemma PlaceNext(blocks: seq<Block>, b: Block)
    requires AllDisjoint(blocks) && forall x :: x in blocks ==> x.node != b.node || x.off + x.len <= b.off
    ensures AllDisjoint(blocks + [b])
  {
  }

  function AlignDefault(size: nat): nat { Align(size, ALIGNMENT) }

  method InsertNode(n: MemNode, point: MemNode, ghost s: set<MemNode>)
    requires n in s && point in s && point.prev != null && point.prev in s
    modifies n`next, n`prev, point`prev, point.prev`next
    ensures point in old(LinksOf(s)) && LinksOf(s) == Inserted(old(LinksOf(s)), n, point)
  {
    n.prev := point.prev;
    n.prev.next := n;
    n.next := point;
    point.prev := n;
  }

  method SetFreeIndex(n: MemNode, f: nat, ghost s: set<MemNode>)
    requires n in s
    modifies n`freeIndex
    ensures n.freeIndex == f && n in old(LinksOf(s)) && LinksOf(s) == SetFree(old(LinksOf(s)), n, f)
  {
    n.freeIndex := f;
  }

  method RemoveNode(n: MemNode, ghost s: set<MemNode>)
    requires n in s && n.prev != null && n.prev in s && n.next != null && n.next in s
    modifies n.prev`next, n.next`prev
    ensures n in old(LinksOf(s)) && LinksOf(s) == Removed(old(LinksOf(s)), n)
  {
    n.prev.next := n.next;
    n.next.prev := n.prev;
  }

  // ---- putting the former active node where it belongs ----

  /** The scan stops at the first node that has no more free than f; the active node has none. */
  method FindPlace(a: MemNode, f: nat, ghost ring: seq<MemNode>) returns (point: MemNode, stay: bool, ghost p: nat)
    requires Ring(LinksOf(Elems(ring)), ring) && |ring| >= 2 && a == ring[1] && ring[0].freeIndex == 0
    ensures 2 <= p <= |ring| && point == NodeAt(ring, p) && point.freeIndex <= f && (stay <==> p == 2)
    ensures forall q :: 2 <= q < p ==> ring[q].freeIndex > f
  {
    ghost var mem := LinksOf(Elems(ring));
    RingAt(mem, ring, 1);
    point, stay, p := a.next, true, 2;
    if f >= point.freeIndex {
      return;
    }
    stay := false;
    RingAt(mem, ring, p);
    point, p := point.next, p + 1;
    while f < point.freeIndex
      invariant 3 <= p <= |ring| && point == NodeAt(ring, p) && forall q :: 2 <= q < p ==> ring[q].freeIndex > f
      decreases |ring| - p
    {
      RingAt(mem, ring, p);
      point, p := point.next, p + 1;
    }
  }

  lemma MovedSame(ring: seq<MemNode>)
    requires |ring| >= 2
    ensures Moved(ring, 2) == ring
  {
  }

  lemma MovedElems(ring: seq<MemNode>, p: nat)
    requires 2 <= p <= |ring| && NoDup(ring)
    ensures Elems(Moved(ring, p)) == Elems(ring) && Moved(ring, p)[0] == ring[0] && |Moved(ring, p)| == |ring| && ring[1] !in Without(ring, 1)
  {
    var s := Without(ring, 1);
    forall n ensures n in Moved(ring, p) <==> n in ring {
      DropIn(ring, 1, n);
      assert n in Moved(ring, p) <==> n in s[..p - 1] || n == ring[1] || n in s[p - 1..];
      assert n in s <==> n in s[..p - 1] || n in s[p - 1..] by { assert s == s[..p - 1] + s[p - 1..]; }
    }
    DropIn(ring, 1, ring[1]);
  }

  lemma InsertAt(mem: Links, s: seq<MemNode>, k: nat, n: MemNode)
    requires Ring(mem, s) && 0 < k <= |s| && n in mem && n !in s
    ensures var point := NodeAt(s, k); point in mem && mem[point].prev == s[k - 1] && s[k - 1] in mem && Ring(Inserted(mem, n, point), Put(s, k, n))
  {
    if k < |s| {
      InsertMiddle(mem, s, k, n);
    } else {
      InsertLast(mem, s, n);
      assert Put(s, k, n) == s + [n];
    }
  }

  /** Remove and insert, as values. */
  lemma MovedRing(mem: Links, ring: seq<MemNode>, p: nat)
    requires Ring(mem, ring) && 3 <= p <= |ring| && InOrder(mem, Moved(ring, p)) && forall n :: n in ring ==> n in mem
    ensures var a, point := ring[1], NodeAt(ring, p);
      && mem[a].next != null && mem[a].prev != null && mem[a].next in mem && mem[a].prev in mem
      && var mem1 := Removed(mem, a);
      && a in mem1 && point in mem1 && mem1[point].prev != null && mem1[point].prev in mem1
      && Ring(Inserted(mem1, a, point), Moved(ring, p)) && InOrder(Inserted(mem1, a, point), Moved(ring, p))
  {
    var a, point := ring[1], NodeAt(ring, p);
    RemoveRing(mem, ring, 1);
    MovedElems(ring, p);
    RemovedFrees(mem, a);
    var mem1 := Removed(mem, a);
    InsertAt(mem1, Without(ring, 1), p - 1, a);
    InsertedFrees(mem1, a, point);
    forall i | 0 <= i < |ring| ensures Moved(ring, p)[i] in mem { assert Moved(ring, p)[i] in ring; }
    SameOrder(mem, Inserted(mem1, a, point), Moved(ring, p));
  }

  method MoveNode(a: MemNode, point: MemNode, ghost ring: seq<MemNode>, ghost p: nat)
    requires Ring(LinksOf(Elems(ring)), ring) && 3 <= p <= |ring| && a == ring[1] && point == NodeAt(ring, p)
    requires InOrder(LinksOf(Elems(ring)), Moved(ring, p))
    modifies set n | n in ring :: n`next, set n | n in ring :: n`prev
    ensures Ring(LinksOf(Elems(ring)), Moved(ring, p)) && InOrder(LinksOf(Elems(ring)), Moved(ring, p))
  {
    MovedRing(LinksOf(Elems(ring)), ring, p);
    RemoveNode(a, Elems(ring));
    InsertNode(a, point, Elems(ring));
  }

  /** The free space of a node in whole boundary units. */
  function FreeIndex(free: nat): (r: nat)
    requires free < WORD32
    ensures r == free / BOUNDARY_SIZE
  {
    (Align(free + 1, BOUNDARY_SIZE) - BOUNDARY_SIZE) / BOUNDARY_SIZE
  }

  method FindSlot(a: MemNode, f: nat, ghost ring: seq<MemNode>) returns (point: MemNode, stay: bool, ghost p: nat)
    requires Ring(LinksOf(Elems(ring)), ring) && |ring| >= 2 && a == ring[1] && a.freeIndex == f
    requires FreeAt(LinksOf(Elems(ring)), ring, 0) == 0 && Descending(LinksOf(Elems(ring)), ring, 2)
    ensures 2 <= p <= |ring| && point == NodeAt(ring, p) && (stay <==> p == 2) && point.freeIndex <= f
    ensures Ring(LinksOf(Elems(ring)), ring) && InOrder(LinksOf(Elems(ring)), Moved(ring, p))
  {
    point, stay, p := FindPlace(a, f, ring);
    FoundOrder(LinksOf(Elems(ring)), ring, p, f);
  }

  method SetSecond(a: MemNode, f: nat, ghost ring: seq<MemNode>)
    requires Ring(LinksOf(Elems(ring)), ring) && |ring| >= 2 && a == ring[1]
    requires FreeAt(LinksOf(Elems(ring)), ring, 0) == 0 && Descending(LinksOf(Elems(ring)), ring, 2)
    modifies a`freeIndex
    ensures a.freeIndex == f && Ring(LinksOf(Elems(ring)), ring)
    ensures FreeAt(LinksOf(Elems(ring)), ring, 0) == 0 && Descending(LinksOf(Elems(ring)), ring, 2)
  {
    SetFreeRing(LinksOf(Elems(ring)), ring, a, f);
    SetFreeSecond(LinksOf(Elems(ring)), ring, f);
    SetFreeIndex(a, f, Elems(ring));
  }

  /** Finds the place of the second node of the ring and moves it there. */
  method PutBack(a: MemNode, f: nat, ghost ring: seq<MemNode>) returns (ghost p: nat)
    requires Ring(LinksOf(Elems(ring)), ring) && |ring| >= 2 && a == ring[1] && a.freeIndex == f
    requires FreeAt(LinksOf(Elems(ring)), ring, 0) == 0 && Descending(LinksOf(Elems(ring)), ring, 2)
    modifies set n | n in ring :: n`next, set n | n in ring :: n`prev
    ensures 2 <= p <= |ring| && Ring(LinksOf(Elems(ring)), Moved(ring, p)) && InOrder(LinksOf(Elems(ring)), Moved(ring, p))
  {
    var point, stay;
    point, stay, p := FindSlot(a, f, ring);
    if stay {
      MovedSame(ring);
    } else {
      MoveNode(a, point, ring, p);
    }
  }

  lemma FoundOrder(mem: Links, ring: seq<MemNode>, p: nat, f: nat)
    requires (forall n :: n in ring ==> n in mem) && 2 <= p <= |ring| && FreeAt(mem, ring, 0) == 0 && Descending(mem, ring, 2)
    requires mem[ring[1]].free == f && mem[NodeAt(ring, p)].free <= f && forall q :: 2 <= q < p ==> mem[ring[q]].free > f
    ensures InOrder(mem, Moved(ring, p))
  {
    MovedInOrder(mem, ring, p);
  }

  /** The node after the active one leaves the ring. */
  method TakeSecond(ghost ring: seq<MemNode>, active: MemNode) returns (node: MemNode)
    requires Ring(LinksOf(Elems(ring)), ring) && |ring| >= 2 && ring[0] == active && Descending(LinksOf(Elems(ring)), ring, 1)
    modifies set n | n in ring :: n`next, set n | n in ring :: n`prev
    ensures node == ring[1] && Ring(LinksOf(Elems(ring)), Without(ring, 1)) && Descending(LinksOf(Elems(ring)), Without(ring, 1), 1)
  {
    ghost var mem := LinksOf(Elems(ring));
    RingAt(mem, ring, 0);
    node := active.next;
    RemoveRing(mem, ring, 1);
    RemovedFrees(mem, node);
    DropDescending(mem, ring);
    RemoveNode(node, Elems(ring));
    SameDescending(mem, LinksOf(Elems(ring)), Without(ring, 1), 1);
  }

  /** A node that was outside joins the ring in front of the active one. */
  method JoinFront(node: MemNode, active: MemNode, ghost rest: seq<MemNode>, ghost s: set<MemNode>)
    requires Ring(LinksOf(s), rest) && Descending(LinksOf(s), rest, 1) && rest[0] == active && node in s && node !in rest && node.freeIndex == 0
    requires forall n :: n in rest ==> n in s
    modifies set n | n in s :: n`next, set n | n in s :: n`prev
    ensures Ring(LinksOf(s), [node] + rest) && FreeAt(LinksOf(s), [node] + rest, 0) == 0 && Descending(LinksOf(s), [node] + rest, 2)
  {
    ghost var mem := LinksOf(s);
    InsertFirst(mem, rest, node);
    InsertedFrees(mem, node, active);
    InsertNode(node, active, s);
    SameDescending(mem, LinksOf(s), rest, 1);
    FrontDescending(LinksOf(s), rest, node);
  }

  lemma ZeroFree(mem: Links, node: MemNode, rest: seq<MemNode>)
    requires Ring(mem, rest) && Descending(mem, rest, 1) && node in mem && node !in rest && forall n :: n in rest ==> n in mem
    ensures Ring(SetFree(mem, node, 0), rest) && Descending(SetFree(mem, node, 0), rest, 1)
  {
    SetFreeRing(mem, rest, node, 0);
    SameDescending(mem, SetFree(mem, node, 0), rest, 1);
  }

  method JoinZero(node: MemNode, active: MemNode, ghost rest: seq<MemNode>, ghost s: set<MemNode>)
    requires Ring(LinksOf(s), rest) && Descending(LinksOf(s), rest, 1) && rest[0] == active && node in s && node !in rest
    requires forall n :: n in rest ==> n in s
    modifies node`freeIndex, set n | n in s :: n`next, set n | n in s :: n`prev
    ensures Ring(LinksOf(s), [node] + rest) && FreeAt(LinksOf(s), [node] + rest, 0) == 0 && Descending(LinksOf(s), [node] + rest, 2)
  {
    ZeroFree(LinksOf(s), node, rest);
    SetFreeIndex(node, 0, s);
    JoinFront(node, active, rest, s);
  }

  /** A call of palloc, or of palloc_self. */
  datatype Request = Request(size: nat, own: bool)

  /** The blocks handed out answer, in order, exactly the requests that can be met. */
  ghost predicate Serves(reqs: seq<Request>, got: seq<Block>)
  {
    if reqs == [] then got == []
    else
      var before, r := reqs[..|reqs| - 1], reqs[|reqs| - 1];
      if r.size > MAX_REQUEST then Serves(before, got)
      else got != [] && r.size <= got[|got| - 1].len < r.size + ALIGNMENT && Serves(before, got[..|got| - 1])
  }

  lemma ServesNext(reqs: seq<Request>, got: seq<Block>, r: Request, b: Block)
    requires Serves(reqs, got)
    ensures r.size > MAX_REQUEST ==> Serves(reqs + [r], got)
    ensures r.size <= MAX_REQUEST && r.size <= b.len < r.size + ALIGNMENT ==> Serves(reqs + [r], got + [b])
  {
    assert (reqs + [r])[..|reqs|] == reqs && (got + [b])[..|got|] == got;
  }

  /** What is left of a node. */
  function Room(n: MemNode): int
    reads n
  {
    n.Endp() - n.firstAvail
  }

  function ListAt(s: seq<MemNode>, i: nat): MemNode? { if i < |s| then s[i] else null }

  class Pool {
    var active: MemNode
    const self: MemNode
    const allocator: Allocator
    ghost var ring: seq<MemNode>
    ghost var blocks: seq<Block>

    ghost function Nodes(): set<MemNode> reads this { Elems(ring) }

    /** The ring is one cycle through the pool's nodes, from the active one on, in order of free space. */
    ghost predicate RingValid()
      reads this, Nodes()
    {
      && Ring(LinksOf(Nodes()), ring) && ring[0] == active && self in ring && InOrder(LinksOf(Nodes()), ring)
    }

    /** What concerns the pool's own nodes. */
    ghost predicate Sound()
      reads this, Nodes()
    {
      RingValid() && Placed(Nodes(), blocks)
    }

    /** The pool's nodes are in use. */
    ghost predicate Backed()
      reads this, allocator
    {
      allocator.Valid() && forall n :: n in ring ==> allocator.Live(n)
    }

    ghost predicate Valid()
      reads this, Nodes(), allocator
    {
      Sound() && Backed()
    }

    /** Nodes in use elsewhere, such as those of other pools on the same allocator. */
    ghost predicate Apart(held: set<MemNode>)
      reads this`ring, allocator
    {
      forall n :: n in held ==> allocator.Live(n) && n !in ring
    }

    constructor (node: MemNode, allocator: Allocator)
      requires allocator.Valid() && allocator.Live(node)
      modifies node
      ensures Valid() && ring == [node] && blocks == [] && self == node && this.allocator == allocator
    {
      active, self, this.allocator, ring, blocks := node, node, allocator, [node], [];
      new;
      node.next := node;
      node.prev := node;
      node.firstAvail := SIZEOF_MEMNODE + SIZEOF_POOL;
    }

    /** A pool in a node of its own. */
    static method Create(allocator: Allocator, ghost held: set<MemNode> := {}) returns (pool: Pool)
      requires allocator.Valid() && forall n :: n in held ==> allocator.Live(n)
      modifies allocator, allocator.CachedNodes()
      ensures fresh(pool) && pool.Valid() && pool.allocator == allocator && |pool.ring| == 1 && pool.blocks == []
      ensures pool.Apart(held)
      ensures allocator.CachedNodes() <= old(allocator.CachedNodes()) && fresh(pool.Nodes() - old(allocator.CachedNodes()))
    {
      var node := allocator.Alloc(MIN_ALLOC - SIZEOF_MEMNODE, held);
      pool := new Pool(node, allocator);
    }

    /** The bytes at the front of a node's free part, handed out. */
    method Bump(node: MemNode, size: nat, ghost nodes: set<MemNode>) returns (off: nat)
      requires Placed(nodes, blocks) && node in nodes && node.firstAvail + size <= node.Endp() && OnBoundary(size)
      modifies node`firstAvail, this`blocks
      ensures off == old(node.firstAvail) && blocks == old(blocks) + [Block(node, off, size)] && Placed(nodes, blocks) && OnBoundary(off)
    {
      off := node.firstAvail;
      PlaceNext(blocks, Block(node, off, size));
      NextBoundary(off, size);
      node.firstAvail := node.firstAvail + size;
      blocks := blocks + [Block(node, off, size)];
    }

    /** The second node of the ring has its free space noted and moves to its place. */
    static method Replace(a: MemNode, f: nat, ghost ring: seq<MemNode>) returns (ghost p: nat)
      requires Ring(LinksOf(Elems(ring)), ring) && |ring| >= 2 && a == ring[1]
      requires FreeAt(LinksOf(Elems(ring)), ring, 0) == 0 && Descending(LinksOf(Elems(ring)), ring, 2)
      modifies a`freeIndex, set n | n in ring :: n`next, set n | n in ring :: n`prev
      ensures 2 <= p <= |ring| && Ring(LinksOf(Elems(ring)), Moved(ring, p)) && InOrder(LinksOf(Elems(ring)), Moved(ring, p)) && a.freeIndex == f
    {
      SetSecond(a, f, ring);
      p := PutBack(a, f, ring);
    }

    /** The former active node, now second in the ring, moves to its place. */
    method Resort(a: MemNode)
      requires Ring(LinksOf(Nodes()), ring) && ring[0] == active && |ring| >= 2 && FreeAt(LinksOf(Nodes()), ring, 0) == 0
      requires Descending(LinksOf(Nodes()), ring, 2) && a == ring[1] && a.firstAvail <= a.Endp() < WORD32
      modifies this`ring, a`freeIndex, set n | n in ring :: n`next, set n | n in ring :: n`prev
      ensures Ring(LinksOf(Nodes()), ring) && ring[0] == active && InOrder(LinksOf(Nodes()), ring) && Nodes() == old(Nodes())
      ensures a.freeIndex == (a.Endp() - a.firstAvail) / BOUNDARY_SIZE
    {
      ghost var p := Replace(a, FreeIndex(a.Endp() - a.firstAvail), ring);
      MovedElems(ring, p);
      ring := Moved(ring, p);
    }

    /** A node with room for size, outside the ring; rest is the ring without it. */
    ghost predicate Ready(node: MemNode, rest: seq<MemNode>, size: nat)
      reads this, Elems([node] + rest), allocator
    {
      var s := Elems([node] + rest);
      && Ring(LinksOf(s), rest) && Descending(LinksOf(s), rest, 1) && rest[0] == active && node !in rest && self in s
      && Placed(s, blocks) && node.firstAvail + size <= node.Endp()
      && allocator.Valid() && forall n :: n in s ==> allocator.Live(n)
    }

    /** By the nodes as a set. */
    lemma StillApart(held: set<MemNode>)
      requires forall n :: n in held ==> allocator.Live(n) && n !in Nodes()
      ensures Apart(held)
    {
      forall n | n in held ensures n !in ring { assert n !in Nodes(); }
    }

    method TakeNext(size: nat) returns (node: MemNode, ghost rest: seq<MemNode>)
      requires Valid() && |ring| >= 2 && ring[1].firstAvail + size <= ring[1].Endp()
      modifies set n | n in ring :: n`next, set n | n in ring :: n`prev
      ensures node == ring[1] && Ready(node, rest, size) && Elems([node] + rest) == Nodes() && rest == Without(ring, 1) && |rest| > 0
    {
      rest := Without(ring, 1);
      forall n ensures n in [ring[1]] + rest <==> n in ring { DropIn(ring, 1, n); }
      assert Elems([ring[1]] + rest) == Nodes();
      node := TakeSecond(ring, active);
    }

    /** A node from the allocator. */
    method AllocNode(size: nat, ghost held: set<MemNode>) returns (node: MemNode?)
      requires Valid() && size < WORD64 && Apart(held)
      modifies allocator, allocator.CachedNodes()
      ensures (node == null <==> size > MAX_REQUEST) && Valid()
      ensures node != null ==> Ready(node, ring, size) && (fresh(node) || Cached(old(allocator.Cache()), node))
      ensures ring == old(ring) && blocks == old(blocks) && active == old(active)
      ensures Apart(held) && (node != null ==> node !in held)
      ensures allocator.CachedNodes() <= old(allocator.CachedNodes()) && (node != null ==> fresh(node) || node in old(allocator.CachedNodes()))
    {
      ghost var mem := LinksOf(Nodes());
      node := allocator.Alloc(size, Nodes() + held);
      assert LinksOf(Nodes()) == mem;
      if node != null {
        Joining(mem, node);
      }
    }

    lemma Joining(mem: Links, node: MemNode)
      requires Ring(mem, ring) && Descending(mem, ring, 1) && mem == LinksOf(Nodes())
      ensures Ring(LinksOf(Elems([node] + ring)), ring) && Descending(LinksOf(Elems([node] + ring)), ring, 1)
    {
      var mem' := LinksOf(Elems([node] + ring));
      forall i | 0 <= i < |ring| ensures ring[i] in mem && ring[i] in mem' && mem'[ring[i]] == mem[ring[i]] {
        assert ring[i] in Nodes() && ring[i] in [node] + ring;
      }
      RingSame(mem, mem', ring);
      SameDescending(mem, mem', ring, 1);
    }

    /** The node becomes the active one, in front of the others. */
    method EnterRing(node: MemNode, ghost rest: seq<MemNode>, ghost s: set<MemNode>)
      requires s == Elems([node] + rest) && Ring(LinksOf(s), rest) && Descending(LinksOf(s), rest, 1) && rest[0] == active && node !in rest
      modifies this`active, this`ring, node`freeIndex, set n | n in s :: n`next, set n | n in s :: n`prev
      ensures ring == [node] + rest && active == node && Ring(LinksOf(s), ring) && FreeAt(LinksOf(s), ring, 0) == 0 && Descending(LinksOf(s), ring, 2)
    {
      assert forall n :: n in rest ==> n in [node] + rest;
      JoinZero(node, active, rest, s);
      active := node;
      ring := [node] + rest;
    }

    /** Everything but the order of the former active node. */
    method Activate(node: MemNode, size: nat, ghost rest: seq<MemNode>) returns (off: nat)
      requires Ready(node, rest, size) && OnBoundary(size)
      modifies this`active, this`ring, this`blocks, node`freeIndex, node`firstAvail,
        set n | n in [node] + rest :: n`next, set n | n in [node] + rest :: n`prev
      ensures ring == [node] + rest && active == node && Ring(LinksOf(Nodes()), ring) && off == old(node.firstAvail)
      ensures FreeAt(LinksOf(Nodes()), ring, 0) == 0 && Descending(LinksOf(Nodes()), ring, 2)
      ensures blocks == old(blocks) + [Block(node, off, size)] && Placed(Nodes(), blocks) && self in ring
      ensures allocator.Valid() && forall n :: n in ring ==> allocator.Live(n)
    {
      ghost var s := Elems([node] + rest);
      off := Bump(node, size, s);
      EnterRing(node, rest, s);
    }

    method Finish(a: MemNode)
      requires Ring(LinksOf(Nodes()), ring) && ring[0] == active && |ring| >= 2 && a == ring[1]
      requires FreeAt(LinksOf(Nodes()), ring, 0) == 0 && Descending(LinksOf(Nodes()), ring, 2)
      requires Placed(Nodes(), blocks) && self in ring && allocator.Valid() && forall n :: n in ring ==> allocator.Live(n)
      modifies this`ring, a`freeIndex, set n | n in ring :: n`next, set n | n in ring :: n`prev
      ensures Valid() && blocks == old(blocks) && Nodes() == old(Nodes())
    {
      assert allocator.Live(a);
      assert self in Nodes();
      ghost var was := Nodes();
      Resort(a);
      assert self in Nodes();
      forall n | n in ring ensures allocator.Live(n) { assert n in was; }
    }

    lemma RoomBound(n: MemNode)
      requires Valid() && n in ring
      ensures n.Endp() <= SIZEOF_MEMNODE + MAX_REQUEST && SIZEOF_MEMNODE <= n.firstAvail
    {
      assert allocator.Live(n);
      assert n in Nodes();
    }

    /** The node becomes active, the block is cut from it, and the former active node finds its place. */
    method SwitchTo(node: MemNode, size: nat, ghost rest: seq<MemNode>) returns (off: nat)
      requires Ready(node, rest, size) && OnBoundary(size)
      modifies this`active, this`ring, this`blocks, Elems([node] + rest)
      ensures Valid() && blocks == old(blocks) + [Block(node, off, size)] && Nodes() == Elems([node] + rest) && off == old(node.firstAvail)
    {
      var a := active;
      off := Activate(node, size, rest);
      Finish(a);
    }

    method ExtendRing(size: nat) returns (node: MemNode, off: nat)
      requires Valid() && |ring| >= 2 && ring[1].firstAvail + size <= ring[1].Endp() && OnBoundary(size)
      modifies this`active, this`ring, this`blocks, Nodes()
      ensures Valid() && blocks == old(blocks) + [Block(node, off, size)] && Nodes() == old(Nodes())
      ensures node == old(ring)[1] && off == old(ring[1].firstAvail)
    {
      ghost var rest;
      node, rest := TakeNext(size);
      off := SwitchTo(node, size, rest);
    }

    method ExtendNew(size: nat, ghost held: set<MemNode>) returns (ok: bool, node: MemNode, off: nat)
      requires Valid() && size < WORD64 && OnBoundary(size) && Apart(held)
      modifies this`active, this`ring, this`blocks, allocator, Nodes(), allocator.CachedNodes()
      ensures Valid() && (ok <==> size <= MAX_REQUEST) && Apart(held)
      ensures ok ==> node !in old(ring)
      ensures blocks == if ok then old(blocks) + [Block(node, off, size)] else old(blocks)
      ensures allocator.CachedNodes() <= old(allocator.CachedNodes()) && fresh(Nodes() - old(Nodes() + allocator.CachedNodes()))
    {
      node, off := active, 0;
      var newNode := AllocNode(size, held);
      ok := newNode != null;
      if newNode != null {
        node := newNode;
        off := SwitchTo(newNode, size, ring);
        StillApart(held);
      }
    }

    /** The slow path of palloc: a node from the ring or the allocator becomes active. */
    method Extend(size: nat, ghost held: set<MemNode>) returns (ok: bool, node: MemNode, off: nat)
      requires Valid() && Apart(held) && size < WORD64 && OnBoundary(size) && active.firstAvail + size > active.Endp()
      modifies this`active, this`ring, this`blocks, allocator, Nodes(), allocator.CachedNodes()
      ensures Valid() && (ok <==> size <= MAX_REQUEST) && Apart(held)
      ensures ok && |old(ring)| >= 2 && size <= old(Room(ring[1])) ==> node == old(ring)[1] && off == old(ring[1].firstAvail)
      ensures ok && (|old(ring)| >= 2 ==> size > old(Room(ring[1]))) ==> node !in old(ring)
      ensures blocks == if ok then old(blocks) + [Block(node, off, size)] else old(blocks)
      ensures allocator.CachedNodes() <= old(allocator.CachedNodes()) && fresh(Nodes() - old(Nodes() + allocator.CachedNodes()))
    {
      RingAt(LinksOf(Nodes()), ring, 0);
      node := active.next;
      if size <= node.Endp() - node.firstAvail {
        RoomBound(node);
        node, off := ExtendRing(size);
        StillApart(held);
        ok := true;
      } else {
        ok, node, off := ExtendNew(size, held);
      }
    }

    lemma AlignFacts(inSize: nat)
      requires inSize < WORD64
      ensures var size := AlignDefault(inSize); size < WORD64 && OnBoundary(size) && (size >= inSize ==> size < inSize + ALIGNMENT)
      ensures inSize <= MAX_REQUEST <==> AlignDefault(inSize) >= inSize && AlignDefault(inSize) <= MAX_REQUEST
    {
    }

    /**
      palloc at the default alignment, for every 64-bit size: it succeeds exactly up to MAX_REQUEST, and
      then the block is new, large enough, inside its node and apart from every block handed out before.
     */
    method PAlloc(inSize: nat, ghost held: set<MemNode> := {}) returns (ok: bool, node: MemNode, off: nat)
      requires Valid() && inSize < WORD64 && Apart(held)
      modifies this`active, this`ring, this`blocks, allocator, Nodes(), allocator.CachedNodes()
      ensures Valid() && (ok <==> inSize <= MAX_REQUEST) && Apart(held)
      ensures ok ==> exists len :: inSize <= len < inSize + 16 && OnBoundary(off) && blocks == old(blocks) + [Block(node, off, len)]
      ensures ok && AlignDefault(inSize) <= old(Room(active)) ==> node == old(active) && off == old(active.firstAvail)
      ensures ok && AlignDefault(inSize) > old(Room(active)) && |old(ring)| >= 2 && AlignDefault(inSize) <= old(Room(ring[1])) ==>
        node == old(ring)[1] && off == old(ring[1].firstAvail)
      ensures ok && AlignDefault(inSize) > old(Room(active)) && (|old(ring)| >= 2 ==> AlignDefault(inSize) > old(Room(ring[1]))) ==>
        node !in old(ring)
      ensures !ok ==> blocks == old(blocks)
      ensures allocator.CachedNodes() <= old(allocator.CachedNodes()) && fresh(Nodes() - old(Nodes() + allocator.CachedNodes()))
    {
      AlignFacts(inSize);
      var size := AlignDefault(inSize);
      node, off := active, 0;
      if size < inSize {
        return false, node, off;
      }
      RoomBound(active);
      if size <= active.Endp() - active.firstAvail {
        off := Bump(active, size, Nodes());
        return true, active, off;
      }
      ok, node, off := Extend(size, held);
    }

    /** palloc from the pool's own node when it has room. */
    method PAllocSelf(inSize: nat, ghost held: set<MemNode> := {}) returns (ok: bool, node: MemNode, off: nat)
      requires Valid() && inSize < WORD64 && Apart(held)
      modifies this`active, this`ring, this`blocks, allocator, Nodes(), allocator.CachedNodes()
      ensures Valid() && (ok <==> inSize <= MAX_REQUEST) && Apart(held)
      ensures ok ==> exists len :: inSize <= len < inSize + 16 && OnBoundary(off) && blocks == old(blocks) + [Block(node, off, len)]
      ensures ok && AlignDefault(inSize) <= old(Room(self)) ==> node == self && off == old(self.firstAvail)
      ensures !ok ==> blocks == old(blocks)
      ensures allocator.CachedNodes() <= old(allocator.CachedNodes()) && fresh(Nodes() - old(Nodes() + allocator.CachedNodes()))
    {
      AlignFacts(inSize);
      var size := AlignDefault(inSize);
      if size < inSize {
        return false, self, 0;
      }
      RoomBound(self);
      if size <= self.Endp() - self.firstAvail {
        off := Bump(self, size, Nodes());
        return true, self, off;
      }
      ok, node, off := PAlloc(inSize, held);
    }

    method PAllocEither(r: Request, ghost held: set<MemNode> := {}) returns (ok: bool, node: MemNode, off: nat)
      requires Valid() && r.size < WORD64 && Apart(held)
      modifies this`active, this`ring, this`blocks, allocator, Nodes(), allocator.CachedNodes()
      ensures Valid() && (ok <==> r.size <= MAX_REQUEST) && Apart(held)
      ensures ok ==> exists len :: r.size <= len < r.size + ALIGNMENT && blocks == old(blocks) + [Block(node, off, len)]
      ensures !ok ==> blocks == old(blocks)
      ensures allocator.CachedNodes() <= old(allocator.CachedNodes()) && fresh(Nodes() - old(Nodes() + allocator.CachedNodes()))
    {
      if r.own {
        ok, node, off := PAllocSelf(r.size, held);
      } else {
        ok, node, off := PAlloc(r.size, held);
      }
    }

    /** Any run of palloc and palloc_self: the blocks of all of it are apart, inside their nodes and large enough, and
        the ring is one cycle in order. */
    method PAllocRun(reqs: seq<Request>, ghost held: set<MemNode> := {}) returns (ghost got: seq<Block>)
      requires Valid() && Apart(held) && forall i :: 0 <= i < |reqs| ==> reqs[i].size < WORD64
      modifies this`active, this`ring, this`blocks, allocator, Nodes(), allocator.CachedNodes()
      ensures Valid() && Apart(held) && blocks == old(blocks) + got && Serves(reqs, got)
      ensures allocator.CachedNodes() <= old(allocator.CachedNodes()) && fresh(Nodes() - old(Nodes() + allocator.CachedNodes()))
    {
      got := [];
      var i := 0;
      while i < |reqs|
        invariant i <= |reqs| && Valid() && Apart(held) && blocks == old(blocks) + got && Serves(reqs[..i], got)
        invariant allocator.CachedNodes() <= old(allocator.CachedNodes()) && fresh(Nodes() - old(Nodes() + allocator.CachedNodes()))
      {
        got := PAllocNext(reqs, i, old(blocks), got, held);
        i := i + 1;
      }
      assert reqs[..i] == reqs;
    }

    method PAllocNext(reqs: seq<Request>, i: nat, ghost bs: seq<Block>, ghost got0: seq<Block>, ghost held: set<MemNode>)
        returns (ghost got: seq<Block>)
      requires Valid() && Apart(held) && i < |reqs| && reqs[i].size < WORD64 && blocks == bs + got0 && Serves(reqs[..i], got0)
      modifies this`active, this`ring, this`blocks, allocator, Nodes(), allocator.CachedNodes()
      ensures Valid() && Apart(held) && blocks == bs + got && Serves(reqs[..i + 1], got)
      ensures allocator.CachedNodes() <= old(allocator.CachedNodes()) && fresh(Nodes() - old(Nodes() + allocator.CachedNodes()))
    {
      got := got0;
      assert reqs[..i + 1] == reqs[..i] + [reqs[i]];
      var ok, node, off := PAllocEither(reqs[i], held);
      if ok {
        got := got + [blocks[|blocks| - 1]];
        assert blocks == bs + got;
      }
      ServesNext(reqs[..i], got0, reqs[i], if ok then blocks[|blocks| - 1] else Block(node, 0, 0));
    }

    // ---- giving nodes back ----

    /** The nodes of the list that starts at first, in order. */
    static method Collect(first: MemNode?, ghost list: seq<MemNode>) returns (nodes: seq<MemNode>)
      requires first == ListAt(list, 0) && forall i :: 0 <= i < |list| ==> list[i].next == ListAt(list, i + 1)
      ensures nodes == list
    {
      var node := first;
      nodes := [];
      ghost var i := 0;
      while node != null
        invariant i <= |list| && nodes == list[..i] && node == ListAt(list, i)
        decreases |list| - i
      {
        assert list[..i + 1] == list[..i] + [list[i]];
        nodes, node, i := nodes + [node], node.next, i + 1;
      }
    }

    lemma FromSelf(mem: Links) returns (rot: seq<MemNode>)
      requires mem == LinksOf(Nodes()) && Ring(mem, ring) && self in ring
      ensures Ring(mem, rot) && rot[0] == self && Elems(rot) == Nodes() && |rot| == |ring|
      ensures self.prev == rot[|rot| - 1] && self.next == Succ(rot, 0)
    {
      var k :| 0 <= k < |ring| && ring[k] == self;
      rot := Turned(ring, k);
      TurnedRing(mem, ring, k);
      TurnElems(ring, k);
    }

    /** The ring, opened behind its last node, read as a list from self on. */
    method OpenRing() returns (ghost rot: seq<MemNode>)
      requires Ring(LinksOf(Nodes()), ring) && self in ring
      modifies set n | n in ring :: n`next
      ensures rot != [] && rot[0] == self && Elems(rot) == Nodes() && |rot| == |ring| && NoDup(rot)
      ensures forall i :: 0 <= i < |rot| ==> rot[i].next == ListAt(rot, i + 1)
    {
      ghost var mem := LinksOf(Nodes());
      rot := FromSelf(mem);
      forall i | 0 <= i < |rot| ensures rot[i] in Nodes() && (i + 1 < |rot| ==> rot[i].next == rot[i + 1]) {
        assert rot[i] in Elems(rot);
        RingAt(mem, rot, i);
      }
      self.prev.next := null;
    }

    /** ~Pool's hand-back: every node of the pool goes to the allocator exactly once, and none stays in use. */
    method ReleaseNodes(ghost held: set<MemNode> := {}) returns (ghost nodes: seq<MemNode>)
      requires Valid() && Apart(held)
      modifies set n | n in ring :: n`next, allocator
      ensures Apart(held) && allocator.max == old(allocator.max) && allocator.LiveSet() == old(allocator.LiveSet()) - Elems(nodes)
      ensures NoDup(nodes) && Elems(nodes) == old(Nodes()) && |nodes| == |old(ring)|
      ensures allocator.Valid() && allocator.Cache() == FreeAll(old(allocator.Cache()), allocator.max, nodes)
      ensures forall n :: n in old(ring) ==> !allocator.Live(n)
      ensures allocator.CachedNodes() <= old(allocator.CachedNodes()) + Elems(nodes)
    {
      ghost var rot := OpenRing();
      forall n | n in rot ensures allocator.Live(n) { assert n in Elems(rot); }
      var list := Collect(self, rot);
      nodes := list;
      allocator.Free(list);
      forall n | n in old(ring) ensures !allocator.Live(n) { assert n in Elems(rot); }
      forall n | n in held ensures allocator.Live(n) { assert n !in Elems(rot); }
    }

    lemma Alone()
      requires Ring(LinksOf(Nodes()), ring) && self in ring && self.next == self
      ensures ring == [self]
    {
      var rot := FromSelf(LinksOf(Nodes()));
      OnlyOne(rot);
      assert ring[0] in Elems(rot);
    }

    /** The nodes after self go to the allocator. */
    method ReleaseOthers(ghost held: set<MemNode>) returns (ghost nodes: seq<MemNode>)
      requires Valid() && self.next != self && Apart(held)
      modifies set n | n in ring :: n`next, allocator
      ensures allocator.max == old(allocator.max) && (forall n :: n in held ==> allocator.Live(n))
      ensures allocator.LiveSet() == old(allocator.LiveSet()) - Elems(nodes)
      ensures NoDup(nodes) && Elems(nodes) == old(Nodes()) - {self} && allocator.Valid() && allocator.Live(self)
      ensures allocator.Cache() == FreeAll(old(allocator.Cache()), allocator.max, nodes) && forall n :: n in nodes ==> !allocator.Live(n)
      ensures allocator.CachedNodes() <= old(allocator.CachedNodes()) + Elems(nodes)
    {
      ghost var rot := OpenRing();
      nodes := rot[1..];
      OthersOf(rot);
      forall n | n in rot ensures allocator.Live(n) { assert n in Elems(rot); }
      var list := Collect(self.next, rot[1..]);
      if list != [] {
        allocator.Free(list);
      }
      forall n | n in held ensures allocator.Live(n) { assert n !in Elems(rot); }
    }

    static lemma OthersOf(rot: seq<MemNode>)
      requires rot != [] && NoDup(rot)
      ensures NoDup(rot[1..]) && Elems(rot[1..]) == Elems(rot) - {rot[0]}
    {
      assert rot == [rot[0]] + rot[1..];
      forall n ensures n in rot[1..] <==> n in rot && n != rot[0] {
        assert n in rot <==> n == rot[0] || n in rot[1..];
      }
    }

    /** The memory part of clear: only the pool's own node stays, reset; the others go to the allocator exactly once. */
    method ClearNodes(ghost held: set<MemNode> := {}) returns (ghost nodes: seq<MemNode>)
      requires Valid() && Apart(held)
      modifies this`active, this`ring, this`blocks, Nodes(), allocator
      ensures Valid() && ring == [self] && blocks == [] && Apart(held)
      ensures allocator.max == old(allocator.max) && allocator.LiveSet() == old(allocator.LiveSet()) - Elems(nodes)
      ensures NoDup(nodes) && Elems(nodes) == old(Nodes()) - {self}
      ensures allocator.Cache() == FreeAll(old(allocator.Cache()), allocator.max, nodes)
      ensures forall n :: n in nodes ==> !allocator.Live(n)
      ensures allocator.CachedNodes() <= old(allocator.CachedNodes()) + Elems(nodes)
    {
      assert allocator.Live(self) && self !in held;
      if self.next == self {
        Alone();
        nodes := [];
      } else {
        nodes := ReleaseOthers(held);
      }
      Reset();
    }

    method Reset()
      requires allocator.Valid() && allocator.Live(self)
      modifies this`active, this`ring, this`blocks, self
      ensures Valid() && ring == [self] && blocks == []
    {
      active := self;
      self.firstAvail := SIZEOF_MEMNODE + SIZEOF_POOL;
      self.next := self;
      self.prev := self;
      ring, blocks := [self], [];
    }
  }
}
