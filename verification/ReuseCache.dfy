/** The pool's cache of freed blocks, kept by size. */
module ReuseCaches {
  import opened Common
  import opened MemNodes
  import opened FreeLists
  import opened Allocators
  import opened NodeRing
  import opened Pools

  const SIZEOF_MEMADDR := 24
  const MAX_CACHED := 0x20_0000

  /** A cached block: its size and where it is. */
  datatype Addr = Addr(size: nat, node: MemNode, off: nat)

  ghost predicate BySize(s: seq<Addr>) { forall i, j :: 0 <= i < j < |s| ==> s[i].size <= s[j].size }

  /** The first block that fits, or |s|: the scan gives up at the first block more than twice too large. */
  method FindFit(s: seq<Addr>, req: nat) returns (k: nat)
    requires BySize(s) && req < WORD64 && forall a :: a in s ==> a.size <= MAX_CACHED
    ensures k <= |s| && (k < |s| ==> req <= s[k].size <= 2 * req)
    ensures forall j :: 0 <= j < |s| && req <= s[j].size <= 2 * req ==> k < |s| && k <= j && s[k].size <= s[j].size
  {
    k := 0;
    while k < |s|
      invariant k <= |s| && forall j :: 0 <= j < k ==> s[j].size < req
    {
      if s[k].size > (req * 2) % WORD64 {
        assert req * 2 < WORD64 || s[k].size < req;
        if req * 2 >= WORD64 {
          forall j | 0 <= j < |s| ensures s[j].size < req { assert s[j] in s; }
        }
        return |s|;
      } else if s[k].size >= req {
        return;
      }
      k := k + 1;
    }
  }

  function Insert(s: seq<Addr>, k: nat, a: Addr): seq<Addr>
    requires k <= |s|
  {
    s[..k] + [a] + s[k..]
  }

  /** Where a block of this size goes: before the first that is not smaller. */
  method ShelfPlace(s: seq<Addr>, size: nat) returns (k: nat)
    requires BySize(s)
    ensures k <= |s| && (forall j :: 0 <= j < k ==> s[j].size < size) && forall j :: k <= j < |s| ==> s[j].size >= size
  {
    k := 0;
    while k < |s| && s[k].size < size
      invariant k <= |s| && forall j :: 0 <= j < k ==> s[j].size < size
    {
      k := k + 1;
    }
  }

  /** The block stands at k, in front of all that are not smaller. */
  ghost predicate FiledAt(s: seq<Addr>, s': seq<Addr>, a: Addr, k: nat)
  {
    && k <= |s| && s' == s[..k] + [a] + s[k..] && (forall j :: 0 <= j < k ==> s[j].size < a.size)
    && forall j :: k <= j < |s| ==> s[j].size >= a.size
  }

  ghost predicate FiledIn(s: seq<Addr>, s': seq<Addr>, a: Addr) { exists k :: FiledAt(s, s', a, k) }

  lemma InsertBySize(s: seq<Addr>, k: nat, a: Addr)
    requires BySize(s) && k <= |s| && (forall j :: 0 <= j < k ==> s[j].size < a.size) && forall j :: k <= j < |s| ==> s[j].size >= a.size
    ensures BySize(Insert(s, k, a))
  {
  }

  /**
    The books: cached blocks and, for each, which of the pool's blocks it is; the blocks in use with their
    sizes; the blocks that hold records; the number of records free for reuse.
   */
  datatype Book = Book(buffered: seq<Addr>, where: seq<nat>, live: map<nat, nat>, records: set<nat>, spare: nat)

  ghost predicate Inside(bs: seq<Block>, node: MemNode, off: nat, size: nat, ix: nat)
  {
    ix < |bs| && bs[ix].node == node && bs[ix].off == off && size <= bs[ix].len
  }

  ghost predicate Shelved(bs: seq<Block>, k: Book, i: nat)
    requires i < |k.buffered| == |k.where|
  {
    && Inside(bs, k.buffered[i].node, k.buffered[i].off, k.buffered[i].size, k.where[i])
    && k.where[i] !in k.live && k.where[i] !in k.records && 0 < k.buffered[i].size <= MAX_CACHED
  }

  /** Cached blocks, blocks in use and records are different blocks of the pool; records are neither lost nor made up. */
  ghost predicate Balanced(bs: seq<Block>, k: Book)
  {
    && |k.where| == |k.buffered| && NoDup(k.where) && BySize(k.buffered)
    && (forall i {:trigger Shelved(bs, k, i)} :: 0 <= i < |k.where| ==> Shelved(bs, k, i))
    && (forall ix :: ix in k.live ==> ix < |bs| && ix !in k.records && k.live[ix] <= bs[ix].len)
    && (forall ix :: ix in k.records ==> ix < |bs|) && |k.records| == |k.buffered| + k.spare
  }

  function Take(k: Book, i: nat): Book
    requires i < |k.buffered| == |k.where|
  {
    Book(Without(k.buffered, i), Without(k.where, i), k.live[k.where[i] := k.buffered[i].size], k.records, k.spare + 1)
  }

  lemma TakeBalanced(bs: seq<Block>, k: Book, i: nat)
    requires Balanced(bs, k) && i < |k.buffered|
    ensures Balanced(bs, Take(k, i)) && Shelved(bs, k, i)
  {
    var k' := Take(k, i);
    assert Shelved(bs, k, i);
    forall j {:trigger Shelved(bs, k', j)} | 0 <= j < |k'.where| ensures Shelved(bs, k', j) {
      assert Shelved(bs, k, if j < i then j else j + 1);
    }
  }

  /** A new block of the pool changes nothing about the others. */
  lemma GrowBalanced(bs: seq<Block>, k: Book, b: Block)
    requires Balanced(bs, k)
    ensures Balanced(bs + [b], k)
  {
    forall j {:trigger Shelved(bs + [b], k, j)} | 0 <= j < |k.where| ensures Shelved(bs + [b], k, j) { assert Shelved(bs, k, j); }
  }

  lemma LendBalanced(bs: seq<Block>, k: Book, ix: nat, size: nat)
    requires Balanced(bs, k) && ix < |bs| && size <= bs[ix].len && ix !in k.live && ix !in k.records && ix !in k.where
    ensures Balanced(bs, k.(live := k.live[ix := size]))
  {
    var k' := k.(live := k.live[ix := size]);
    forall j {:trigger Shelved(bs, k', j)} | 0 <= j < |k'.where| ensures Shelved(bs, k', j) { assert Shelved(bs, k, j); }
  }

  lemma RecordBalanced(bs: seq<Block>, k: Book, ix: nat)
    requires Balanced(bs, k) && ix < |bs| && ix !in k.live && ix !in k.records && ix !in k.where
    ensures Balanced(bs, k.(records := k.records + {ix}, spare := k.spare + 1))
  {
    var k' := k.(records := k.records + {ix}, spare := k.spare + 1);
    forall j {:trigger Shelved(bs, k', j)} | 0 <= j < |k'.where| ensures Shelved(bs, k', j) { assert Shelved(bs, k, j); }
  }

  function Shelve(k: Book, i: nat, a: Addr, ix: nat): Book
    requires i <= |k.buffered| == |k.where| && k.spare > 0
  {
    Book(Insert(k.buffered, i, a), k.where[..i] + [ix] + k.where[i..], k.live - {ix}, k.records, k.spare - 1)
  }

  lemma ShelveBalanced(bs: seq<Block>, k: Book, i: nat, a: Addr, ix: nat)
    requires Balanced(bs, k) && i <= |k.buffered| && k.spare > 0 && ix in k.live && 0 < a.size <= MAX_CACHED && Inside(bs, a.node, a.off, a.size, ix)
    requires (forall j :: 0 <= j < i ==> k.buffered[j].size < a.size) && forall j :: i <= j < |k.buffered| ==> k.buffered[j].size >= a.size
    ensures Balanced(bs, Shelve(k, i, a, ix))
  {
    var k' := Shelve(k, i, a, ix);
    InsertBySize(k.buffered, i, a);
    NewOnShelf(bs, k, ix);
    forall j {:trigger Shelved(bs, k', j)} | 0 <= j < |k'.where| ensures Shelved(bs, k', j) {
      if j != i { assert Shelved(bs, k, if j < i then j else j - 1); }
    }
  }

  lemma NewOnShelf(bs: seq<Block>, k: Book, ix: nat)
    requires Balanced(bs, k) && (ix in k.live || ix >= |bs|)
    ensures forall j :: 0 <= j < |k.where| ==> k.where[j] != ix
  {
    forall j | 0 <= j < |k.where| ensures k.where[j] != ix { assert Shelved(bs, k, j); }
  }

  function Region(a: Addr): Block { Block(a.node, a.off, a.size) }

  function Lent(bs: seq<Block>, ix: nat, size: nat): Block
    requires ix < |bs|
  {
    Block(bs[ix].node, bs[ix].off, size)
  }

  /** Cached blocks, blocks in use and records never overlap. */
  lemma NeverOverlap(bs: seq<Block>, k: Book)
    requires AllDisjoint(bs) && Balanced(bs, k)
    ensures forall i, j :: 0 <= i < j < |k.buffered| ==> Disjoint(Region(k.buffered[i]), Region(k.buffered[j]))
    ensures forall i, ix :: 0 <= i < |k.buffered| && ix in k.live ==> ix < |bs| && Disjoint(Region(k.buffered[i]), Lent(bs, ix, k.live[ix]))
    ensures forall ix, iy :: ix in k.live && iy in k.live && ix < iy ==> iy < |bs| && Disjoint(Lent(bs, ix, k.live[ix]), Lent(bs, iy, k.live[iy]))
    ensures forall ix, r :: ix in k.live && r in k.records ==> ix < |bs| && r < |bs| && Disjoint(Lent(bs, ix, k.live[ix]), bs[r])
    ensures forall i, r :: 0 <= i < |k.buffered| && r in k.records ==> r < |bs| && Disjoint(Region(k.buffered[i]), bs[r])
  {
    forall i, j | 0 <= i < j < |k.buffered| ensures Disjoint(Region(k.buffered[i]), Region(k.buffered[j])) {
      assert Shelved(bs, k, i) && Shelved(bs, k, j);
      OtherBlock(bs, k.where[i], k.where[j]);
    }
    forall i, ix | 0 <= i < |k.buffered| && ix in k.live ensures Disjoint(Region(k.buffered[i]), Lent(bs, ix, k.live[ix])) {
      assert Shelved(bs, k, i);
      OtherBlock(bs, k.where[i], ix);
    }
    forall i, r | 0 <= i < |k.buffered| && r in k.records ensures Disjoint(Region(k.buffered[i]), bs[r]) {
      assert Shelved(bs, k, i);
      OtherBlock(bs, k.where[i], r);
    }
    forall ix, r | ix in k.live && r in k.records ensures Disjoint(Lent(bs, ix, k.live[ix]), bs[r]) { OtherBlock(bs, ix, r); }
    forall ix, iy | ix in k.live && iy in k.live && ix < iy
      ensures Disjoint(Lent(bs, ix, k.live[ix]), Lent(bs, iy, k.live[iy]))
    {
      OtherBlock(bs, ix, iy);
    }
  }

  lemma OtherBlock(bs: seq<Block>, i: nat, j: nat)
    requires AllDisjoint(bs) && i < |bs| && j < |bs| && i != j
    ensures Disjoint(bs[i], bs[j])
  {
    assert i < j ==> Disjoint(bs[i], bs[j]);
    assert j < i ==> Disjoint(bs[j], bs[i]);
  }

  class AllocManager {
    const pool: Pool
    var buffered: seq<Addr>
    /** Records free for reuse. */
    var freeBuffered: nat
    var allocatedBytes: nat
    var returnedBytes: nat
    ghost var where: seq<nat>
    ghost var live: map<nat, nat>
    ghost var records: set<nat>

    ghost function Books(): Book reads this { Book(buffered, where, live, records, freeBuffered) }

    constructor (pool: Pool)
      requires pool.Valid()
      ensures Valid() && this.pool == pool && buffered == [] && live == map[]
    {
      this.pool, buffered, freeBuffered, allocatedBytes, returnedBytes := pool, [], 0, 0, 0;
      where, live, records := [], map[], {};
    }

    ghost predicate Valid()
      reads this, pool, pool.Nodes(), pool.allocator
    {
      pool.Valid() && Balanced(pool.blocks, Books())
    }

    ghost predicate HasFit(req: nat)
      reads this`buffered
    {
      exists j :: 0 <= j < |buffered| && req <= buffered[j].size <= 2 * req
    }

    /** The i-th cached block, taken for use; its record is kept for reuse. */
    method TakeBuffered(i: nat) returns (a: Addr)
      requires i < |buffered| == |where|
      modifies this
      ensures a == old(buffered)[i] && Books() == Take(old(Books()), i)
      ensures multiset(old(buffered)) == multiset(buffered) + multiset{a}
      ensures allocatedBytes == old(allocatedBytes) && returnedBytes == old(returnedBytes) + a.size
    {
      a := buffered[i];
      assert buffered == buffered[..i] + [buffered[i]] + buffered[i + 1..];
      live := live[where[i] := a.size];
      buffered := Without(buffered, i);
      where := Without(where, i);
      freeBuffered := freeBuffered + 1;
      returnedBytes := returnedBytes + a.size;
    }

    method Lend(ghost ix: nat, size: nat)
      requires pool.Valid()
      modifies this`live, this`allocatedBytes
      ensures pool.Valid() && pool.blocks == old(pool.blocks) && Books() == old(Books()).(live := old(live)[ix := size])
      ensures allocatedBytes == old(allocatedBytes) + size
    {
      live := live[ix := size];
      allocatedBytes := allocatedBytes + size;
    }

    method AddRecord(ghost ix: nat)
      requires pool.Valid()
      modifies this`records, this`freeBuffered, this`allocatedBytes
      ensures pool.Valid() && pool.blocks == old(pool.blocks) && allocatedBytes == old(allocatedBytes) + 24
      ensures Books() == old(Books()).(records := old(records) + {ix}, spare := old(freeBuffered) + 1)
    {
      allocatedBytes := allocatedBytes + SIZEOF_MEMADDR;
      freeBuffered := freeBuffered + 1;
      records := records + {ix};
    }

    /** A block of the pool, taken for use. */
    method TakeNew(req: nat, ghost held: set<MemNode> := {}) returns (ok: bool, node: MemNode, off: nat, ghost ix: nat)
      requires Valid() && req < WORD64 && pool.Apart(held)
      modifies this`live, this`allocatedBytes, pool, pool.allocator, pool.Nodes(), pool.allocator.CachedNodes()
      ensures Valid() && (ok <==> req <= MAX_REQUEST) && buffered == old(buffered) && allocatedBytes == old(allocatedBytes) + req
      ensures !ok ==> live == old(live)
      ensures ok ==> ix !in old(live) && live == old(live)[ix := req] && Inside(pool.blocks, node, off, req, ix)
      ensures pool.Apart(held)
      ensures pool.allocator.CachedNodes() <= old(pool.allocator.CachedNodes())
      ensures fresh(pool.Nodes() - old(pool.Nodes() + pool.allocator.CachedNodes()))
      ensures old(pool.blocks) <= pool.blocks
    {
      ghost var bs, k := pool.blocks, Books();
      ix := |bs|;
      NewOnShelf(bs, k, ix);
      ghost var was := allocatedBytes;
      ok, node, off := pool.PAlloc(req, held);
      assert Books() == k && allocatedBytes == was;
      if ok {
        NewLent(bs, k, pool.blocks, req);
        Lend(ix, req);
      } else {
        allocatedBytes := allocatedBytes + req;
      }
    }

    lemma NewLent(bs: seq<Block>, k: Book, bs': seq<Block>, req: nat)
      requires Balanced(bs, k) && |bs'| == |bs| + 1 && bs' == bs + [bs'[|bs|]] && req <= bs'[|bs|].len
      ensures Balanced(bs', k.(live := k.live[|bs| := req]))
    {
      NewOnShelf(bs, k, |bs|);
      GrowBalanced(bs, k, bs'[|bs|]);
      LendBalanced(bs', k, |bs|, req);
    }

    lemma NewRecord(bs: seq<Block>, k: Book, bs': seq<Block>)
      requires Balanced(bs, k) && |bs'| == |bs| + 1 && bs' == bs + [bs'[|bs|]]
      ensures Balanced(bs', k.(records := k.records + {|bs|}, spare := k.spare + 1))
    {
      NewOnShelf(bs, k, |bs|);
      GrowBalanced(bs, k, bs'[|bs|]);
      RecordBalanced(bs', k, |bs|);
    }

    /**
      A block of at least req bytes: the smallest cached one of at most twice that size if there is one,
      and otherwise a new block of the pool. It was not in use before.
     */
    method Alloc(req: nat, ghost held: set<MemNode> := {}) returns (ok: bool, node: MemNode, off: nat, granted: nat, ghost ix: nat)
      requires Valid() && req < WORD64 && pool.Apart(held)
      modifies this, pool, pool.allocator, pool.Nodes(), pool.allocator.CachedNodes()
      ensures Valid() && (ok <==> old(HasFit(req)) || req <= MAX_REQUEST)
      ensures ok ==> req <= granted && ix !in old(live) && live == old(live)[ix := granted] && Inside(pool.blocks, node, off, granted, ix)
      ensures ok && !old(HasFit(req)) ==> granted == req && buffered == old(buffered)
      ensures ok && old(HasFit(req)) ==> Addr(granted, node, off) in old(buffered) && granted <= 2 * req
      ensures ok ==> forall j :: 0 <= j < |old(buffered)| && req <= old(buffered)[j].size <= 2 * req ==> granted <= old(buffered)[j].size
      ensures ok && old(HasFit(req)) ==> multiset(old(buffered)) == multiset(buffered) + multiset{Addr(granted, node, off)}
      ensures allocatedBytes == old(allocatedBytes) + (if old(HasFit(req)) then 0 else req)
      ensures returnedBytes == old(returnedBytes) + if old(HasFit(req)) then granted else 0
      ensures pool.Apart(held)
      ensures pool.allocator.CachedNodes() <= old(pool.allocator.CachedNodes())
      ensures fresh(pool.Nodes() - old(pool.Nodes() + pool.allocator.CachedNodes()))
      ensures old(pool.blocks) <= pool.blocks && (!ok ==> live == old(live) && buffered == old(buffered))
    {
      Small(pool.blocks, Books());
      var k := FindFit(buffered, req);
      if k < |buffered| {
        TakeBalanced(pool.blocks, Books(), k);
        ix := where[k];
        var a := TakeBuffered(k);
        return true, a.node, a.off, a.size, ix;
      }
      granted := req;
      ok, node, off, ix := TakeNew(req, held);
    }

    lemma Small(bs: seq<Block>, k: Book)
      requires Balanced(bs, k)
      ensures forall a :: a in k.buffered ==> a.size <= MAX_CACHED
    {
      forall a | a in k.buffered ensures a.size <= MAX_CACHED {
        var i :| 0 <= i < |k.buffered| && k.buffered[i] == a;
        assert Shelved(bs, k, i);
      }
    }

    /** A record: one kept for reuse, or a new block of the pool's own node. */
    method GetRecord(ghost held: set<MemNode> := {})
      requires Valid() && pool.Apart(held)
      modifies this`freeBuffered, this`records, this`allocatedBytes, pool, pool.allocator, pool.Nodes(), pool.allocator.CachedNodes()
      ensures Valid() && freeBuffered > 0 && buffered == old(buffered) && live == old(live) && old(pool.blocks) <= pool.blocks
      ensures allocatedBytes == old(allocatedBytes) + (if old(freeBuffered) == 0 then 24 else 0) && returnedBytes == old(returnedBytes)
      ensures pool.Apart(held)
      ensures pool.allocator.CachedNodes() <= old(pool.allocator.CachedNodes())
      ensures fresh(pool.Nodes() - old(pool.Nodes() + pool.allocator.CachedNodes()))
    {
      if freeBuffered == 0 {
        NewFreeRecord(held);
      }
    }

    method NewFreeRecord(ghost held: set<MemNode> := {})
      requires Valid() && pool.Apart(held)
      modifies this`freeBuffered, this`records, this`allocatedBytes, pool, pool.allocator, pool.Nodes(), pool.allocator.CachedNodes()
      ensures Valid() && freeBuffered > 0 && buffered == old(buffered) && live == old(live) && old(pool.blocks) <= pool.blocks
      ensures allocatedBytes == old(allocatedBytes) + 24
      ensures pool.Apart(held)
      ensures pool.allocator.CachedNodes() <= old(pool.allocator.CachedNodes())
      ensures fresh(pool.Nodes() - old(pool.Nodes() + pool.allocator.CachedNodes()))
    {
      ghost var bs, k := pool.blocks, Books();
      NewRecordBlock(held);
      EnterRecord(bs, k);
    }

    /** The pool's newest block is a record. */
    method EnterRecord(ghost bs: seq<Block>, ghost k: Book)
      requires pool.Valid() && Books() == k && Balanced(bs, k)
      requires |pool.blocks| == |bs| + 1 && pool.blocks == bs + [pool.blocks[|bs|]]
      modifies this`records, this`freeBuffered, this`allocatedBytes
      ensures Valid() && freeBuffered > 0 && buffered == k.buffered && live == k.live && allocatedBytes == old(allocatedBytes) + 24
    {
      NewRecord(bs, k, pool.blocks);
      AddRecord(|bs|);
    }

    method NewRecordBlock(ghost held: set<MemNode> := {})
      requires pool.Valid() && pool.Apart(held)
      modifies pool, pool.allocator, pool.Nodes(), pool.allocator.CachedNodes()
      ensures pool.Valid() && Books() == old(Books())
      ensures |pool.blocks| == |old(pool.blocks)| + 1 && pool.blocks == old(pool.blocks) + [pool.blocks[|old(pool.blocks)|]]
      ensures pool.Apart(held)
      ensures pool.allocator.CachedNodes() <= old(pool.allocator.CachedNodes())
      ensures fresh(pool.Nodes() - old(pool.Nodes() + pool.allocator.CachedNodes()))
    {
      var ok, node, off := pool.PAllocSelf(SIZEOF_MEMADDR, held);
    }

    /** A block in use, given back with the size it was granted: it goes to its place in the cache. */
    method Free(node: MemNode, off: nat, size: nat, ghost ix: nat, ghost held: set<MemNode> := {})
      requires Valid() && ix in live && live[ix] == size > 0 && Inside(pool.blocks, node, off, size, ix) && pool.Apart(held)
      modifies this, pool, pool.allocator, pool.Nodes(), pool.allocator.CachedNodes()
      ensures Valid()
      ensures old(allocatedBytes) > 0 && size <= MAX_CACHED ==>
        && live == old(live) - {ix} && Addr(size, node, off) in buffered
        && multiset(buffered) == multiset(old(buffered)) + multiset{Addr(size, node, off)}
        && FiledIn(old(buffered), buffered, Addr(size, node, off))
      ensures old(allocatedBytes) == 0 || size > MAX_CACHED ==> buffered == old(buffered) && live == old(live)
      ensures var record := old(allocatedBytes) > 0 && size <= MAX_CACHED && old(freeBuffered) == 0;
        allocatedBytes == old(allocatedBytes) + (if record then 24 else 0) && returnedBytes == old(returnedBytes)
      ensures pool.Apart(held)
      ensures pool.allocator.CachedNodes() <= old(pool.allocator.CachedNodes())
      ensures fresh(pool.Nodes() - old(pool.Nodes() + pool.allocator.CachedNodes()))
      ensures old(pool.blocks) <= pool.blocks
    {
      if allocatedBytes == 0 || size > MAX_CACHED {
        return;
      }
      Keep(Addr(size, node, off), ix, held);
    }

    /** The block joins the cache, on a record of its own. */
    method Keep(a: Addr, ghost ix: nat, ghost held: set<MemNode>)
      requires Valid() && ix in live && 0 < a.size <= MAX_CACHED && Inside(pool.blocks, a.node, a.off, a.size, ix) && pool.Apart(held)
      modifies this, pool, pool.allocator, pool.Nodes(), pool.allocator.CachedNodes()
      ensures Valid() && live == old(live) - {ix} && a in buffered && multiset(buffered) == multiset(old(buffered)) + multiset{a}
      ensures FiledIn(old(buffered), buffered, a)
      ensures allocatedBytes == old(allocatedBytes) + (if old(freeBuffered) == 0 then 24 else 0) && returnedBytes == old(returnedBytes)
      ensures pool.Apart(held)
      ensures pool.allocator.CachedNodes() <= old(pool.allocator.CachedNodes())
      ensures fresh(pool.Nodes() - old(pool.Nodes() + pool.allocator.CachedNodes()))
      ensures old(pool.blocks) <= pool.blocks
    {
      GetRecord(held);
      PutAway(a, ix);
    }

    /** The block goes to its place, on a record kept for reuse. */
    method PutAway(a: Addr, ghost ix: nat)
      requires Valid() && freeBuffered > 0 && ix in live && 0 < a.size <= MAX_CACHED && Inside(pool.blocks, a.node, a.off, a.size, ix)
      modifies this`buffered, this`where, this`live, this`freeBuffered
      ensures Valid() && live == old(live) - {ix} && a in buffered && multiset(buffered) == multiset(old(buffered)) + multiset{a}
      ensures FiledIn(old(buffered), buffered, a)
      ensures allocatedBytes == old(allocatedBytes) && returnedBytes == old(returnedBytes)
    {
      var k := ShelfPlace(buffered, a.size);
      ShelveBalanced(pool.blocks, Books(), k, a, ix);
      assert FiledAt(buffered, Insert(buffered, k, a), a, k);
      PutIn(k, a, ix);
    }

    /** clear, as far as memory goes: the pool gives its nodes back and the cache forgets every block of it. */
    method Clear(ghost held: set<MemNode> := {}) returns (ghost nodes: seq<MemNode>)
      requires Valid() && pool.Apart(held)
      modifies this, pool, pool.allocator, pool.Nodes()
      ensures Valid() && buffered == [] && live == map[] && pool.blocks == [] && pool.ring == [pool.self]
      ensures NoDup(nodes) && Elems(nodes) == old(pool.Nodes()) - {pool.self} && forall n :: n in nodes ==> !pool.allocator.Live(n)
      ensures pool.Apart(held) && pool.allocator.CachedNodes() <= old(pool.allocator.CachedNodes()) + Elems(nodes)
    {
      nodes := pool.ClearNodes(held);
      Forget();
    }

    /** reset. */
    method Forget()
      requires pool.Valid()
      modifies this
      ensures Valid() && pool.Valid() && buffered == [] && live == map[]
    {
      buffered, freeBuffered, allocatedBytes, returnedBytes := [], 0, 0, 0;
      where, live, records := [], map[], {};
    }

    method PutIn(k: nat, a: Addr, ghost ix: nat)
      requires k <= |buffered| == |where| && freeBuffered > 0
      modifies this`buffered, this`where, this`live, this`freeBuffered
      ensures Books() == Shelve(old(Books()), k, a, ix)
      ensures a in buffered && multiset(buffered) == multiset(old(buffered)) + multiset{a}
    {
      assert buffered == buffered[..k] + buffered[k..];
      freeBuffered := freeBuffered - 1;
      buffered := Insert(buffered, k, a);
      where := where[..k] + [ix] + where[k..];
      live := live - {ix};
    }
  }
}
