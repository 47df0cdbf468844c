/** Pools that share an allocator: what one of them does leaves the others sound, and no node ever has two owners. */
module PoolHouses {
  import opened Common
  import opened Latches
  import opened MemNodes
  import opened FreeLists
  import opened Allocators
  import opened NodeRing
  import opened Pools

  ghost function NodesOf(ps: set<Pool>): set<MemNode>
    reads ps
  {
    set p, n | p in ps && n in p.ring :: n
  }

  ghost predicate AllSound(ps: set<Pool>)
    reads ps, NodesOf(ps)
  {
    forall p :: p in ps ==> p.Sound()
  }

  /** No node belongs to two pools. */
  ghost predicate OneOwner(ps: set<Pool>)
    reads ps
  {
    forall p, q, n :: p in ps && q in ps && n in p.ring && n in q.ring ==> p == q
  }

  /** The nodes are in use. */
  ghost predicate AllLive(nodes: set<MemNode>, alloc: Allocator)
    reads alloc
  {
    forall n :: n in nodes ==> alloc.Live(n)
  }

  /** Every pool is sound, its nodes are in use, and no node belongs to two of them. */
  ghost predicate Housed(ps: set<Pool>, alloc: Allocator)
    reads ps, NodesOf(ps), alloc
  {
    && alloc.Valid() && AllSound(ps) && OneOwner(ps) && AllLive(NodesOf(ps), alloc)
    && forall p :: p in ps ==> p.allocator == alloc
  }

  /** The same, to be handed on. */
  ghost predicate House(ps: set<Pool>, alloc: Allocator)
    reads ps, NodesOf(ps), alloc
  {
    forall l {:trigger Lifted(l)} :: Lifted(l) ==> Housed(ps, alloc)
  }

  lemma HouseMeans(ps: set<Pool>, alloc: Allocator)
    requires House(ps, alloc)
    ensures Housed(ps, alloc)
  {
    assert Lifted(Latch);
  }

  lemma OwnNode(p: Pool, ps: set<Pool>, alloc: Allocator)
    requires House(ps, alloc) && p in ps
    ensures p.self in NodesOf(ps)
  {
    HouseMeans(ps, alloc);
    assert p.Sound();
  }

  lemma NodesIn(p: Pool, ps: set<Pool>)
    requires p in ps
    ensures NodesOf(ps) == p.Nodes() + NodesOf(ps - {p}) && p.Nodes() <= NodesOf(ps)
  {
  }

  lemma PickOut(p: Pool, ps: set<Pool>, alloc: Allocator)
    requires Housed(ps, alloc) && p in ps
    ensures p.Valid() && p.Apart(NodesOf(ps - {p})) && AllSound(ps - {p}) && OneOwner(ps - {p}) && AllLive(NodesOf(ps - {p}), alloc)
  {
    NodesIn(p, ps);
    forall n | n in p.ring
      ensures alloc.Live(n)
    {
      assert n in p.Nodes();
    }
  }

  lemma PutBackIn(p: Pool, rest: set<Pool>, alloc: Allocator)
    requires p !in rest && p.allocator == alloc && p.Valid() && p.Apart(NodesOf(rest)) && AllSound(rest) && OneOwner(rest)
    requires forall q :: q in rest ==> q.allocator == alloc
    ensures Housed(rest + {p}, alloc)
  {
    var ps := rest + {p};
    assert ps - {p} == rest;
    NodesIn(p, ps);
    forall q, n | q in rest && n in q.ring
      ensures n !in p.ring
    {
      assert n in NodesOf(rest);
    }
  }

  /** What is kept of the other pools while one of them is at work. */
  ghost predicate Others(rest: set<Pool>, alloc: Allocator)
    reads rest, NodesOf(rest)
  {
    forall l {:trigger Lifted(l)} :: Lifted(l) ==> AllSound(rest) && OneOwner(rest) && forall q :: q in rest ==> q.allocator == alloc
  }

  lemma PickHouse(p: Pool, ps: set<Pool>, alloc: Allocator)
    requires House(ps, alloc) && p in ps
    ensures p.Valid() && p.allocator == alloc && p.Apart(NodesOf(ps - {p})) && Others(ps - {p}, alloc)
  {
    HouseMeans(ps, alloc);
    PickOut(p, ps, alloc);
  }

  lemma PutHouse(p: Pool, ps: set<Pool>, alloc: Allocator)
    requires p in ps && p.allocator == alloc && p.Valid() && p.Apart(NodesOf(ps - {p})) && Others(ps - {p}, alloc)
    ensures House(ps, alloc)
  {
    assert Lifted(Latch);
    PutBackIn(p, ps - {p}, alloc);
    assert ps - {p} + {p} == ps;
  }

  // ---- one pool at work beside others ----

  lemma OutOfReach(p: Pool, held: set<MemNode>)
    requires p.Apart(held)
    ensures forall n :: n in held ==> n !in p.Nodes() && n !in p.allocator.CachedNodes()
  {
  }

  method AllocBeside(p: Pool, r: Request, ghost rest: set<Pool>) returns (ok: bool, node: MemNode, off: nat)
    requires p.Valid() && p !in rest && p.Apart(NodesOf(rest)) && AllSound(rest) && r.size < WORD64
    modifies p`active, p`ring, p`blocks, p.allocator, p.Nodes(), p.allocator.CachedNodes()
    ensures p.Valid() && p.Apart(NodesOf(rest)) && AllSound(rest) && (ok <==> r.size <= MAX_REQUEST)
    ensures ok ==> exists len :: r.size <= len < r.size + ALIGNMENT && p.blocks == old(p.blocks) + [Block(node, off, len)]
    ensures !ok ==> p.blocks == old(p.blocks)
    ensures p.allocator.CachedNodes() <= old(p.allocator.CachedNodes()) && fresh(p.Nodes() - old(p.Nodes() + p.allocator.CachedNodes()))
  {
    OutOfReach(p, NodesOf(rest));
    ok, node, off := p.PAllocEither(r, NodesOf(rest));
  }

  method ClearBeside(p: Pool, ghost rest: set<Pool>) returns (ghost nodes: seq<MemNode>)
    requires p.Valid() && p !in rest && p.Apart(NodesOf(rest)) && AllSound(rest)
    modifies p`active, p`ring, p`blocks, p.Nodes(), p.allocator
    ensures p.Valid() && p.ring == [p.self] && p.blocks == [] && p.Apart(NodesOf(rest)) && AllSound(rest)
    ensures NoDup(nodes) && Elems(nodes) == old(p.Nodes()) - {p.self} && forall n :: n in nodes ==> !p.allocator.Live(n)
    ensures p.allocator.Cache() == FreeAll(old(p.allocator.Cache()), p.allocator.max, nodes)
    ensures p.allocator.max == old(p.allocator.max) && p.allocator.LiveSet() == old(p.allocator.LiveSet()) - Elems(nodes)
    ensures p.allocator.CachedNodes() <= old(p.allocator.CachedNodes()) + Elems(nodes)
  {
    OutOfReach(p, NodesOf(rest));
    nodes := p.ClearNodes(NodesOf(rest));
  }

  method ReleaseBeside(p: Pool, ghost rest: set<Pool>) returns (ghost nodes: seq<MemNode>)
    requires p.Valid() && p !in rest && p.Apart(NodesOf(rest)) && AllSound(rest)
    modifies set n | n in p.ring :: n`next, p.allocator
    ensures p.allocator.Valid() && p.Apart(NodesOf(rest)) && AllSound(rest)
    ensures NoDup(nodes) && Elems(nodes) == p.Nodes() && forall n :: n in nodes ==> !p.allocator.Live(n)
    ensures p.allocator.max == old(p.allocator.max) && p.allocator.Cache() == FreeAll(old(p.allocator.Cache()), p.allocator.max, nodes)
    ensures p.allocator.LiveSet() == old(p.allocator.LiveSet()) - p.Nodes()
    ensures p.allocator.CachedNodes() <= old(p.allocator.CachedNodes()) + Elems(nodes)
  {
    OutOfReach(p, NodesOf(rest));
    nodes := p.ReleaseNodes(NodesOf(rest));
    assert forall n :: n in nodes ==> n in Elems(nodes);
  }

  method CreateBeside(alloc: Allocator, ghost rest: set<Pool>) returns (p: Pool)
    requires alloc.Valid() && AllSound(rest) && AllLive(NodesOf(rest), alloc)
    modifies alloc, alloc.CachedNodes()
    ensures fresh(p) && p.allocator == alloc && p.Valid() && p.Apart(NodesOf(rest)) && AllSound(rest) && |p.ring| == 1 && p.blocks == []
    ensures alloc.CachedNodes() <= old(alloc.CachedNodes()) && fresh(p.Nodes() - old(alloc.CachedNodes()))
  {
    assert forall n :: n in NodesOf(rest) ==> n !in alloc.CachedNodes();
    p := Pool.Create(alloc, NodesOf(rest));
  }

  // ---- the house ----

  /** palloc or palloc_self in one of the pools: the block is as palloc promises, and the house stands. */
  method AllocIn(p: Pool, r: Request, ghost ps: set<Pool>, alloc: Allocator) returns (ok: bool, node: MemNode, off: nat)
    requires Housed(ps, alloc) && p in ps && r.size < WORD64
    modifies p`active, p`ring, p`blocks, alloc, p.Nodes(), alloc.CachedNodes()
    ensures Housed(ps, alloc) && (ok <==> r.size <= MAX_REQUEST)
    ensures ok ==> exists len :: r.size <= len < r.size + ALIGNMENT && p.blocks == old(p.blocks) + [Block(node, off, len)]
    ensures !ok ==> p.blocks == old(p.blocks)
    ensures alloc.CachedNodes() <= old(alloc.CachedNodes()) && fresh(p.Nodes() - old(p.Nodes() + alloc.CachedNodes()))
  {
    PickOut(p, ps, alloc);
    ok, node, off := AllocBeside(p, r, ps - {p});
    PutBackIn(p, ps - {p}, alloc);
    assert ps - {p} + {p} == ps;
  }

  /** What the allocator knows. */
  datatype Account = Account(cache: Store, live: set<MemNode>, max: nat)

  ghost function AccountOf(alloc: Allocator): Account
    reads alloc
  {
    Account(alloc.Cache(), alloc.LiveSet(), alloc.max)
  }

  /** The nodes were handed to the allocator, each once, in the order of freed, and are in use no more; nothing else
      changed hands. */
  ghost predicate Handed(a: Account, b: Account, freed: seq<MemNode>, nodes: set<MemNode>)
  {
    forall l {:trigger Lifted(l)} :: Lifted(l) ==>
      && |a.cache.buf| == MAX_INDEX && NoDup(freed) && Elems(freed) == nodes && CachedOf(b.cache) <= CachedOf(a.cache) + nodes
      && b == Account(FreeAll(a.cache, a.max, freed), a.live - nodes, a.max)
  }

  /** What it says. */
  lemma HandedMeans(a: Account, b: Account, freed: seq<MemNode>, nodes: set<MemNode>)
    requires Handed(a, b, freed, nodes)
    ensures |a.cache.buf| == MAX_INDEX && NoDup(freed) && Elems(freed) == nodes && CachedOf(b.cache) <= CachedOf(a.cache) + nodes
    ensures b == Account(FreeAll(a.cache, a.max, freed), a.live - nodes, a.max)
  {
    assert Lifted(Latch);
  }

  lemma HandedNone(a: Account)
    requires |a.cache.buf| == MAX_INDEX
    ensures Handed(a, a, [], {})
  {
  }

  lemma HandedOn(a: Account, b: Account, c: Account, f: seq<MemNode>, g: seq<MemNode>, m: set<MemNode>, n: set<MemNode>)
    requires Handed(a, b, f, m) && Handed(b, c, g, n) && m !! n
    ensures Handed(a, c, f + g, m + n)
  {
    HandedMeans(a, b, f, m);
    HandedMeans(b, c, g, n);
    FreeAllJoin(a.cache, a.max, f, g);
    forall i, j | 0 <= i < j < |f + g|
      ensures (f + g)[i] != (f + g)[j]
    {
      if i < |f| <= j {
        assert f[i] in Elems(f) && g[j - |f|] in Elems(g);
      }
    }
  }

  /** A pool leaves the house: its nodes go to the allocator, each once, and are in use no more. */
  method ReturnIn(p: Pool, ghost ps: set<Pool>, alloc: Allocator) returns (ghost nodes: seq<MemNode>)
    requires Housed(ps, alloc) && p in ps
    modifies set n | n in p.ring :: n`next, alloc
    ensures Housed(ps - {p}, alloc) && Handed(old(AccountOf(alloc)), AccountOf(alloc), nodes, p.Nodes())
  {
    PickOut(p, ps, alloc);
    nodes := ReleaseBeside(p, ps - {p});
  }

  /** The memory part of clear in one of the pools. */
  method ClearIn(p: Pool, ghost ps: set<Pool>, alloc: Allocator) returns (ghost nodes: seq<MemNode>)
    requires Housed(ps, alloc) && p in ps
    modifies p`active, p`ring, p`blocks, p.Nodes(), alloc
    ensures Housed(ps, alloc) && p.ring == [p.self] && p.blocks == []
    ensures Handed(old(AccountOf(alloc)), AccountOf(alloc), nodes, old(p.Nodes()) - {p.self})
  {
    PickOut(p, ps, alloc);
    nodes := ClearBeside(p, ps - {p});
    PutBackIn(p, ps - {p}, alloc);
    assert ps - {p} + {p} == ps;
  }

  /** A new pool joins the house. */
  method CreateIn(alloc: Allocator, ghost ps: set<Pool>) returns (p: Pool)
    requires Housed(ps, alloc)
    modifies alloc, alloc.CachedNodes()
    ensures fresh(p) && Housed(ps + {p}, alloc) && |p.ring| == 1 && p.blocks == [] && p.ring[0] !in NodesOf(ps)
    ensures alloc.CachedNodes() <= old(alloc.CachedNodes()) && fresh(p.Nodes() - old(alloc.CachedNodes()))
  {
    p := CreateBeside(alloc, ps);
    PutBackIn(p, ps, alloc);
  }

  /** The nodes that a step of the house may touch. */
  ghost function Reach(ps: set<Pool>, alloc: Allocator): set<MemNode>
    reads ps, alloc
  {
    NodesOf(ps) + alloc.CachedNodes()
  }

  /** One block more, of about this size. */
  ghost predicate Grew(a: seq<Block>, b: seq<Block>, size: nat)
  {
    |b| == |a| + 1 && b == a + [b[|a|]] && size <= b[|a|].len < size + ALIGNMENT
  }

  method AllocHouse(p: Pool, r: Request, ghost ps: set<Pool>, alloc: Allocator) returns (ok: bool, node: MemNode, off: nat)
    requires House(ps, alloc) && p in ps && r.size < WORD64
    modifies p`active, p`ring, p`blocks, alloc, p.Nodes(), alloc.CachedNodes()
    ensures House(ps, alloc) && (ok <==> r.size <= MAX_REQUEST)
    ensures if ok then Grew(old(p.blocks), p.blocks, r.size) else p.blocks == old(p.blocks)
    ensures alloc.CachedNodes() <= old(alloc.CachedNodes()) && fresh(p.Nodes() - old(p.Nodes() + alloc.CachedNodes()))
    ensures fresh(Reach(ps, alloc) - old(Reach(ps, alloc)))
  {
    HouseMeans(ps, alloc);
    NodesIn(p, ps);
    ok, node, off := AllocIn(p, r, ps, alloc);
    NodesIn(p, ps);
  }

  method CreateHouse(alloc: Allocator, ghost ps: set<Pool>) returns (p: Pool)
    requires House(ps, alloc)
    modifies alloc, alloc.CachedNodes()
    ensures fresh(p) && House(ps + {p}, alloc) && p.blocks == [] && fresh(Reach(ps + {p}, alloc) - old(Reach(ps, alloc)))
  {
    HouseMeans(ps, alloc);
    p := CreateIn(alloc, ps);
    NodesIn(p, ps + {p});
    assert ps + {p} - {p} == ps;
  }

  method ClearHouse(p: Pool, ghost ps: set<Pool>, alloc: Allocator)
    requires House(ps, alloc) && p in ps
    modifies p`active, p`ring, p`blocks, p.Nodes(), alloc
    ensures House(ps, alloc) && p.blocks == [] && Reach(ps, alloc) <= old(Reach(ps, alloc))
  {
    HouseMeans(ps, alloc);
    ghost var a, all := AccountOf(alloc), p.Nodes();
    assert p.Sound();
    NodesIn(p, ps);
    ghost var nodes := ClearIn(p, ps, alloc);
    NodesIn(p, ps);
    HandedMeans(a, AccountOf(alloc), nodes, all - {p.self});
  }

  method ReturnHouse(p: Pool, ghost ps: set<Pool>, alloc: Allocator)
    requires House(ps, alloc) && p in ps
    modifies set n | n in p.ring :: n`next, alloc
    ensures House(ps - {p}, alloc) && Reach(ps - {p}, alloc) <= old(Reach(ps, alloc))
  {
    HouseMeans(ps, alloc);
    ghost var a := AccountOf(alloc);
    NodesIn(p, ps);
    ghost var nodes := ReturnIn(p, ps, alloc);
    HandedMeans(a, AccountOf(alloc), nodes, p.Nodes());
  }

  /** Blocks of different pools lie in different nodes. */
  lemma BlocksApart(ps: set<Pool>, alloc: Allocator, p: Pool, q: Pool, b: Block, c: Block)
    requires Housed(ps, alloc) && p in ps && q in ps && p != q && b in p.blocks && c in q.blocks
    ensures Disjoint(b, c)
  {
    assert p.Sound() && q.Sound();
    assert b.node in p.Nodes() && c.node in q.Nodes();
  }
}
