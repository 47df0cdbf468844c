/** Any run of a reuse cache, alone and beside other pools on the same allocator. */
module ReuseRuns {
  import opened Common
  import opened Latches
  import opened MemNodes
  import opened FreeLists
  import opened Allocators
  import opened Pools
  import opened PoolHouses
  import opened ReuseCaches

  /** A call: a request, giving back one of the blocks in hand, or clearing the pool. */
  datatype Call = Ask(req: nat) | Return(which: nat) | Wipe

  predicate Sensible(c: Call) { c.Ask? ==> c.req < WORD64 }

  /** What a call does to the blocks in hand: a request that can be met adds one of at least its size. */
  ghost predicate Moves(c: Call, h: seq<Block>, h': seq<Block>)
  {
    match c
    case Ask(req) => Given(h, h', req) || (h' == h && (req == 0 || req > MAX_REQUEST))
    case Return(which) => h' == if which < |h| then Without(h, which) else h
    case Wipe => h' == []
  }

  ghost predicate Given(h: seq<Block>, h': seq<Block>, req: nat)
  {
    |h'| == |h| + 1 && h' == h + [h'[|h|]] && req <= h'[|h|].len
  }

  /** The blocks in hand after each call. */
  ghost predicate Traced(calls: seq<Call>, n: nat, trace: seq<seq<Block>>)
  {
    |trace| == n + 1 && n <= |calls| && trace[0] == [] && forall i :: 0 <= i < n ==> Moves(calls[i], trace[i], trace[i + 1])
  }

  lemma TracedNext(calls: seq<Call>, n: nat, trace: seq<seq<Block>>, h: seq<Block>)
    requires Traced(calls, n, trace) && n < |calls| && Moves(calls[n], trace[n], h)
    ensures Traced(calls, n + 1, trace + [h])
  {
  }

  /** The blocks the caller has in hand are in use, each one where the books say. */
  ghost predicate InHand(bs: seq<Block>, live: map<nat, nat>, hand: seq<Block>, ixs: seq<nat>)
  {
    && |ixs| == |hand| && NoDup(ixs)
    && forall i :: 0 <= i < |hand| ==>
         ixs[i] in live && live[ixs[i]] == hand[i].len > 0 && Inside(bs, hand[i].node, hand[i].off, hand[i].len, ixs[i])
  }

  /** They lie apart. */
  lemma HandApart(bs: seq<Block>, live: map<nat, nat>, hand: seq<Block>, ixs: seq<nat>)
    requires AllDisjoint(bs) && InHand(bs, live, hand, ixs)
    ensures AllDisjoint(hand)
  {
    forall i, j | 0 <= i < j < |hand|
      ensures Disjoint(hand[i], hand[j])
    {
      OtherBlock(bs, ixs[i], ixs[j]);
    }
  }

  lemma HandMore(bs: seq<Block>, bs': seq<Block>, live: map<nat, nat>, hand: seq<Block>, ixs: seq<nat>, b: Block, ix: nat)
    requires InHand(bs, live, hand, ixs) && bs <= bs' && ix !in live && b.len > 0 && Inside(bs', b.node, b.off, b.len, ix)
    ensures InHand(bs', live[ix := b.len], hand + [b], ixs + [ix])
  {
  }

  lemma HandLess(bs: seq<Block>, bs': seq<Block>, live: map<nat, nat>, live': map<nat, nat>, hand: seq<Block>, ixs: seq<nat>, k: nat)
    requires InHand(bs, live, hand, ixs) && bs <= bs' && k < |hand| && (live' == live || live' == live - {ixs[k]})
    ensures InHand(bs', live', Without(hand, k), Without(ixs, k))
  {
  }

  lemma HandSame(bs: seq<Block>, bs': seq<Block>, live: map<nat, nat>, live': map<nat, nat>, hand: seq<Block>, ixs: seq<nat>)
    requires InHand(bs, live, hand, ixs) && bs <= bs' && forall ix :: ix in live ==> ix in live' && live'[ix] == live[ix]
    ensures InHand(bs', live', hand, ixs)
  {
  }

  /** The manager is in order; to be handed on. */
  ghost predicate InOrder(m: AllocManager)
    reads m, m.pool, m.pool.Nodes(), m.pool.allocator
  {
    forall l {:trigger Lifted(l)} :: Lifted(l) ==> m.Valid()
  }

  lemma InOrderMeans(m: AllocManager)
    requires InOrder(m)
    ensures m.Valid()
  {
    assert Lifted(Latch);
  }

  /** What a granted request changes: a block that was not in use is in use with the size granted. */
  ghost predicate Granted(bs: seq<Block>, live: map<nat, nat>, live': map<nat, nat>, b: Block, ix: nat, req: nat)
  {
    req <= b.len && ix !in live && live' == live[ix := b.len] && Inside(bs, b.node, b.off, b.len, ix)
  }

  method AskOne(m: AllocManager, req: nat, ghost held: set<MemNode>) returns (ok: bool, b: Block, ghost ix: nat)
    requires InOrder(m) && req < WORD64 && m.pool.Apart(held)
    modifies m, m.pool, m.pool.allocator, m.pool.Nodes(), m.pool.allocator.CachedNodes()
    ensures InOrder(m) && m.pool.Valid() && m.pool.Apart(held) && (ok <==> old(m.HasFit(req)) || req <= MAX_REQUEST)
    ensures if ok then Granted(m.pool.blocks, old(m.live), m.live, b, ix, req) else m.live == old(m.live)
    ensures old(m.pool.blocks) <= m.pool.blocks && m.pool.allocator.CachedNodes() <= old(m.pool.allocator.CachedNodes())
    ensures fresh(m.pool.Nodes() - old(m.pool.Nodes() + m.pool.allocator.CachedNodes()))
  {
    InOrderMeans(m);
    var node, off, granted;
    ok, node, off, granted, ix := m.Alloc(req, held);
    b := Block(node, off, granted);
  }

  method DoAsk(m: AllocManager, req: nat, hand: seq<Block>, ghost ixs: seq<nat>, ghost held: set<MemNode>)
      returns (hand': seq<Block>, ghost ixs': seq<nat>)
    requires InOrder(m) && req < WORD64 && m.pool.Apart(held) && InHand(m.pool.blocks, m.live, hand, ixs)
    modifies m, m.pool, m.pool.allocator, m.pool.Nodes(), m.pool.allocator.CachedNodes()
    ensures InOrder(m) && m.pool.Apart(held) && InHand(m.pool.blocks, m.live, hand', ixs') && Moves(Ask(req), hand, hand')
    ensures m.pool.allocator.CachedNodes() <= old(m.pool.allocator.CachedNodes())
    ensures fresh(m.pool.Nodes() - old(m.pool.Nodes() + m.pool.allocator.CachedNodes()))
  {
    ghost var bs, live := m.pool.blocks, m.live;
    hand', ixs' := hand, ixs;
    var ok, b, ix := AskOne(m, req, held);
    if ok && b.len > 0 {
      HandMore(bs, m.pool.blocks, live, hand, ixs, b, ix);
      hand', ixs' := hand + [b], ixs + [ix];
    } else {
      HandSame(bs, m.pool.blocks, live, m.live, hand, ixs);
    }
  }

  method DoReturn(m: AllocManager, which: nat, hand: seq<Block>, ghost ixs: seq<nat>, ghost held: set<MemNode>)
      returns (hand': seq<Block>, ghost ixs': seq<nat>)
    requires InOrder(m) && m.pool.Apart(held) && InHand(m.pool.blocks, m.live, hand, ixs) && which < |hand|
    modifies m, m.pool, m.pool.allocator, m.pool.Nodes(), m.pool.allocator.CachedNodes()
    ensures InOrder(m) && m.pool.Apart(held) && InHand(m.pool.blocks, m.live, hand', ixs') && hand' == Without(hand, which)
    ensures m.pool.allocator.CachedNodes() <= old(m.pool.allocator.CachedNodes())
    ensures fresh(m.pool.Nodes() - old(m.pool.Nodes() + m.pool.allocator.CachedNodes()))
  {
    InOrderMeans(m);
    ghost var bs, live := m.pool.blocks, m.live;
    var b := hand[which];
    m.Free(b.node, b.off, b.len, ixs[which], held);
    HandLess(bs, m.pool.blocks, live, m.live, hand, ixs, which);
    hand', ixs' := Without(hand, which), Without(ixs, which);
  }

  method DoWipe(m: AllocManager, ghost held: set<MemNode>)
    requires InOrder(m) && m.pool.Apart(held)
    modifies m, m.pool, m.pool.allocator, m.pool.Nodes()
    ensures InOrder(m) && m.pool.Apart(held) && m.pool.Nodes() <= old(m.pool.Nodes())
    ensures m.pool.allocator.CachedNodes() <= old(m.pool.allocator.CachedNodes() + m.pool.Nodes())
  {
    InOrderMeans(m);
    assert m.pool.self in m.pool.Nodes();
    ghost var nodes := m.Clear(held);
  }

  /** What the manager may touch. */
  ghost function Touch(m: AllocManager): set<MemNode>
    reads m.pool, m.pool.allocator
  {
    m.pool.Nodes() + m.pool.allocator.CachedNodes()
  }

  method DoCall(m: AllocManager, c: Call, hand: seq<Block>, ghost ixs: seq<nat>, ghost held: set<MemNode>)
      returns (hand': seq<Block>, ghost ixs': seq<nat>)
    requires InOrder(m) && m.pool.Apart(held) && InHand(m.pool.blocks, m.live, hand, ixs) && Sensible(c)
    modifies m, m.pool, m.pool.allocator, Touch(m)
    ensures InOrder(m) && m.pool.Apart(held) && InHand(m.pool.blocks, m.live, hand', ixs') && fresh(Touch(m) - old(Touch(m)))
    ensures Moves(c, hand, hand')
  {
    hand', ixs' := hand, ixs;
    match c
    case Ask(req) => hand', ixs' := DoAsk(m, req, hand, ixs, held);
    case Return(which) =>
      if which < |hand| {
        hand', ixs' := DoReturn(m, which, hand, ixs, held);
      }
    case Wipe =>
      DoWipe(m, held);
      hand', ixs' := [], [];
  }

  /** Over any run, with blocks given back in the sizes they were granted: the caller holds what the calls say, the blocks
      in hand lie apart, and blocks in use, cached blocks and records never overlap (ReuseCaches.NeverOverlap, from the
      invariant). */
  method Run(m: AllocManager, calls: seq<Call>, ghost held: set<MemNode> := {})
      returns (hand: seq<Block>, ghost ixs: seq<nat>, ghost trace: seq<seq<Block>>)
    requires InOrder(m) && m.pool.Apart(held) && forall i :: 0 <= i < |calls| ==> Sensible(calls[i])
    modifies m, m.pool, m.pool.allocator, Touch(m)
    ensures InOrder(m) && m.pool.Valid() && m.pool.Apart(held) && InHand(m.pool.blocks, m.live, hand, ixs) && AllDisjoint(hand)
    ensures Traced(calls, |calls|, trace) && trace[|calls|] == hand
    ensures fresh(Touch(m) - old(Touch(m)))
  {
    hand, ixs, trace := [], [], [[]];
    for i := 0 to |calls|
      invariant InOrder(m) && m.pool.Apart(held) && InHand(m.pool.blocks, m.live, hand, ixs) && fresh(Touch(m) - old(Touch(m)))
      invariant Traced(calls, i, trace) && trace[i] == hand
    {
      hand, ixs := DoCall(m, calls[i], hand, ixs, held);
      TracedNext(calls, i, trace, hand);
      trace := trace + [hand];
    }
    InOrderMeans(m);
    HandApart(m.pool.blocks, m.live, hand, ixs);
  }

  // ---- in a house ----

  method RunBeside(m: AllocManager, calls: seq<Call>, ghost rest: set<Pool>, ghost alloc: Allocator)
      returns (hand: seq<Block>, ghost ixs: seq<nat>, ghost trace: seq<seq<Block>>)
    requires InOrder(m) && m.pool !in rest && m.pool.allocator == alloc && m.pool.Apart(NodesOf(rest)) && Others(rest, alloc)
    requires forall i :: 0 <= i < |calls| ==> Sensible(calls[i])
    modifies m, m.pool, m.pool.allocator, Touch(m)
    ensures InOrder(m) && m.pool.Valid() && m.pool.Apart(NodesOf(rest)) && Others(rest, alloc)
    ensures InHand(m.pool.blocks, m.live, hand, ixs) && AllDisjoint(hand) && fresh(Touch(m) - old(Touch(m)))
    ensures Traced(calls, |calls|, trace) && trace[|calls|] == hand
  {
    OutOfReach(m.pool, NodesOf(rest));
    hand, ixs, trace := Run(m, calls, NodesOf(rest));
  }

  /** The same run leaves every pool on the allocator sound, with its nodes in use and its own. */
  method RunIn(m: AllocManager, calls: seq<Call>, ghost ps: set<Pool>, ghost alloc: Allocator)
      returns (hand: seq<Block>, ghost ixs: seq<nat>, ghost trace: seq<seq<Block>>)
    requires House(ps, alloc) && m.pool in ps && InOrder(m) && forall i :: 0 <= i < |calls| ==> Sensible(calls[i])
    modifies m, m.pool, alloc, Touch(m)
    ensures House(ps, alloc) && InOrder(m) && InHand(m.pool.blocks, m.live, hand, ixs) && AllDisjoint(hand)
    ensures Traced(calls, |calls|, trace) && trace[|calls|] == hand
    ensures fresh(Touch(m) - old(Touch(m)))
  {
    PickHouse(m.pool, ps, alloc);
    hand, ixs, trace := RunBeside(m, calls, ps - {m.pool}, alloc);
    PutHouse(m.pool, ps, alloc);
  }

  method AskBeside(m: AllocManager, req: nat, ghost rest: set<Pool>, ghost alloc: Allocator) returns (ok: bool, b: Block, ghost ix: nat)
    requires InOrder(m) && m.pool !in rest && m.pool.allocator == alloc && m.pool.Apart(NodesOf(rest)) && Others(rest, alloc) && req < WORD64
    modifies m, m.pool, m.pool.allocator, Touch(m)
    ensures InOrder(m) && m.pool.Valid() && m.pool.Apart(NodesOf(rest)) && Others(rest, alloc)
    ensures ok <==> old(m.HasFit(req)) || req <= MAX_REQUEST
    ensures if ok then Granted(m.pool.blocks, old(m.live), m.live, b, ix, req) else m.live == old(m.live)
    ensures fresh(Touch(m) - old(Touch(m)))
  {
    OutOfReach(m.pool, NodesOf(rest));
    ok, b, ix := AskOne(m, req, NodesOf(rest));
  }

  /** One request of one pool's cache in the house. */
  method AskIn(m: AllocManager, req: nat, ghost ps: set<Pool>, ghost alloc: Allocator) returns (ok: bool, b: Block, ghost ix: nat)
    requires House(ps, alloc) && m.pool in ps && InOrder(m) && req < WORD64
    modifies m, m.pool, alloc, Touch(m)
    ensures House(ps, alloc) && InOrder(m) && (ok <==> old(m.HasFit(req)) || req <= MAX_REQUEST)
    ensures if ok then Granted(m.pool.blocks, old(m.live), m.live, b, ix, req) else m.live == old(m.live)
    ensures fresh(Touch(m) - old(Touch(m)))
  {
    PickHouse(m.pool, ps, alloc);
    ok, b, ix := AskBeside(m, req, ps - {m.pool}, alloc);
    PutHouse(m.pool, ps, alloc);
  }

  /** The block is in use with its own length. */
  ghost predicate InUse(bs: seq<Block>, live: map<nat, nat>, b: Block, ix: nat)
  {
    ix in live && live[ix] == b.len > 0 && Inside(bs, b.node, b.off, b.len, ix)
  }

  /** What giving a block back changes: if it is kept, it moves from the blocks in use to the cache. */
  ghost predicate GivenBack(k: Book, k': Book, b: Block, ix: nat, kept: bool)
  {
    if kept then
      k'.live == k.live - {ix} && multiset(k'.buffered) == multiset(k.buffered) + multiset{Addr(b.len, b.node, b.off)}
    else
      k'.live == k.live && k'.buffered == k.buffered
  }

  method GiveBack(m: AllocManager, b: Block, ghost ix: nat, ghost held: set<MemNode>)
    requires InOrder(m) && m.pool.Apart(held) && InUse(m.pool.blocks, m.live, b, ix)
    modifies m, m.pool, m.pool.allocator, Touch(m)
    ensures InOrder(m) && m.pool.Valid() && m.pool.Apart(held)
    ensures GivenBack(old(m.Books()), m.Books(), b, ix, old(m.allocatedBytes) > 0 && b.len <= MAX_CACHED)
    ensures fresh(Touch(m) - old(Touch(m)))
  {
    InOrderMeans(m);
    m.Free(b.node, b.off, b.len, ix, held);
  }

  method GiveBackBeside(m: AllocManager, b: Block, ghost ix: nat, ghost rest: set<Pool>, ghost alloc: Allocator)
    requires InOrder(m) && m.pool !in rest && m.pool.allocator == alloc && m.pool.Apart(NodesOf(rest)) && Others(rest, alloc)
    requires InUse(m.pool.blocks, m.live, b, ix)
    modifies m, m.pool, m.pool.allocator, Touch(m)
    ensures InOrder(m) && m.pool.Valid() && m.pool.Apart(NodesOf(rest)) && Others(rest, alloc)
    ensures GivenBack(old(m.Books()), m.Books(), b, ix, old(m.allocatedBytes) > 0 && b.len <= MAX_CACHED)
    ensures fresh(Touch(m) - old(Touch(m)))
  {
    OutOfReach(m.pool, NodesOf(rest));
    GiveBack(m, b, ix, NodesOf(rest));
  }

  /** A block given back in the house. */
  method GiveBackIn(m: AllocManager, b: Block, ghost ix: nat, ghost ps: set<Pool>, ghost alloc: Allocator)
    requires House(ps, alloc) && m.pool in ps && InOrder(m) && InUse(m.pool.blocks, m.live, b, ix)
    modifies m, m.pool, alloc, Touch(m)
    ensures House(ps, alloc) && InOrder(m)
    ensures GivenBack(old(m.Books()), m.Books(), b, ix, old(m.allocatedBytes) > 0 && b.len <= MAX_CACHED)
    ensures fresh(Touch(m) - old(Touch(m)))
  {
    PickHouse(m.pool, ps, alloc);
    GiveBackBeside(m, b, ix, ps - {m.pool}, alloc);
    PutHouse(m.pool, ps, alloc);
  }
}
