/** Any run of several pools on one allocator. */
module PoolRuns {
  import opened Common
  import opened Latches
  import opened MemNodes
  import opened Allocators
  import opened Pools
  import opened PoolHouses

  /** A step: a new pool, a request to one of the pools, clearing one of them, or destroying it. */
  datatype Step = New | Take(which: nat, req: Request) | Wipe(which: nat) | Drop(which: nat)

  function PoolSet(pools: seq<Pool>): set<Pool> { set p | p in pools }

  lemma WithoutSet(pools: seq<Pool>, i: nat)
    requires NoDup(pools) && i < |pools|
    ensures PoolSet(Without(pools, i)) == PoolSet(pools) - {pools[i]} && NoDup(Without(pools, i))
  {
    var r := Without(pools, i);
    forall p
      ensures p in r <==> p in pools && p != pools[i]
    {
      if p in pools && p != pools[i] {
        var j :| 0 <= j < |pools| && pools[j] == p;
        assert r[if j < i then j else j - 1] == p;
      }
    }
  }

  /** For each pool the blocks that it has handed out. */
  type Hands = seq<seq<Block>>

  ghost predicate Gave(pools: seq<Pool>, a: Hands)
    reads pools
  {
    |a| == |pools| && forall i :: 0 <= i < |pools| ==> a[i] == pools[i].blocks
  }

  /** What a step does to them. A request that can be met adds one block of about its size to one pool. */
  ghost predicate Moves(s: Step, a: Hands, b: Hands)
  {
    match s
    case New => b == a + [[]]
    case Take(w, req) => if w < |a| && req.size <= MAX_REQUEST then Added(w, req.size, a, b) else b == a
    case Wipe(w) => b == if w < |a| then a[w := []] else a
    case Drop(w) => b == if w < |a| then Without(a, w) else a
  }

  ghost predicate Added(w: nat, size: nat, a: Hands, b: Hands)
    requires w < |a|
  {
    |b| == |a| && Grew(a[w], b[w], size) && b == a[w := b[w]]
  }

  method StepNew(pools: seq<Pool>, alloc: Allocator, ghost a: Hands) returns (next: seq<Pool>)
    requires House(PoolSet(pools), alloc) && NoDup(pools) && Gave(pools, a)
    modifies alloc, alloc.CachedNodes()
    ensures House(PoolSet(next), alloc) && NoDup(next) && Gave(next, a + [[]])
    ensures fresh(PoolSet(next) - PoolSet(pools)) && fresh(Reach(PoolSet(next), alloc) - old(Reach(PoolSet(pools), alloc)))
  {
    var p := CreateHouse(alloc, PoolSet(pools));
    next := pools + [p];
    assert PoolSet(next) == PoolSet(pools) + {p};
  }

  method StepTake(pools: seq<Pool>, which: nat, req: Request, alloc: Allocator, ghost a: Hands) returns (ghost b: Hands)
    requires House(PoolSet(pools), alloc) && NoDup(pools) && Gave(pools, a) && which < |pools| && req.size < WORD64
    modifies pools[which], alloc, pools[which].Nodes(), alloc.CachedNodes()
    ensures House(PoolSet(pools), alloc) && Gave(pools, b) && Moves(Take(which, req), a, b)
    ensures fresh(Reach(PoolSet(pools), alloc) - old(Reach(PoolSet(pools), alloc)))
  {
    ghost var p := pools[which];
    var ok, node, off := AllocHouse(pools[which], req, PoolSet(pools), alloc);
    b := a[which := p.blocks];
  }

  method StepWipe(pools: seq<Pool>, which: nat, alloc: Allocator, ghost a: Hands)
    requires House(PoolSet(pools), alloc) && NoDup(pools) && Gave(pools, a) && which < |pools|
    modifies pools[which], alloc, pools[which].Nodes()
    ensures House(PoolSet(pools), alloc) && Gave(pools, a[which := []])
    ensures Reach(PoolSet(pools), alloc) <= old(Reach(PoolSet(pools), alloc))
  {
    ClearHouse(pools[which], PoolSet(pools), alloc);
  }

  method StepDrop(pools: seq<Pool>, which: nat, alloc: Allocator, ghost a: Hands) returns (next: seq<Pool>)
    requires House(PoolSet(pools), alloc) && NoDup(pools) && Gave(pools, a) && which < |pools|
    modifies alloc, pools[which].Nodes()
    ensures House(PoolSet(next), alloc) && NoDup(next) && Gave(next, Without(a, which))
    ensures PoolSet(next) <= PoolSet(pools) && Reach(PoolSet(next), alloc) <= old(Reach(PoolSet(pools), alloc))
  {
    WithoutSet(pools, which);
    ReturnHouse(pools[which], PoolSet(pools), alloc);
    next := Without(pools, which);
  }

  predicate Sensible(s: Step) { s.Take? ==> s.req.size < WORD64 }

  method Apply(s: Step, pools: seq<Pool>, alloc: Allocator, ghost a: Hands) returns (next: seq<Pool>, ghost b: Hands)
    requires House(PoolSet(pools), alloc) && NoDup(pools) && Gave(pools, a) && Sensible(s)
    modifies PoolSet(pools), alloc, Reach(PoolSet(pools), alloc)
    ensures House(PoolSet(next), alloc) && NoDup(next) && Gave(next, b) && Moves(s, a, b)
    ensures fresh(PoolSet(next) - PoolSet(pools)) && fresh(Reach(PoolSet(next), alloc) - old(Reach(PoolSet(pools), alloc)))
  {
    next, b := pools, a;
    match s
    case New =>
      next := StepNew(pools, alloc, a);
      b := a + [[]];
    case Take(which, req) =>
      if which < |pools| {
        b := StepTake(pools, which, req, alloc, a);
      }
    case Wipe(which) =>
      if which < |pools| {
        StepWipe(pools, which, alloc, a);
        b := a[which := []];
      }
    case Drop(which) =>
      if which < |pools| {
        next := StepDrop(pools, which, alloc, a);
        b := Without(a, which);
      }
  }

  /** The blocks handed out after each step. */
  ghost predicate Traced(steps: seq<Step>, n: nat, trace: seq<Hands>)
  {
    |trace| == n + 1 && n <= |steps| && forall i :: 0 <= i < n ==> Moves(steps[i], trace[i], trace[i + 1])
  }

  lemma TracedNext(steps: seq<Step>, n: nat, trace: seq<Hands>, b: Hands)
    requires Traced(steps, n, trace) && n < |steps| && Moves(steps[n], trace[n], b)
    ensures Traced(steps, n + 1, trace + [b])
  {
  }

  /** Different pools in a house, with what they have handed out. */
  ghost predicate Standing(pools: seq<Pool>, alloc: Allocator, a: Hands)
    reads PoolSet(pools), NodesOf(PoolSet(pools)), alloc
  {
    House(PoolSet(pools), alloc) && forall l {:trigger Lifted(l)} :: Lifted(l) ==> NoDup(pools) && Gave(pools, a)
  }

  /** Then no two blocks overlap, of one pool or of two. */
  lemma StandingApart(pools: seq<Pool>, alloc: Allocator, a: Hands, i: nat, j: nat, x: nat, y: nat)
    requires Standing(pools, alloc, a) && i < |a| && j < |a| && x < |a[i]| && y < |a[j]| && (i != j || x < y)
    ensures Disjoint(a[i][x], a[j][y])
  {
    assert Lifted(Latch);
    HouseMeans(PoolSet(pools), alloc);
    assert pools[i] in PoolSet(pools) && pools[j] in PoolSet(pools);
    if i == j {
      assert pools[i].Sound();
    } else {
      assert pools[i] != pools[j];
      BlocksApart(PoolSet(pools), alloc, pools[i], pools[j], a[i][x], a[j][y]);
    }
  }

  method ApplyNext(s: Step, pools: seq<Pool>, alloc: Allocator, ghost a: Hands) returns (next: seq<Pool>, ghost b: Hands)
    requires Standing(pools, alloc, a) && Sensible(s)
    modifies PoolSet(pools), alloc, Reach(PoolSet(pools), alloc)
    ensures Standing(next, alloc, b) && Moves(s, a, b)
    ensures fresh(PoolSet(next) - PoolSet(pools)) && fresh(Reach(PoolSet(next), alloc) - old(Reach(PoolSet(pools), alloc)))
  {
    assert Lifted(Latch);
    next, b := Apply(s, pools, alloc, a);
  }

  /** Any run from any house: step by step the pools hand out and take back what the steps say, and at the end every pool
      is sound, its blocks lie apart inside its own nodes, these are in use, and no node has two owners. */
  method Run(steps: seq<Step>, pools: seq<Pool>, alloc: Allocator, ghost a: Hands) returns (last: seq<Pool>, ghost trace: seq<Hands>)
    requires Standing(pools, alloc, a) && forall i :: 0 <= i < |steps| ==> Sensible(steps[i])
    modifies PoolSet(pools), alloc, Reach(PoolSet(pools), alloc)
    ensures Traced(steps, |steps|, trace) && trace[0] == a && Standing(last, alloc, trace[|steps|])
  {
    last, trace := pools, [a];
    for i := 0 to |steps|
      invariant Traced(steps, i, trace) && trace[0] == a && Standing(last, alloc, trace[i])
      invariant fresh(PoolSet(last) - PoolSet(pools)) && fresh(Reach(PoolSet(last), alloc) - old(Reach(PoolSet(pools), alloc)))
    {
      ghost var b;
      last, b := ApplyNext(steps[i], last, alloc, trace[i]);
      TracedNext(steps, i, trace, b);
      trace := trace + [b];
    }
  }
}
