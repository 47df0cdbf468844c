/** Any run of a whole tree of pools. */
module PoolWorlds {
  import opened Latches
  import opened MemNodes
  import opened Allocators
  import P = Pools
  import opened PoolHouses
  import opened PoolTrees
  import opened PoolForests
  import C = PoolCleanups
  import opened PoolPlans

  /** The pools form a tree below r, and their memories are housed on the allocator. */
  ghost predicate World(all: set<PoolNode>, r: PoolNode, f: Forest, ps: set<P.Pool>, alloc: Allocator)
    reads all, ps, NodesOf(ps), alloc
  {
    House(ps, alloc) && Mems(f) + {r.memory} <= ps && forall l {:trigger Lifted(l)} :: Lifted(l) ==> Tree(MemOf(all), r, f)
  }

  lemma WorldMeans(all: set<PoolNode>, r: PoolNode, f: Forest, ps: set<P.Pool>, alloc: Allocator)
    requires World(all, r, f, ps, alloc)
    ensures Tree(MemOf(all), r, f)
  {
    assert Lifted(Latch);
  }

  lemma Known(all: set<PoolNode>, r: PoolNode, f: Forest, p: PoolNode)
    requires Tree(MemOf(all), r, f) && InTreeOf(r, f, p)
    ensures p in all && p.memory in Mems(f) + {r.memory} && Mems(KidsIn(r, f, p)) <= Mems(f) && r.memory !in Mems(f)
  {
    TreeReady(MemOf(all), r, f, p);
  }

  // ---- finding a pool ----

  /** The k-th child of q, or null. */
  method ChildAt(q: PoolNode, k: nat, ghost all: set<PoolNode>, ghost r: PoolNode, ghost f: Forest) returns (p: PoolNode?)
    requires Tree(MemOf(all), r, f) && InTreeOf(r, f, q)
    ensures var l := Nth(KidsIn(r, f, q), k); p == First(l) && (p != null ==> InTreeOf(r, f, p) && KidsIn(r, f, p) == l.kids)
  {
    ghost var mem := MemOf(all);
    ghost var l, prev: PoolNode? := KidsIn(r, f, q), null;
    KidsShape(mem, r, f, q);
    p := q.child;
    var i := k;
    while i > 0 && p != null
      invariant Shape(mem, l, q, prev, p) && Nth(KidsIn(r, f, q), k) == Nth(l, i)
    {
      prev, l := p, l.next;
      p := p.sibling;
      i := i - 1;
    }
    KidsThere(mem, r, f, q, k);
  }

  lemma KidsShape(mem: Mem, r: PoolNode, f: Forest, q: PoolNode)
    requires Tree(mem, r, f) && InTreeOf(r, f, q)
    ensures q in mem && Shape(mem, KidsIn(r, f, q), q, null, mem[q].child)
  {
    if q != r {
      LinksOfOne(mem, f, r, null, mem[r].child, q);
    }
  }

  /** The children of the k-th child. */
  lemma KidsThere(mem: Mem, r: PoolNode, f: Forest, q: PoolNode, k: nat)
    requires Tree(mem, r, f) && InTreeOf(r, f, q)
    ensures var l := Nth(KidsIn(r, f, q), k); l.Pools? ==> l.root in Elems(f) && l.root != r && KidsIn(r, f, l.root) == l.kids
  {
    var kids := KidsIn(r, f, q);
    KidsShape(mem, r, f, q);
    ShapeDistinct(mem, f, r, null, mem[r].child);
    ShapeDistinct(mem, kids, q, null, mem[q].child);
    var l := Nth(kids, k);
    SubNth(kids, k);
    if l.Pools? {
      SubIn(kids, k, []);
      if q != r {
        KidsOfKids(f, q, l.root);
      }
    }
  }

  lemma {:induction false} SubNth(f: Forest, k: nat)
    ensures Sub(f, k, []) == Nth(f, k)
    decreases f
  {
    if f.Pools? && k > 0 {
      SubNth(f.next, k - 1);
    }
  }

  /** The pool that a path of child numbers leads to from the root, or null. */
  method Locate(r: PoolNode, path: seq<nat>, ghost all: set<PoolNode>, ghost f: Forest) returns (p: PoolNode?)
    requires Tree(MemOf(all), r, f)
    ensures p == Below(r, f, path) && (p != null ==> InTreeOf(r, f, p))
  {
    p := r;
    var i := 0;
    while i < |path| && p != null
      invariant i <= |path| && (p != null ==> InTreeOf(r, f, p))
      invariant Below(r, f, path) == if p == null then null else Below(p, KidsIn(r, f, p), path[i..])
    {
      SubByNth(KidsIn(r, f, p), path[i], path[i + 1..]);
      assert path[i..][1..] == path[i + 1..];
      p := ChildAt(p, path[i], all, r, f);
      i := i + 1;
    }
  }

  method Follow(r: PoolNode, path: seq<nat>, ghost all: set<PoolNode>, ghost f: Forest, ghost ps: set<P.Pool>, ghost alloc: Allocator)
      returns (p: PoolNode?)
    requires World(all, r, f, ps, alloc)
    ensures World(all, r, f, ps, alloc) && p == Below(r, f, path) && (p != null ==> InTreeOf(r, f, p))
    ensures Reach(ps, alloc) == old(Reach(ps, alloc)) && Now(r, f) == old(Now(r, f))
  {
    WorldMeans(all, r, f, ps, alloc);
    p := Locate(r, path, all, f);
  }

  /** The whole tree as it is now. */
  ghost function Now(r: PoolNode, f: Forest): Whole
    reads r
  {
    Whole(r.preCleanups, r.cleanups, PlanOf(f))
  }

  // ---- one step ----

  method Child(q: PoolNode, ghost path: seq<nat>, ghost all: set<PoolNode>, ghost r: PoolNode, ghost f: Forest,
               ghost ps: set<P.Pool>, alloc: Allocator) returns (p: PoolNode)
    requires World(all, r, f, ps, alloc) && InTreeOf(r, f, q) && q == Below(r, f, path)
    modifies all, alloc, alloc.CachedNodes()
    ensures fresh(p) && fresh(p.memory) && World(all + {p}, r, GrownAt(r, f, q, p), ps + {p.memory}, alloc)
    ensures fresh(Reach(ps + {p.memory}, alloc) - old(Reach(ps, alloc)))
    ensures Told(old(Now(r, f)), Order(path, Grow), Now(r, GrownAt(r, f, q, p)), [])
  {
    WorldMeans(all, r, f, ps, alloc);
    ghost var mem := MemOf(all);
    p := ChildCells(q, all, r, f, ps, alloc);
    GrownTold(mem, r, f, path, p);
  }

  method ChildCells(q: PoolNode, ghost all: set<PoolNode>, ghost r: PoolNode, ghost f: Forest, ghost ps: set<P.Pool>, alloc: Allocator)
      returns (p: PoolNode)
    requires World(all, r, f, ps, alloc) && InTreeOf(r, f, q)
    modifies all, alloc, alloc.CachedNodes()
    ensures fresh(p) && fresh(p.memory) && World(all + {p}, r, GrownAt(r, f, q, p), ps + {p.memory}, alloc)
    ensures fresh(Reach(ps + {p.memory}, alloc) - old(Reach(ps, alloc)))
    ensures r.preCleanups == old(r.preCleanups) && r.cleanups == old(r.cleanups)
  {
    WorldMeans(all, r, f, ps, alloc);
    p := MakeChild(q, r, f, all, ps, alloc);
  }

  lemma HeldReach(ps: set<P.Pool>, qs: set<P.Pool>)
    ensures Held(HoldingsOf(ps), qs) <= NodesOf(ps)
  {
  }

  lemma LessReach(ps: set<P.Pool>, gone: set<P.Pool>)
    ensures NodesOf(ps - gone) <= NodesOf(ps)
  {
  }

  method Remove(p: PoolNode, ghost path: seq<nat>, ghost all: set<PoolNode>, ghost r: PoolNode, ghost f: Forest,
                ghost ps: set<P.Pool>, alloc: Allocator) returns (log: seq<Event>, ghost ps': set<P.Pool>)
    requires World(all, r, f, ps, alloc) && p in Elems(f) && p == Below(r, f, path) && path != []
    modifies all, alloc, NodesOf(ps)
    ensures ps' <= ps && World(all, r, Pruned(f, p), ps', alloc) && Reach(ps', alloc) <= old(Reach(ps, alloc))
    ensures Told(old(Now(r, f)), Order(path, Destroy), Now(r, Pruned(f, p)), log)
  {
    WorldMeans(all, r, f, ps, alloc);
    ghost var gone, a, mem := Mems(KidsOf(f, p)) + {p.memory}, AccountOf(alloc), MemOf(all);
    GoneBelow(mem, r, f, p);
    HeldReach(ps, gone);
    ghost var freed;
    log, freed := DestroyPool(p, r, f, all, ps, alloc);
    ps' := ps - gone;
    LessReach(ps, gone);
    HandedMeans(a, AccountOf(alloc), freed, Held(old(HoldingsOf(ps)), gone));
    PrunedTold(mem, r, f, path, p);
  }

  method Wipe(p: PoolNode, ghost path: seq<nat>, ghost all: set<PoolNode>, ghost r: PoolNode, ghost f: Forest,
              ghost ps: set<P.Pool>, alloc: Allocator) returns (log: seq<Event>, ghost ps': set<P.Pool>)
    requires World(all, r, f, ps, alloc) && InTreeOf(r, f, p) && p == Below(r, f, path)
    modifies all, ps, alloc, NodesOf(ps)
    ensures ps' <= ps && World(all, r, RewrittenAt(r, f, p, [], [], Empty), ps', alloc) && Reach(ps', alloc) <= old(Reach(ps, alloc))
    ensures Told(old(Now(r, f)), Order(path, Clear), Now(r, RewrittenAt(r, f, p, [], [], Empty)), log)
  {
    ghost var w := Now(r, f);
    ClearedIn(all, r, f, ps, alloc, path, p);
    log, ps' := WipeAt(p, all, r, f, ps, alloc);
    assert Now(r, RewrittenAt(r, f, p, [], [], Empty)) == WholeWith(w, r, f, p, [], [], Empty);
  }

  lemma ClearedIn(all: set<PoolNode>, r: PoolNode, f: Forest, ps: set<P.Pool>, alloc: Allocator, path: seq<nat>, p: PoolNode)
    requires World(all, r, f, ps, alloc) && InTreeOf(r, f, p) && p == Below(r, f, path)
    ensures Told(Now(r, f), Order(path, Clear), WholeWith(Now(r, f), r, f, p, [], [], Empty),
                 CleanupLog(p, p.preCleanups, p.cleanups, KidsIn(r, f, p)))
  {
    WorldMeans(all, r, f, ps, alloc);
    ClearedTold(MemOf(all), r, f, path, p);
  }

  method WipeAt(p: PoolNode, ghost all: set<PoolNode>, ghost r: PoolNode, ghost f: Forest, ghost ps: set<P.Pool>, alloc: Allocator)
      returns (log: seq<Event>, ghost ps': set<P.Pool>)
    requires World(all, r, f, ps, alloc) && InTreeOf(r, f, p)
    modifies all, ps, alloc, NodesOf(ps)
    ensures ps' <= ps && World(all, r, RewrittenAt(r, f, p, [], [], Empty), ps', alloc) && Reach(ps', alloc) <= old(Reach(ps, alloc))
    ensures r.preCleanups == (if p == r then [] else old(r.preCleanups)) && r.cleanups == if p == r then [] else old(r.cleanups)
    ensures log == CleanupLog(p, old(p.preCleanups), old(p.cleanups), KidsIn(r, f, p))
  {
    ghost var reach := NodesOf(ps);
    KnownIn(all, r, f, ps, alloc, p);
    OwnNode(p.memory, ps, alloc);
    log, ps' := WipeCells(p, all, r, f, ps, alloc);
    NodesLess(ps', p.memory, reach);
  }

  lemma NodesLess(ps: set<P.Pool>, m: P.Pool, reach: set<MemNode>)
    requires m.Nodes() <= reach && forall q :: q in ps && q != m ==> q.Nodes() <= reach
    ensures NodesOf(ps) <= reach
  {
    forall q, n | q in ps && n in q.ring
      ensures n in reach
    {
      assert n in q.Nodes();
    }
  }

  method WipeCells(p: PoolNode, ghost all: set<PoolNode>, ghost r: PoolNode, ghost f: Forest, ghost ps: set<P.Pool>, alloc: Allocator)
      returns (log: seq<Event>, ghost ps': set<P.Pool>)
    requires World(all, r, f, ps, alloc) && InTreeOf(r, f, p)
    modifies all, ps, alloc, NodesOf(ps)
    ensures ps' <= ps && World(all, r, RewrittenAt(r, f, p, [], [], Empty), ps', alloc)
    ensures alloc.CachedNodes() <= old(Reach(ps, alloc)) && p.memory.Nodes() == {p.memory.self}
    ensures forall q :: q in ps && q != p.memory ==> q.Nodes() == old(q.Nodes()) && q.Nodes() <= old(NodesOf(ps))
    ensures r.preCleanups == (if p == r then [] else old(r.preCleanups)) && r.cleanups == if p == r then [] else old(r.cleanups)
    ensures log == CleanupLog(p, old(p.preCleanups), old(p.cleanups), KidsIn(r, f, p))
  {
    WorldMeans(all, r, f, ps, alloc);
    Known(all, r, f, p);
    ghost var kids, a, of := Mems(KidsIn(r, f, p)), AccountOf(alloc), HoldingsOf(ps);
    HeldReach(ps, kids + {p.memory});
    HeldReach(ps, kids);
    HeldReach(ps, {p.memory});
    ghost var freed;
    log, freed := ClearPool(p, r, f, all, ps, alloc);
    ps' := ps - kids;
    HandedMeans(a, AccountOf(alloc), freed, Held(of, kids) + (Held(of, {p.memory}) - {p.memory.self}));
  }

  method TakeFrom(p: PoolNode, req: P.Request, ghost path: seq<nat>, ghost all: set<PoolNode>, ghost r: PoolNode, ghost f: Forest,
                  ghost ps: set<P.Pool>, alloc: Allocator)
    requires World(all, r, f, ps, alloc) && InTreeOf(r, f, p) && p == Below(r, f, path) && req.size < WORD64
    modifies ps, alloc, Reach(ps, alloc)
    ensures World(all, r, f, ps, alloc) && fresh(Reach(ps, alloc) - old(Reach(ps, alloc)))
    ensures Told(old(Now(r, f)), Order(path, Take(req)), Now(r, f), [])
  {
    TakenIn(all, r, f, ps, alloc, path, p, req);
    TakeMemory(p.memory, req, all, ps, alloc);
  }

  lemma TakenIn(all: set<PoolNode>, r: PoolNode, f: Forest, ps: set<P.Pool>, alloc: Allocator, path: seq<nat>, p: PoolNode, req: P.Request)
    requires World(all, r, f, ps, alloc) && InTreeOf(r, f, p) && p == Below(r, f, path)
    ensures p in all && r in all && p.memory in ps && Told(Now(r, f), Order(path, Take(req)), Now(r, f), [])
  {
    WorldMeans(all, r, f, ps, alloc);
    Known(all, r, f, p);
    TakenTold(MemOf(all), r, f, path, p, req);
  }

  method TakeMemory(memory: P.Pool, req: P.Request, ghost all: set<PoolNode>, ghost ps: set<P.Pool>, alloc: Allocator)
    requires House(ps, alloc) && memory in ps && req.size < WORD64
    modifies ps, alloc, Reach(ps, alloc)
    ensures House(ps, alloc) && fresh(Reach(ps, alloc) - old(Reach(ps, alloc))) && unchanged(all)
  {
    NodesIn(memory, ps);
    var ok, node, off := AllocHouse(memory, req, ps, alloc);
  }

  lemma KnownIn(all: set<PoolNode>, r: PoolNode, f: Forest, ps: set<P.Pool>, alloc: Allocator, p: PoolNode)
    requires World(all, r, f, ps, alloc) && InTreeOf(r, f, p)
    ensures p in all && p.memory in ps
  {
    WorldMeans(all, r, f, ps, alloc);
    Known(all, r, f, p);
  }

  /** The cell of a pool whose lists have changed. */
  lemma Relisted(all: set<PoolNode>, mem: Mem, r: PoolNode, f: Forest, p: PoolNode, pre: seq<Cleanup>, post: seq<Cleanup>)
    requires Tree(mem, r, f) && InTreeOf(r, f, p) && p in mem && MemOf(all) == mem[p := mem[p].(pre := pre, post := post)]
    ensures var f' := RewrittenAt(r, f, p, pre, post, KidsIn(r, f, p)); Tree(MemOf(all), r, f') && Mems(f') <= Mems(f)
  {
    TreeReady(mem, r, f, p);
    ShapeKept(mem, MemOf(all), KidsIn(r, f, p), p, null, mem[p].child);
    RewriteTree(mem, MemOf(all), r, f, p, pre, post, KidsIn(r, f, p));
  }

  /** A pool whose lists have changed, and its house. */
  lemma RelistedWorld(all: set<PoolNode>, mem: Mem, r: PoolNode, f: Forest, path: seq<nat>, p: PoolNode, act: Act,
                      pre: seq<Cleanup>, post: seq<Cleanup>, ps: set<P.Pool>, alloc: Allocator)
    requires Tree(mem, r, f) && Mems(f) + {r.memory} <= ps && InTreeOf(r, f, p) && House(ps, alloc) && p == Below(r, f, path)
    requires p in mem && MemOf(all) == mem[p := mem[p].(pre := pre, post := post)] && (act.Enlist? || act.Strike?)
    requires Relists(act, mem[p].pre, mem[p].post) == C.Lists(pre, post)
    ensures var f' := RewrittenAt(r, f, p, pre, post, KidsIn(r, f, p));
      World(all, r, f', ps, alloc) && Told(WholeOf(mem, r, f), Order(path, act), Now(r, f'), [])
  {
    Relisted(all, mem, r, f, p, pre, post);
    RelistedTold(mem, r, f, path, p, act);
    assert r in MemOf(all);
    assert Now(r, RewrittenAt(r, f, p, pre, post, KidsIn(r, f, p))) == WholeWith(WholeOf(mem, r, f), r, f, p, pre, post, KidsIn(r, f, p));
  }

  /** Only p's lists have changed. */
  lemma SameCells(mem: Mem, p: PoolNode, all: set<PoolNode>)
    requires p in all && mem.Keys == all && (forall q :: q in all && q != p ==> MemOf(all)[q] == mem[q])
    requires p.parent == mem[p].parent && p.child == mem[p].child && p.sibling == mem[p].sibling && p.prev == mem[p].prev
    ensures MemOf(all) == mem[p := mem[p].(pre := p.preCleanups, post := p.cleanups)]
  {
  }

  method EnlistPost(p: PoolNode, c: Cleanup, ghost all: set<PoolNode>, ghost ps: set<P.Pool>, alloc: Allocator)
    requires p in all && House(ps, alloc) && p.memory in ps
    modifies p, ps, alloc, Reach(ps, alloc)
    ensures p in old(MemOf(all)) && House(ps, alloc) && fresh(Reach(ps, alloc) - old(Reach(ps, alloc)))
    ensures var d := old(MemOf(all))[p]; MemOf(all) == old(MemOf(all))[p := d.(post := [c] + d.post)]
  {
    NodesIn(p.memory, ps);
    C.Register(p, c, ps, alloc);
    SameCells(old(MemOf(all)), p, all);
  }

  method EnlistPre(p: PoolNode, c: Cleanup, ghost all: set<PoolNode>, ghost ps: set<P.Pool>, alloc: Allocator)
    requires p in all && House(ps, alloc) && p.memory in ps
    modifies p, ps, alloc, Reach(ps, alloc)
    ensures p in old(MemOf(all)) && House(ps, alloc) && fresh(Reach(ps, alloc) - old(Reach(ps, alloc)))
    ensures var d := old(MemOf(all))[p]; MemOf(all) == old(MemOf(all))[p := d.(pre := [c] + d.pre)]
  {
    NodesIn(p.memory, ps);
    C.PreRegister(p, c, ps, alloc);
    SameCells(old(MemOf(all)), p, all);
  }

  method Enter(p: PoolNode, c: Cleanup, before: bool, ghost path: seq<nat>, ghost all: set<PoolNode>,
               ghost r: PoolNode, ghost f: Forest, ghost ps: set<P.Pool>, alloc: Allocator)
      returns (ghost f': Forest)
    requires World(all, r, f, ps, alloc) && InTreeOf(r, f, p) && p == Below(r, f, path)
    modifies all, ps, alloc, Reach(ps, alloc)
    ensures World(all, r, f', ps, alloc) && fresh(Reach(ps, alloc) - old(Reach(ps, alloc)))
    ensures Told(old(Now(r, f)), Order(path, Enlist(c, before)), Now(r, f'), [])
  {
    WorldMeans(all, r, f, ps, alloc);
    KnownIn(all, r, f, ps, alloc, p);
    ghost var mem := MemOf(all);
    ghost var pre, post := if before then [c] + mem[p].pre else mem[p].pre, if before then mem[p].post else [c] + mem[p].post;
    if before {
      EnlistPre(p, c, all, ps, alloc);
    } else {
      EnlistPost(p, c, all, ps, alloc);
    }
    f' := RewrittenAt(r, f, p, pre, post, KidsIn(r, f, p));
    RelistedWorld(all, mem, r, f, path, p, Enlist(c, before), pre, post, ps, alloc);
  }

  method KillCells(p: PoolNode, data: int, fn: int, ghost all: set<PoolNode>, ghost ps: set<P.Pool>, ghost alloc: Allocator)
    requires p in all && House(ps, alloc)
    modifies p
    ensures p in old(MemOf(all)) && House(ps, alloc) && Reach(ps, alloc) == old(Reach(ps, alloc))
    ensures var d := old(MemOf(all))[p]; MemOf(all) == old(MemOf(all))[p := d.(pre := C.Killed(d.pre, data, fn), post := C.Killed(d.post, data, fn))]
  {
    C.Kill(p, data, fn);
  }

  method StrikeOut(p: PoolNode, data: int, fn: int, ghost path: seq<nat>, ghost all: set<PoolNode>,
                   ghost r: PoolNode, ghost f: Forest, ghost ps: set<P.Pool>, ghost alloc: Allocator)
      returns (ghost f': Forest)
    requires World(all, r, f, ps, alloc) && InTreeOf(r, f, p) && p == Below(r, f, path)
    modifies all
    ensures World(all, r, f', ps, alloc) && Reach(ps, alloc) == old(Reach(ps, alloc))
    ensures Told(old(Now(r, f)), Order(path, Strike(data, fn)), Now(r, f'), [])
  {
    WorldMeans(all, r, f, ps, alloc);
    KnownIn(all, r, f, ps, alloc, p);
    ghost var mem := MemOf(all);
    ghost var pre, post := C.Killed(mem[p].pre, data, fn), C.Killed(mem[p].post, data, fn);
    KillCells(p, data, fn, all, ps, alloc);
    f' := RewrittenAt(r, f, p, pre, post, KidsIn(r, f, p));
    RelistedWorld(all, mem, r, f, path, p, Strike(data, fn), pre, post, ps, alloc);
  }

  // ---- any run ----

  /** One act on one pool of the tree; the root is not destroyed. */
  method Do(act: Act, p: PoolNode, ghost path: seq<nat>, ghost all: set<PoolNode>, r: PoolNode, ghost f: Forest,
            ghost ps: set<P.Pool>, alloc: Allocator)
      returns (log: seq<Event>, ghost all': set<PoolNode>, ghost f': Forest, ghost ps': set<P.Pool>)
    requires World(all, r, f, ps, alloc) && InTreeOf(r, f, p) && p == Below(r, f, path) && (act.Take? ==> act.req.size < WORD64)
    modifies all, ps, alloc, Reach(ps, alloc)
    ensures World(all', r, f', ps', alloc) && Told(old(Now(r, f)), Order(path, act), Now(r, f'), log)
    ensures fresh(all' - all) && fresh(ps' - ps) && fresh(Reach(ps', alloc) - old(Reach(ps, alloc)))
  {
    log, all', f', ps' := [], all, f, ps;
    match act
    case Grow =>
      var q := Child(p, path, all, r, f, ps, alloc);
      all', f', ps' := all + {q}, GrownAt(r, f, p, q), ps + {q.memory};
    case Destroy =>
      RootIn(all, r, f, ps, alloc, path);
      if p != r {
        log, ps' := Remove(p, path, all, r, f, ps, alloc);
        f' := Pruned(f, p);
      }
    case Clear =>
      log, ps' := Wipe(p, path, all, r, f, ps, alloc);
      f' := RewrittenAt(r, f, p, [], [], Empty);
    case Take(req) => TakeFrom(p, req, path, all, r, f, ps, alloc);
    case Enlist(c, before) => f' := Enter(p, c, before, path, all, r, f, ps, alloc);
    case Strike(data, fn) => f' := StrikeOut(p, data, fn, path, all, r, f, ps, alloc);
  }

  lemma RootIn(all: set<PoolNode>, r: PoolNode, f: Forest, ps: set<P.Pool>, alloc: Allocator, path: seq<nat>)
    requires World(all, r, f, ps, alloc) && Below(r, f, path) != null
    ensures r in all && (Below(r, f, path) == r <==> path == []) && Told(Now(r, f), Order([], Destroy), Now(r, f), [])
  {
    WorldMeans(all, r, f, ps, alloc);
    Found(MemOf(all), r, f, path, Destroy);
    RootTold(MemOf(all), r, f);
  }

  lemma NoneIn(all: set<PoolNode>, r: PoolNode, f: Forest, ps: set<P.Pool>, alloc: Allocator, o: Order)
    requires World(all, r, f, ps, alloc) && Below(r, f, o.path) == null
    ensures r in all && Told(Now(r, f), o, Now(r, f), [])
  {
    WorldMeans(all, r, f, ps, alloc);
    NoneTold(MemOf(all), r, f, o);
  }

  method Obey(o: Order, ghost all: set<PoolNode>, r: PoolNode, ghost f: Forest, ghost ps: set<P.Pool>, alloc: Allocator)
      returns (log: seq<Event>, ghost all': set<PoolNode>, ghost f': Forest, ghost ps': set<P.Pool>)
    requires World(all, r, f, ps, alloc) && Sensible(o)
    modifies all, ps, alloc, Reach(ps, alloc)
    ensures World(all', r, f', ps', alloc) && Told(old(Now(r, f)), o, Now(r, f'), log)
    ensures fresh(all' - all) && fresh(ps' - ps) && fresh(Reach(ps', alloc) - old(Reach(ps, alloc)))
  {
    log, all', f', ps' := [], all, f, ps;
    var p := Follow(r, o.path, all, f, ps, alloc);
    if p != null {
      log, all', f', ps' := Do(o.act, p, o.path, all, r, f, ps, alloc);
    } else {
      NoneIn(all, r, f, ps, alloc, o);
    }
  }

  /** A world that stands for w; to be handed on. */
  ghost predicate Going(all: set<PoolNode>, r: PoolNode, f: Forest, ps: set<P.Pool>, alloc: Allocator, w: Whole)
    reads all, r, ps, NodesOf(ps), alloc
  {
    forall l {:trigger Lifted(l)} :: Lifted(l) ==> World(all, r, f, ps, alloc) && Now(r, f) == w
  }

  lemma GoingMeans(all: set<PoolNode>, r: PoolNode, f: Forest, ps: set<P.Pool>, alloc: Allocator, w: Whole)
    requires Going(all, r, f, ps, alloc, w)
    ensures World(all, r, f, ps, alloc) && Now(r, f) == w
  {
    assert Lifted(Latch);
  }

  /** Everything that an order may touch lies in own. */
  ghost predicate Within(own: set<object>, all: set<PoolNode>, ps: set<P.Pool>, alloc: Allocator)
    reads ps, alloc
  {
    forall l {:trigger Lifted(l)} :: Lifted(l) ==>
      alloc in own && (forall p :: p in all ==> p in own) && (forall p :: p in ps ==> p in own) && forall n :: n in Reach(ps, alloc) ==> n in own
  }

  lemma WithinMeans(own: set<object>, all: set<PoolNode>, ps: set<P.Pool>, alloc: Allocator)
    requires Within(own, all, ps, alloc)
    ensures alloc in own && (forall p :: p in all ==> p in own) && (forall p :: p in ps ==> p in own)
    ensures forall n :: n in Reach(ps, alloc) ==> n in own
  {
    assert Lifted(Latch);
  }

  lemma WithinNext(own: set<object>, own': set<object>, all: set<PoolNode>, all': set<PoolNode>, ps: set<P.Pool>, ps': set<P.Pool>,
                   reach: set<MemNode>, alloc: Allocator)
    requires alloc in own && (forall p :: p in all ==> p in own) && (forall p :: p in ps ==> p in own) && forall n :: n in reach ==> n in own
    requires own' == own + (all' - all) + (ps' - ps) + (Reach(ps', alloc) - reach)
    ensures Within(own', all', ps', alloc)
  {
  }

  method ObeyNext(o: Order, ghost own: set<object>, ghost all: set<PoolNode>, r: PoolNode, ghost f: Forest, ghost ps: set<P.Pool>,
                  alloc: Allocator, ghost w: Whole)
      returns (log: seq<Event>, ghost own': set<object>, ghost all': set<PoolNode>, ghost f': Forest, ghost ps': set<P.Pool>, ghost w': Whole)
    requires Going(all, r, f, ps, alloc, w) && Within(own, all, ps, alloc) && Sensible(o)
    modifies own
    ensures Going(all', r, f', ps', alloc, w') && Within(own', all', ps', alloc) && fresh(own' - own) && Told(w, o, w', log)
  {
    GoingMeans(all, r, f, ps, alloc, w);
    WithinMeans(own, all, ps, alloc);
    ghost var reach := Reach(ps, alloc);
    log, all', f', ps' := Obey(o, all, r, f, ps, alloc);
    w' := Now(r, f');
    own' := own + (all' - all) + (ps' - ps) + (Reach(ps', alloc) - reach);
    WithinNext(own, own', all, all', ps, ps', reach, alloc);
  }

  method RunOwn(orders: seq<Order>, ghost own: set<object>, ghost all: set<PoolNode>, r: PoolNode, ghost f: Forest, ghost ps: set<P.Pool>,
                alloc: Allocator, ghost w: Whole)
      returns (log: seq<Event>, ghost own': set<object>, ghost all': set<PoolNode>, ghost f': Forest, ghost ps': set<P.Pool>, ghost w': Whole)
    requires Going(all, r, f, ps, alloc, w) && Within(own, all, ps, alloc) && forall i :: 0 <= i < |orders| ==> Sensible(orders[i])
    modifies own
    ensures Going(all', r, f', ps', alloc, w') && Within(own', all', ps', alloc) && fresh(own' - own)
    ensures Reached(w, orders, |orders|, w', log)
  {
    log, own', all', f', ps', w' := [], own, all, f, ps, w;
    for i := 0 to |orders|
      invariant Going(all', r, f', ps', alloc, w') && Within(own', all', ps', alloc) && fresh(own' - own)
      invariant Reached(w, orders, i, w', log)
    {
      var more;
      ghost var v := w';
      more, own', all', f', ps', w' := ObeyNext(orders[i], own', all', r, f', ps', alloc, v);
      ReachedNext(w, orders, i, v, log, w', more);
      log := log + more;
    }
  }

  /** From any tree of pools, any sequence of children made, pools destroyed and cleared, blocks taken and cleanups
      registered and killed, anywhere in it, does to the tree what it does to the plan of it and runs exactly the cleanups
      that the plan tells, in that order; and at the end the pools form a tree and their memories are housed. */
  method Run(orders: seq<Order>, ghost all: set<PoolNode>, r: PoolNode, ghost f: Forest, ghost ps: set<P.Pool>, alloc: Allocator)
      returns (log: seq<Event>, ghost all': set<PoolNode>, ghost f': Forest, ghost ps': set<P.Pool>)
    requires World(all, r, f, ps, alloc) && forall i :: 0 <= i < |orders| ==> Sensible(orders[i])
    modifies all, ps, alloc, Reach(ps, alloc)
    ensures World(all', r, f', ps', alloc)
    ensures Now(r, f') == After(old(Now(r, f)), orders, |orders|) && Whats(log) == CalledBy(old(Now(r, f)), orders, |orders|)
  {
    ghost var w, own: set<object> := Now(r, f), {alloc} + all + ps + Reach(ps, alloc);
    ghost var own', w';
    log, own', all', f', ps', w' := RunOwn(orders, own, all, r, f, ps, alloc, w);
    GoingMeans(all', r, f', ps', alloc, w');
    ReachedMeans(w, orders, w', log);
  }

  /** A root pool on an allocator. */
  method NewRoot(alloc: Allocator) returns (r: PoolNode)
    requires alloc.Valid()
    modifies alloc, alloc.CachedNodes()
    ensures fresh(r) && fresh(r.memory) && World({r}, r, Empty, {r.memory}, alloc) && Now(r, Empty) == Whole([], [], End)
    ensures fresh(Reach({r.memory}, alloc) - old(alloc.CachedNodes()))
  {
    var memory := CreateHouse(alloc, {});
    r := new PoolNode(memory);
    assert {} + {memory} == {r.memory};
  }

  /** From the first pool on. */
  method RunNew(orders: seq<Order>, alloc: Allocator)
      returns (log: seq<Event>, r: PoolNode, ghost all: set<PoolNode>, ghost f: Forest, ghost ps: set<P.Pool>)
    requires alloc.Valid() && forall i :: 0 <= i < |orders| ==> Sensible(orders[i])
    modifies alloc, alloc.CachedNodes()
    ensures World(all, r, f, ps, alloc)
    ensures var w := Whole([], [], End); Now(r, f) == After(w, orders, |orders|) && Whats(log) == CalledBy(w, orders, |orders|)
  {
    r := NewRoot(alloc);
    log, all, f, ps := Run(orders, {r}, r, Empty, {r.memory}, alloc);
  }
}
