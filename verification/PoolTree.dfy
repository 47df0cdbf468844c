/** The tree of pools, its cleanups, and the destruction of a pool with everything below it. */
module PoolTrees {
  import opened Latches
  import opened MemNodes
  import opened Allocators
  import opened Pools
  import opened PoolHouses

  /** A registered cleanup; a callback of 0 stands for a null pointer. */
  datatype Cleanup = Cleanup(data: int, fn: int, plain: bool)

  class PoolNode {
    /** The nodes it hands out memory from. */
    const memory: Pool
    var parent: PoolNode?
    var child: PoolNode?
    var sibling: PoolNode?
    /** The pool whose sibling field leads here, or null when it is the parent's child field. */
    var prev: PoolNode?
    /** Newest first. */
    var preCleanups: seq<Cleanup>
    var cleanups: seq<Cleanup>
    /** Cleanup records free for reuse. */
    var freeCleanups: nat

    constructor (memory: Pool)
      ensures this.memory == memory && parent == null && child == null && sibling == null && prev == null
      ensures preCleanups == [] && cleanups == [] && freeCleanups == 0
    {
      this.memory, parent, child, sibling, prev, preCleanups, cleanups, freeCleanups := memory, null, null, null, null, [], [], 0;
    }
  }

  /** What happens while pools are destroyed: a cleanup runs, or a pool's memory goes back to its allocator. */
  datatype Event = Ran(pool: PoolNode, what: Cleanup) | Returned(pool: PoolNode)

  datatype Cell = Cell(parent: PoolNode?, child: PoolNode?, sibling: PoolNode?, prev: PoolNode?, pre: seq<Cleanup>, post: seq<Cleanup>)

  type Mem = map<PoolNode, Cell>

  /** A list of sibling pools, each with the list of its children. */
  datatype Forest = Empty | Pools(root: PoolNode, pre: seq<Cleanup>, post: seq<Cleanup>, kids: Forest, next: Forest)

  function Elems(f: Forest): set<PoolNode>
  {
    if f.Empty? then {} else {f.root} + Elems(f.kids) + Elems(f.next)
  }

  /** The memories of the pools. */
  function Mems(f: Forest): set<Pool>
  {
    if f.Empty? then {} else {f.root.memory} + Mems(f.kids) + Mems(f.next)
  }

  /** Following child and sibling from head runs through f, with the links back in place, and meets no pool twice and
      no two pools with the same memory. */
  ghost predicate Shape(mem: Mem, f: Forest, parent: PoolNode, prev: PoolNode?, head: PoolNode?)
  {
    match f
    case Empty => head == null
    case Pools(p, pre, post, kids, next) =>
      && head == p && p in mem && mem[p].parent == parent && mem[p].prev == prev && mem[p].pre == pre && mem[p].post == post
      && p !in Elems(kids) && p !in Elems(next) && Elems(kids) !! Elems(next)
      && p.memory !in Mems(kids) && p.memory !in Mems(next) && Mems(kids) !! Mems(next)
      && Shape(mem, kids, p, null, mem[p].child) && Shape(mem, next, parent, p, mem[p].sibling)
  }

  lemma {:induction false} ShapeKept(mem: Mem, mem': Mem, f: Forest, parent: PoolNode, prev: PoolNode?, head: PoolNode?)
    requires Shape(mem, f, parent, prev, head) && forall p :: p in Elems(f) && p in mem ==> p in mem' && mem'[p] == mem[p]
    ensures Shape(mem', f, parent, prev, head)
    decreases f
  {
    if f.Pools? {
      ShapeKept(mem, mem', f.kids, f.root, null, mem[f.root].child);
      ShapeKept(mem, mem', f.next, parent, f.root, mem[f.root].sibling);
    }
  }

  lemma {:induction false} ShapeIn(mem: Mem, f: Forest, parent: PoolNode, prev: PoolNode?, head: PoolNode?)
    requires Shape(mem, f, parent, prev, head)
    ensures forall p :: p in Elems(f) ==> p in mem
    decreases f
  {
    if f.Pools? {
      ShapeIn(mem, f.kids, f.root, null, mem[f.root].child);
      ShapeIn(mem, f.next, parent, f.root, mem[f.root].sibling);
    }
  }

  /** The unlinking in ~Pool. */
  function Unlinked(mem: Mem, p: PoolNode): Mem
    requires p in mem
  {
    var c := mem[p];
    if c.parent == null then mem
    else
      var m1 := if c.prev != null then (if c.prev in mem then mem[c.prev := mem[c.prev].(sibling := c.sibling)] else mem)
                else if c.parent in mem then mem[c.parent := mem[c.parent].(child := c.sibling)] else mem;
      if c.sibling != null && c.sibling in m1 then m1[c.sibling := m1[c.sibling].(prev := c.prev)] else m1
  }

  /** With the first pool unlinked, the rest of the list is the list. */
  lemma ShapePop(mem: Mem, mem': Mem, f: Forest, parent: PoolNode)
    requires f.Pools? && parent in mem && parent !in Elems(f) && Shape(mem, f, parent, null, mem[parent].child)
    requires forall q :: q in mem && q !in Elems(f.kids) && q != f.root ==> q in mem' && mem'[q] == Unlinked(mem, f.root)[q]
    ensures parent in mem' && Shape(mem', f.next, parent, null, mem'[parent].child)
  {
    ShapeIn(mem, f.next, parent, f.root, mem[f.root].sibling);
    if f.next.Pools? {
      var n := f.next;
      ShapeKept(mem, mem', n.kids, n.root, null, mem[n.root].child);
      ShapeKept(mem, mem', n.next, parent, n.root, mem[n.root].sibling);
    }
  }

  // ---- what destruction has to do ----

  function RanOne(p: PoolNode, c: Cleanup): seq<Event>
  {
    if c.fn != 0 then [Ran(p, c)] else []
  }

  /** The cleanups run in this order; one without a callback is only dropped. */
  function RanAll(p: PoolNode, cs: seq<Cleanup>): seq<Event>
  {
    if cs == [] then [] else RanAll(p, cs[..|cs| - 1]) + RanOne(p, cs[|cs| - 1])
  }

  /** One pool: its pre-cleanups newest first, its children, its cleanups newest first, and then its memory. */
  function LogOne(p: PoolNode, pre: seq<Cleanup>, post: seq<Cleanup>, kids: Forest): seq<Event>
    decreases kids, 1
  {
    RanAll(p, pre) + LogAll(kids) + RanAll(p, post) + [Returned(p)]
  }

  /** Siblings, from the first on. */
  function LogAll(f: Forest): seq<Event>
    decreases f, 0
  {
    if f.Empty? then [] else LogOne(f.root, f.pre, f.post, f.kids) + LogAll(f.next)
  }

  function Count(log: seq<Event>, e: Event): nat { multiset(log)[e] }

  /** How often the cleanup is registered with the pool, anywhere in f. */
  function Registered(f: Forest, p: PoolNode, c: Cleanup): nat
  {
    if f.Empty? then 0
    else (if f.root == p then multiset(f.pre)[c] + multiset(f.post)[c] else 0) + Registered(f.kids, p, c) + Registered(f.next, p, c)
  }

  lemma {:induction false} RanCount(p: PoolNode, cs: seq<Cleanup>, e: Event)
    ensures Count(RanAll(p, cs), e) == if e.Ran? && e.pool == p && e.what.fn != 0 then multiset(cs)[e.what] else 0
  {
    if cs != [] {
      var r, c := cs[..|cs| - 1], cs[|cs| - 1];
      assert cs == r + [c];
      RanCount(p, r, e);
    }
  }

  lemma CountOne(p: PoolNode, pre: seq<Cleanup>, post: seq<Cleanup>, kids: Forest, e: Event)
    ensures Count(LogOne(p, pre, post, kids), e) ==
      Count(LogAll(kids), e)
      + (if e.Ran? && e.pool == p && e.what.fn != 0 then multiset(pre)[e.what] + multiset(post)[e.what] else 0)
      + if e == Returned(p) then 1 else 0
  {
    RanCount(p, pre, e);
    RanCount(p, post, e);
  }

  lemma CountFirst(f: Forest, e: Event)
    requires f.Pools?
    ensures Count(LogAll(f), e) ==
      Count(LogAll(f.kids), e) + Count(LogAll(f.next), e) + (if e == Returned(f.root) then 1 else 0)
      + if e.Ran? && e.pool == f.root && e.what.fn != 0 then multiset(f.pre)[e.what] + multiset(f.post)[e.what] else 0
  {
    CountOne(f.root, f.pre, f.post, f.kids, e);
  }

  /** Every pool's memory goes back exactly once, and no other pool's does. */
  lemma {:induction false} ReturnedOnce(mem: Mem, f: Forest, parent: PoolNode, prev: PoolNode?, head: PoolNode?, p: PoolNode)
    requires Shape(mem, f, parent, prev, head)
    ensures Count(LogAll(f), Returned(p)) == if p in Elems(f) then 1 else 0
    decreases f
  {
    if f.Pools? {
      CountFirst(f, Returned(p));
      ReturnedOnce(mem, f.kids, f.root, null, mem[f.root].child, p);
      ReturnedOnce(mem, f.next, parent, f.root, mem[f.root].sibling, p);
    }
  }

  /** Every cleanup with a callback runs as often as it is registered. */
  lemma {:induction false} CleanupsOnce(f: Forest, p: PoolNode, c: Cleanup)
    ensures Count(LogAll(f), Ran(p, c)) == if c.fn != 0 then Registered(f, p, c) else 0
    decreases f
  {
    if f.Pools? {
      CountFirst(f, Ran(p, c));
      CleanupsOnce(f.kids, p, c);
      CleanupsOnce(f.next, p, c);
    }
  }

  function Size(f: Forest): nat { if f.Empty? then 0 else 1 + Size(f.kids) + Size(f.next) }

  // ---- running cleanups ----

  function Select(cs: seq<Cleanup>, plain: bool): seq<Cleanup>
  {
    if cs == [] then []
    else Select(cs[..|cs| - 1], plain) + if cs[|cs| - 1].plain == plain then [cs[|cs| - 1]] else []
  }

  lemma RanSnoc(p: PoolNode, cs: seq<Cleanup>, c: Cleanup)
    ensures RanAll(p, cs + [c]) == RanAll(p, cs) + RanOne(p, c)
  {
    assert (cs + [c])[..|cs|] == cs;
  }

  lemma SelectSnoc(p: PoolNode, cs: seq<Cleanup>, c: Cleanup)
    ensures Select(cs + [c], false) == Select(cs, false) + if c.plain then [] else [c]
    ensures RanAll(p, Select(cs + [c], true)) == RanAll(p, Select(cs, true)) + if c.plain then RanOne(p, c) else []
  {
    assert (cs + [c])[..|cs|] == cs;
    if c.plain {
      RanSnoc(p, Select(cs, true), c);
      assert Select(cs + [c], true) == Select(cs, true) + [c];
    } else {
      assert Select(cs + [c], true) == Select(cs, true);
    }
  }

  /** Cleanup::run: all of them, or only the plain ones; those that ran are gone from the list. */
  method RunPass(p: PoolNode, list: seq<Cleanup>, plain: bool) returns (rest: seq<Cleanup>, log: seq<Event>)
    ensures !plain ==> rest == [] && log == RanAll(p, list)
    ensures plain ==> rest == Select(list, false) && log == RanAll(p, Select(list, true))
  {
    rest, log := [], [];
    var i := 0;
    while i < |list|
      invariant i <= |list| && (!plain ==> rest == [] && log == RanAll(p, list[..i]))
      invariant plain ==> rest == Select(list[..i], false) && log == RanAll(p, Select(list[..i], true))
    {
      var c := list[i];
      assert list[..i + 1] == list[..i] + [c];
      RanSnoc(p, list[..i], c);
      SelectSnoc(p, list[..i], c);
      if c.plain || !plain {
        if c.fn != 0 {
          log := log + [Ran(p, c)];
        }
      } else {
        rest := rest + [c];
      }
      i := i + 1;
    }
    assert list[..|list|] == list;
  }

  /** The two passes over a list: the first runs everything. */
  method RunBoth(p: PoolNode, list: seq<Cleanup>) returns (log: seq<Event>)
    ensures log == RanAll(p, list)
  {
    var rest, l1 := RunPass(p, list, false);
    var rest', l2 := RunPass(p, rest, true);
    log := l1 + l2;
  }

  // ---- destruction ----

  ghost function MemOf(all: set<PoolNode>): Mem
    reads all
  {
    map p | p in all :: Cell(p.parent, p.child, p.sibling, p.prev, p.preCleanups, p.cleanups)
  }

  /** The pool's neighbours are known and lie outside what hangs below it. */
  ghost predicate Neighbours(mem: Mem, p: PoolNode, kids: Forest)
  {
    && p in mem && p !in Elems(kids) && p.memory !in Mems(kids) && Shape(mem, kids, p, null, mem[p].child)
    && (mem[p].parent != null ==> mem[p].parent in mem && mem[p].parent != p && mem[p].parent !in Elems(kids))
    && (mem[p].prev != null ==> mem[p].prev in mem && mem[p].prev != p && mem[p].prev !in Elems(kids))
    && (mem[p].sibling != null ==> mem[p].sibling in mem && mem[p].sibling != p && mem[p].sibling !in Elems(kids))
  }

  method UnlinkOnly(p: PoolNode, ghost all: set<PoolNode>)
    requires p in all && (p.parent != null ==> p.parent in all) && (p.prev != null ==> p.prev in all) && (p.sibling != null ==> p.sibling in all)
    modifies all
    ensures p in old(MemOf(all)) && MemOf(all) == Unlinked(old(MemOf(all)), p)
  {
    if p.parent != null {
      var sib := p.sibling;
      if p.prev != null {
        p.prev.sibling := sib;
      } else {
        p.parent.child := sib;
      }
      if sib != null {
        sib.prev := p.prev;
      }
    }
  }

  /** Outside p and what hangs below it, mem' is mem after p is unlinked. */
  ghost predicate Gone(mem: Mem, mem': Mem, p: PoolNode, kids: Forest)
  {
    && p in mem && mem'.Keys == mem.Keys
    && forall q :: q in mem && q != p && q !in Elems(kids) ==> q in Unlinked(mem, p) && mem'[q] == Unlinked(mem, p)[q]
  }

  /** Outside the children, only p has changed, and p only in having lost them. */
  ghost predicate Childless(mem: Mem, mem': Mem, p: PoolNode, kids: Forest)
  {
    && p in mem && mem'.Keys == mem.Keys && mem'[p] == mem[p].(child := null)
    && forall q :: q in mem && q != p && q !in Elems(kids) ==> mem'[q] == mem[q]
  }

  /** Part of the children are gone; f is what is left of them. */
  ghost predicate Losing(mem: Mem, mem': Mem, p: PoolNode, kids: Forest, f: Forest)
  {
    && p in mem && mem'.Keys == mem.Keys && mem'[p] == mem[p].(child := mem'[p].child) && Shape(mem', f, p, null, mem'[p].child)
    && p !in Elems(kids) && Elems(f) <= Elems(kids) && Mems(f) <= Mems(kids) && Size(f) <= Size(kids)
    && forall q :: q in mem && q != p && q !in Elems(kids) ==> mem'[q] == mem[q]
  }

  lemma LosingNeighbours(mem: Mem, mem': Mem, p: PoolNode, kids: Forest, f: Forest)
    requires Losing(mem, mem', p, kids, f) && f.Pools?
    ensures Neighbours(mem', f.root, f.kids) && mem'[p].child == f.root && mem'[f.root].pre == f.pre && mem'[f.root].post == f.post
  {
    ShapeIn(mem', f.next, p, f.root, mem'[f.root].sibling);
  }

  lemma LosingNext(mem: Mem, mem1: Mem, mem2: Mem, p: PoolNode, kids: Forest, f: Forest)
    requires Losing(mem, mem1, p, kids, f) && f.Pools? && Gone(mem1, mem2, f.root, f.kids)
    ensures Losing(mem, mem2, p, kids, f.next)
  {
    ShapePop(mem1, mem2, f, p);
    ShapeIn(mem1, f.next, p, f.root, mem1[f.root].sibling);
  }

  lemma LostAll(mem: Mem, mem': Mem, p: PoolNode, kids: Forest, f: Forest)
    requires Losing(mem, mem', p, kids, f) && mem'[p].child == null
    ensures f.Empty? && Childless(mem, mem', p, kids)
  {
  }

  // ---- memory ----

  /** Which nodes each memory holds. */
  type Holdings = map<Pool, set<MemNode>>

  ghost predicate Known(of: Holdings, ps: set<Pool>)
    reads ps
  {
    forall q :: q in ps ==> q in of && of[q] == q.Nodes()
  }

  ghost predicate Exclusive(of: Holdings)
  {
    forall q, r, n :: q in of && r in of && n in of[q] && n in of[r] ==> q == r
  }

  ghost function Held(of: Holdings, qs: set<Pool>): set<MemNode>
  {
    set q, n | q in qs && q in of && n in of[q] :: n
  }

  lemma HeldSplit(of: Holdings, a: set<Pool>, b: set<Pool>)
    requires Exclusive(of) && a !! b
    ensures Held(of, a + b) == Held(of, a) + Held(of, b) && Held(of, a) !! Held(of, b)
  {
  }

  lemma HeldMore(of: Holdings, a: set<Pool>, b: set<Pool>)
    requires a <= b
    ensures Held(of, a) <= Held(of, b)
  {
  }

  /** The house stands, and it is known what each of its pools holds. */
  ghost predicate Standing(ps: set<Pool>, alloc: Allocator, of: Holdings)
    reads ps, NodesOf(ps), alloc
  {
    forall l {:trigger Lifted(l)} :: Lifted(l) ==> Housed(ps, alloc) && Known(of, ps) && Exclusive(of)
  }

  lemma StandingMeans(ps: set<Pool>, alloc: Allocator, of: Holdings)
    requires Standing(ps, alloc, of)
    ensures Housed(ps, alloc) && Known(of, ps) && Exclusive(of)
  {
    assert Lifted(Latch);
  }

  /** What a house holds, for the record. */
  ghost function HoldingsOf(ps: set<Pool>): Holdings
    reads ps
  {
    map q | q in ps :: q.Nodes()
  }

  lemma HouseStands(ps: set<Pool>, alloc: Allocator)
    requires House(ps, alloc)
    ensures Standing(ps, alloc, HoldingsOf(ps))
  {
    HouseMeans(ps, alloc);
  }

  lemma StandingHouse(ps: set<Pool>, alloc: Allocator, of: Holdings)
    requires Standing(ps, alloc, of)
    ensures House(ps, alloc)
  {
    StandingMeans(ps, alloc, of);
  }

  lemma Stands(ps: set<Pool>, alloc: Allocator)
    requires Housed(ps, alloc)
    ensures Standing(ps, alloc, HoldingsOf(ps))
  {
  }

  lemma HeldApart(ps: set<Pool>, alloc: Allocator, of: Holdings, a: set<Pool>, b: set<Pool>)
    requires Standing(ps, alloc, of) && a !! b
    ensures Held(of, a + b) == Held(of, a) + Held(of, b) && Held(of, a) !! Held(of, b)
  {
    StandingMeans(ps, alloc, of);
    HeldSplit(of, a, b);
  }

  lemma NothingHanded(ps: set<Pool>, alloc: Allocator, of: Holdings)
    requires Standing(ps, alloc, of)
    ensures Handed(AccountOf(alloc), AccountOf(alloc), [], {})
  {
    StandingMeans(ps, alloc, of);
    HandedNone(AccountOf(alloc));
  }

  method Unlink(p: PoolNode, ghost all: set<PoolNode>, ghost ps: set<Pool>, ghost alloc: Allocator, ghost of: Holdings)
    requires p in all && (p.parent != null ==> p.parent in all) && (p.prev != null ==> p.prev in all) && (p.sibling != null ==> p.sibling in all)
    requires Standing(ps, alloc, of)
    modifies all
    ensures p in old(MemOf(all)) && MemOf(all) == Unlinked(old(MemOf(all)), p)
    ensures Standing(ps, alloc, of) && AccountOf(alloc) == old(AccountOf(alloc))
  {
    UnlinkOnly(p, all);
  }

  method ReturnMemory(p: PoolNode, ghost all: set<PoolNode>, ghost ps: set<Pool>, alloc: Allocator, ghost of: Holdings)
      returns (ghost freed: seq<MemNode>)
    requires p.memory in ps && Standing(ps, alloc, of)
    modifies Held(of, {p.memory}), alloc
    ensures MemOf(all) == old(MemOf(all))
    ensures Standing(ps - {p.memory}, alloc, of) && Handed(old(AccountOf(alloc)), AccountOf(alloc), freed, Held(of, {p.memory}))
  {
    StandingMeans(ps, alloc, of);
    assert Held(of, {p.memory}) == p.memory.Nodes();
    freed := ReturnIn(p.memory, ps, alloc);
  }

  // ---- ~Pool and clear ----

  /** The memories that are gone when f is left of kids. */
  function GoneMems(kids: Forest, f: Forest): set<Pool> { Mems(kids) - Mems(f) }

  /** Between two children: those before f are gone, with their memory. */
  ghost predicate Between(mem: Mem, mem': Mem, p: PoolNode, kids: Forest, f: Forest, a: Account, a': Account, of: Holdings, freed: seq<MemNode>)
  {
    Losing(mem, mem', p, kids, f) && Handed(a, a', freed, Held(of, GoneMems(kids, f)))
  }

  lemma GoneNext(kids: Forest, f: Forest, ps: set<Pool>)
    requires f.Pools? && Mems(f) <= Mems(kids) && f.root.memory !in Mems(f.next) && Mems(f.kids) !! Mems(f.next)
    ensures var d := Mems(f.kids) + {f.root.memory};
      && GoneMems(kids, f.next) == GoneMems(kids, f) + d && GoneMems(kids, f) !! d
      && ps - GoneMems(kids, f) - d == ps - GoneMems(kids, f.next)
  {
  }

  lemma LogNext(past: seq<Event>, l: seq<Event>, f: Forest)
    requires f.Pools? && l == LogOne(f.root, f.pre, f.post, f.kids)
    ensures past + LogAll(f) == past + l + LogAll(f.next)
  {
  }

  /** The first of the children that are left. */
  method DestroyFirst(p: PoolNode, ghost kids: Forest, ghost f: Forest, ghost all: set<PoolNode>, ghost mem: Mem,
                      ghost ps: set<Pool>, alloc: Allocator, ghost of: Holdings, ghost a: Account, ghost before: seq<MemNode>, past: seq<Event>)
      returns (log: seq<Event>, ghost freed: seq<MemNode>)
    requires p in all && p.child != null && Between(mem, MemOf(all), p, kids, f, a, AccountOf(alloc), of, before)
    requires Mems(kids) <= ps && Standing(ps - GoneMems(kids, f), alloc, of) && past + LogAll(f) == LogAll(kids)
    modifies all, alloc, Held(of, Mems(kids))
    ensures f.Pools? && log + LogAll(f.next) == LogAll(kids)
    ensures Between(mem, MemOf(all), p, kids, f.next, a, AccountOf(alloc), of, freed)
    ensures Standing(ps - GoneMems(kids, f.next), alloc, of)
    decreases Size(kids), 1
  {
    ghost var mem1, a1 := MemOf(all), AccountOf(alloc);
    LosingNeighbours(mem, mem1, p, kids, f);
    GoneNext(kids, f, ps);
    ghost var d := Mems(f.kids) + {f.root.memory};
    HeldApart(ps - GoneMems(kids, f), alloc, of, GoneMems(kids, f), d);
    HeldMore(of, d, Mems(kids));
    ghost var g;
    var l;
    l, g := Destroy(p.child, f.kids, all, ps - GoneMems(kids, f), alloc, of);
    LogNext(past, l, f);
    log := past + l;
    LosingNext(mem, mem1, MemOf(all), p, kids, f);
    freed := before + g;
    HandedOn(a, a1, AccountOf(alloc), before, g, Held(of, GoneMems(kids, f)), Held(of, d));
  }

  method DestroyKids(p: PoolNode, ghost kids: Forest, ghost all: set<PoolNode>, ghost ps: set<Pool>, alloc: Allocator, ghost of: Holdings)
      returns (log: seq<Event>, ghost freed: seq<MemNode>)
    requires p in all && p !in Elems(kids) && Shape(MemOf(all), kids, p, null, p.child)
    requires Mems(kids) <= ps && Standing(ps, alloc, of)
    modifies all, alloc, Held(of, Mems(kids))
    ensures log == LogAll(kids) && Childless(old(MemOf(all)), MemOf(all), p, kids)
    ensures Standing(ps - Mems(kids), alloc, of) && Handed(old(AccountOf(alloc)), AccountOf(alloc), freed, Held(of, Mems(kids)))
    decreases Size(kids), 2
  {
    log, freed := [], [];
    ghost var f, mem, a := kids, MemOf(all), AccountOf(alloc);
    NoneGone(kids, ps, of);
    NothingHanded(ps, alloc, of);
    while p.child != null
      invariant Between(mem, MemOf(all), p, kids, f, a, AccountOf(alloc), of, freed)
      invariant Standing(ps - GoneMems(kids, f), alloc, of) && log + LogAll(f) == LogAll(kids)
      decreases Size(f)
    {
      log, freed := DestroyFirst(p, kids, f, all, mem, ps, alloc, of, a, freed, log);
      f := f.next;
    }
    LostAll(mem, MemOf(all), p, kids, f);
    assert GoneMems(kids, Empty) == Mems(kids);
  }

  lemma NoneGone(kids: Forest, ps: set<Pool>, of: Holdings)
    ensures GoneMems(kids, kids) == {} && Held(of, GoneMems(kids, kids)) == {} && ps - GoneMems(kids, kids) == ps && [] + LogAll(kids) == LogAll(kids)
  {
  }

  /** The pool has lost its cleanups and its children. */
  ghost predicate Cleaned(mem: Mem, mem': Mem, p: PoolNode, kids: Forest)
  {
    && p in mem && mem'.Keys == mem.Keys && mem'[p] == mem[p].(child := null, pre := [], post := [])
    && forall q :: q in mem && q != p && q !in Elems(kids) ==> mem'[q] == mem[q]
  }

  lemma CleanedAtLast(mem: Mem, mem1: Mem, mem2: Mem, mem3: Mem, p: PoolNode, kids: Forest)
    requires p in mem && p !in Elems(kids) && mem1 == mem[p := mem[p].(pre := [])] && Childless(mem1, mem2, p, kids)
    requires mem3 == mem2[p := mem2[p].(post := [])]
    ensures Cleaned(mem, mem3, p, kids)
  {
  }

  lemma PreTaken(mem: Mem, p: PoolNode, kids: Forest)
    requires Neighbours(mem, p, kids)
    ensures Shape(mem[p := mem[p].(pre := [])], kids, p, null, mem[p].child)
  {
    ShapeKept(mem, mem[p := mem[p].(pre := [])], kids, p, null, mem[p].child);
  }

  function CleanupLog(p: PoolNode, pre: seq<Cleanup>, post: seq<Cleanup>, kids: Forest): seq<Event>
  {
    RanAll(p, pre) + LogAll(kids) + RanAll(p, post)
  }

  method RunPre(p: PoolNode, ghost all: set<PoolNode>, ghost ps: set<Pool>, ghost alloc: Allocator, ghost of: Holdings) returns (log: seq<Event>)
    requires p in all && Standing(ps, alloc, of)
    modifies p`preCleanups
    ensures log == RanAll(p, old(p.preCleanups)) && p in old(MemOf(all)) && MemOf(all) == old(MemOf(all))[p := old(MemOf(all))[p].(pre := [])]
    ensures Standing(ps, alloc, of) && AccountOf(alloc) == old(AccountOf(alloc))
  {
    log := RunBoth(p, p.preCleanups);
    p.preCleanups := [];
  }

  method RunPost(p: PoolNode, ghost all: set<PoolNode>, ghost ps: set<Pool>, ghost alloc: Allocator, ghost of: Holdings) returns (log: seq<Event>)
    requires p in all && Standing(ps, alloc, of)
    modifies p`cleanups, p`freeCleanups
    ensures log == RanAll(p, old(p.cleanups)) && p in old(MemOf(all)) && MemOf(all) == old(MemOf(all))[p := old(MemOf(all))[p].(post := [])]
    ensures Standing(ps, alloc, of) && AccountOf(alloc) == old(AccountOf(alloc)) && p.freeCleanups == 0
  {
    log := RunBoth(p, p.cleanups);
    NoCleanups(p, all);
  }

  method NoCleanups(p: PoolNode, ghost all: set<PoolNode>)
    requires p in all
    modifies p`cleanups, p`freeCleanups
    ensures p in old(MemOf(all)) && MemOf(all) == old(MemOf(all))[p := old(MemOf(all))[p].(post := [])] && p.freeCleanups == 0
  {
    p.cleanups := [];
    p.freeCleanups := 0;
  }

  /** Pool_performCleanup: the pre-cleanups, the children, the cleanups. */
  method PerformCleanup(p: PoolNode, ghost kids: Forest, ghost all: set<PoolNode>, ghost ps: set<Pool>, alloc: Allocator, ghost of: Holdings)
      returns (log: seq<Event>, ghost freed: seq<MemNode>)
    requires p in all && Neighbours(MemOf(all), p, kids) && Mems(kids) <= ps && Standing(ps, alloc, of)
    modifies all, alloc, Held(of, Mems(kids))
    ensures log == CleanupLog(p, old(p.preCleanups), old(p.cleanups), kids) && Cleaned(old(MemOf(all)), MemOf(all), p, kids)
    ensures Standing(ps - Mems(kids), alloc, of) && Handed(old(AccountOf(alloc)), AccountOf(alloc), freed, Held(of, Mems(kids)))
    decreases Size(kids), 3
  {
    ghost var mem := MemOf(all);
    PreTaken(mem, p, kids);
    var l1 := RunPre(p, all, ps, alloc, of);
    ghost var mem1 := MemOf(all);
    var l2;
    l2, freed := DestroyKids(p, kids, all, ps, alloc, of);
    ghost var mem2 := MemOf(all);
    var l3 := RunPost(p, all, ps - Mems(kids), alloc, of);
    CleanedAtLast(mem, mem1, mem2, MemOf(all), p, kids);
    log := l1 + l2 + l3;
  }

  /** Unlinking looks at nothing but p's links and its neighbours. */
  lemma UnlinkedSame(mem: Mem, mem3: Mem, p: PoolNode, kids: Forest, q: PoolNode)
    requires Neighbours(mem, p, kids) && mem3.Keys == mem.Keys && q in mem && q != p && q !in Elems(kids)
    requires mem3[p].parent == mem[p].parent && mem3[p].prev == mem[p].prev && mem3[p].sibling == mem[p].sibling
    requires mem3[q] == mem[q]
    ensures q in Unlinked(mem, p) && q in Unlinked(mem3, p) && Unlinked(mem3, p)[q] == Unlinked(mem, p)[q]
  {
  }

  lemma UnlinkedKeys(mem: Mem, p: PoolNode)
    requires p in mem
    ensures Unlinked(mem, p).Keys == mem.Keys
  {
  }

  /** Cleaned and unlinked. */
  lemma GoneAtLast(mem: Mem, mem3: Mem, mem4: Mem, p: PoolNode, kids: Forest)
    requires Neighbours(mem, p, kids) && Cleaned(mem, mem3, p, kids) && mem4 == Unlinked(mem3, p)
    ensures Gone(mem, mem4, p, kids)
  {
    UnlinkedKeys(mem3, p);
    forall q | q in mem && q != p && q !in Elems(kids) ensures q in Unlinked(mem, p) && mem4[q] == Unlinked(mem, p)[q] {
      UnlinkedSame(mem, mem3, p, kids, q);
    }
  }

  /** ~Pool: the cleanups, the pools below, the links and the memory of the pool, in the order of LogOne; every node of
      the pool and of those below goes to the allocator exactly once. */
  method Destroy(p: PoolNode, ghost kids: Forest, ghost all: set<PoolNode>, ghost ps: set<Pool>, alloc: Allocator, ghost of: Holdings)
      returns (log: seq<Event>, ghost freed: seq<MemNode>)
    requires p in all && Neighbours(MemOf(all), p, kids)
    requires p.memory in ps && Mems(kids) <= ps && Standing(ps, alloc, of)
    modifies all, alloc, Held(of, Mems(kids) + {p.memory})
    ensures log == LogOne(p, old(p.preCleanups), old(p.cleanups), kids) && Gone(old(MemOf(all)), MemOf(all), p, kids)
    ensures Standing(ps - (Mems(kids) + {p.memory}), alloc, of)
    ensures Handed(old(AccountOf(alloc)), AccountOf(alloc), freed, Held(of, Mems(kids) + {p.memory}))
    decreases Size(kids), 4
  {
    ghost var mem, a := MemOf(all), AccountOf(alloc);
    HeldApart(ps, alloc, of, Mems(kids), {p.memory});
    log, freed := PerformCleanup(p, kids, all, ps, alloc, of);
    ghost var mem3, a1 := MemOf(all), AccountOf(alloc);
    ghost var g := LetGo(p, all, ps - Mems(kids), alloc, of);
    GoneAtLast(mem, mem3, MemOf(all), p, kids);
    HandedOn(a, a1, AccountOf(alloc), freed, g, Held(of, Mems(kids)), Held(of, {p.memory}));
    freed := freed + g;
    log := log + [Returned(p)];
    assert ps - Mems(kids) - {p.memory} == ps - (Mems(kids) + {p.memory});
  }

  /** The links and the memory of the pool. */
  method LetGo(p: PoolNode, ghost all: set<PoolNode>, ghost ps: set<Pool>, alloc: Allocator, ghost of: Holdings) returns (ghost freed: seq<MemNode>)
    requires p in all && (p.parent != null ==> p.parent in all) && (p.prev != null ==> p.prev in all) && (p.sibling != null ==> p.sibling in all)
    requires p.memory in ps && Standing(ps, alloc, of)
    modifies all, alloc, Held(of, {p.memory})
    ensures p in old(MemOf(all)) && MemOf(all) == Unlinked(old(MemOf(all)), p)
    ensures Standing(ps - {p.memory}, alloc, of) && Handed(old(AccountOf(alloc)), AccountOf(alloc), freed, Held(of, {p.memory}))
  {
    Unlink(p, all, ps, alloc, of);
    freed := ReturnMemory(p, all, ps, alloc, of);
  }

  /** clear: the cleanups and the pools below as in ~Pool, but the pool stays, with its own node and nothing else. */
  method Clear(p: PoolNode, ghost kids: Forest, ghost all: set<PoolNode>, ghost ps: set<Pool>, alloc: Allocator, ghost of: Holdings)
      returns (log: seq<Event>, ghost freed: seq<MemNode>)
    requires p in all && Neighbours(MemOf(all), p, kids)
    requires p.memory in ps && Mems(kids) <= ps && Standing(ps, alloc, of)
    modifies all, alloc, Held(of, Mems(kids) + {p.memory}), p.memory
    ensures log == CleanupLog(p, old(p.preCleanups), old(p.cleanups), kids) && Cleaned(old(MemOf(all)), MemOf(all), p, kids)
    ensures House(ps - Mems(kids), alloc) && p.memory.ring == [p.memory.self] && p.memory.blocks == []
    ensures Handed(old(AccountOf(alloc)), AccountOf(alloc), freed, Held(of, Mems(kids)) + (Held(of, {p.memory}) - {p.memory.self}))
  {
    ghost var a := AccountOf(alloc);
    HeldApart(ps, alloc, of, Mems(kids), {p.memory});
    log, freed := PerformCleanup(p, kids, all, ps, alloc, of);
    ghost var a1 := AccountOf(alloc);
    ghost var g := ClearMemory(p, all, ps - Mems(kids), alloc, of);
    HandedOn(a, a1, AccountOf(alloc), freed, g, Held(of, Mems(kids)), Held(of, {p.memory}) - {p.memory.self});
    freed := freed + g;
  }

  method ClearMemory(p: PoolNode, ghost all: set<PoolNode>, ghost ps: set<Pool>, alloc: Allocator, ghost of: Holdings)
      returns (ghost freed: seq<MemNode>)
    requires p.memory in ps && Standing(ps, alloc, of)
    modifies p.memory, Held(of, {p.memory}), alloc
    ensures MemOf(all) == old(MemOf(all))
    ensures House(ps, alloc) && p.memory.ring == [p.memory.self] && p.memory.blocks == []
    ensures Handed(old(AccountOf(alloc)), AccountOf(alloc), freed, Held(of, {p.memory}) - {p.memory.self})
  {
    StandingMeans(ps, alloc, of);
    assert Held(of, {p.memory}) == p.memory.Nodes();
    freed := ClearIn(p.memory, ps, alloc);
  }
}
