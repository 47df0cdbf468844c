/** A tree of pools without its pointers: what is done to it by paths of child numbers. */
module PoolPlans {
  import opened Latches
  import opened MemNodes
  import P = Pools
  import opened PoolTrees
  import opened PoolForests
  import C = PoolCleanups

  /** A list of siblings, each with its cleanups and the list of its children. */
  datatype Plan = End | Kin(pre: seq<Cleanup>, post: seq<Cleanup>, kids: Plan, next: Plan)

  /** What can be done to a pool. */
  datatype Act = Grow | Destroy | Clear | Take(req: P.Request) | Enlist(c: Cleanup, before: bool) | Strike(data: int, fn: int)

  /** What to do, and the path of child numbers that leads to the pool. */
  datatype Order = Order(path: seq<nat>, act: Act)

  predicate Sensible(o: Order) { o.act.Take? ==> o.act.req.size < WORD64 }

  /** What an act does to the list that starts with the pool. */
  function Acted(l: Plan, act: Act): Plan
    requires l.Kin?
  {
    match act
    case Grow => l.(kids := Kin([], [], End, l.kids))
    case Destroy => l.next
    case Clear => l.(pre := [], post := [], kids := End)
    case Take(_) => l
    case Enlist(c, before) => if before then l.(pre := [c] + l.pre) else l.(post := [c] + l.post)
    case Strike(data, fn) => l.(pre := C.Killed(l.pre, data, fn), post := C.Killed(l.post, data, fn))
  }

  /** The same, k places on in the list and then down the path. */
  function Edited(l: Plan, k: nat, path: seq<nat>, act: Act): Plan
  {
    match l
    case End => End
    case Kin(pre, post, kids, next) =>
      if k > 0 then l.(next := Edited(next, k - 1, path, act))
      else if path == [] then Acted(l, act)
      else l.(kids := Edited(kids, path[0], path[1..], act))
  }

  /** The root's cleanups and the pools below it. */
  datatype Whole = Whole(pre: seq<Cleanup>, post: seq<Cleanup>, kids: Plan)

  /** An order carried out; the root is not destroyed, and an order for a pool that is not there changes nothing. */
  function Ordered(w: Whole, o: Order): Whole
  {
    if o.path != [] then w.(kids := Edited(w.kids, o.path[0], o.path[1..], o.act))
    else if o.act.Destroy? then w
    else
      var l := Acted(Kin(w.pre, w.post, w.kids, End), o.act);
      Whole(l.pre, l.post, l.kids)
  }

  function PlanOf(f: Forest): Plan
  {
    match f
    case Empty => End
    case Pools(_, pre, post, kids, next) => Kin(pre, post, PlanOf(kids), PlanOf(next))
  }

  // ---- where a path leads ----

  /** The list k places on. */
  function Nth(f: Forest, k: nat): Forest
  {
    if f.Empty? || k == 0 then f else Nth(f.next, k - 1)
  }

  /** The list that starts with the pool at this place. */
  function Sub(f: Forest, k: nat, path: seq<nat>): Forest
  {
    match f
    case Empty => Empty
    case Pools(_, _, _, kids, next) =>
      if k > 0 then Sub(next, k - 1, path) else if path == [] then f else Sub(kids, path[0], path[1..])
  }

  function First(f: Forest): PoolNode? { if f.Empty? then null else f.root }

  /** The pool that a path leads to from p, whose children are kids. */
  function Below(p: PoolNode, kids: Forest, path: seq<nat>): PoolNode?
  {
    if path == [] then p else First(Sub(kids, path[0], path[1..]))
  }

  lemma {:induction false} SubByNth(f: Forest, k: nat, path: seq<nat>)
    ensures var s := Nth(f, k); First(Sub(f, k, path)) == if s.Empty? then null else Below(s.root, s.kids, path)
    decreases f
  {
    if f.Pools? && k > 0 {
      SubByNth(f.next, k - 1, path);
    }
  }

  /** No pool stands in two places. */
  ghost predicate Distinct(f: Forest)
  {
    f.Pools? ==>
      && f.root !in Elems(f.kids) && f.root !in Elems(f.next) && Elems(f.kids) !! Elems(f.next)
      && Distinct(f.kids) && Distinct(f.next)
  }

  lemma {:induction false} ShapeDistinct(mem: Mem, f: Forest, parent: PoolNode, prev: PoolNode?, head: PoolNode?)
    requires Shape(mem, f, parent, prev, head)
    ensures Distinct(f)
    decreases f
  {
    if f.Pools? {
      ShapeDistinct(mem, f.kids, f.root, null, mem[f.root].child);
      ShapeDistinct(mem, f.next, parent, f.root, mem[f.root].sibling);
    }
  }

  /** The pool at a place is in the forest, with these children. */
  lemma {:induction false} SubIn(f: Forest, k: nat, path: seq<nat>)
    requires Distinct(f) && Sub(f, k, path).Pools?
    ensures var s := Sub(f, k, path); s.root in Elems(f) && KidsOf(f, s.root) == s.kids
    decreases f
  {
    if k > 0 {
      SubIn(f.next, k - 1, path);
    } else if path != [] {
      SubIn(f.kids, path[0], path[1..]);
    }
  }

  /** Children of a pool inside the forest are its children there. */
  lemma {:induction false} KidsOfKids(f: Forest, q: PoolNode, p: PoolNode)
    requires Distinct(f) && q in Elems(f) && p in Elems(KidsOf(f, q))
    ensures p in Elems(f) && KidsOf(f, p) == KidsOf(KidsOf(f, q), p)
    decreases f
  {
    if f.root != q {
      if q in Elems(f.kids) {
        KidsOfKids(f.kids, q, p);
      } else {
        KidsOfKids(f.next, q, p);
      }
    }
  }

  lemma {:induction false} ListsIn(mem: Mem, f: Forest, parent: PoolNode, prev: PoolNode?, head: PoolNode?, k: nat, path: seq<nat>)
    requires Shape(mem, f, parent, prev, head) && Sub(f, k, path).Pools?
    ensures var s := Sub(f, k, path); s.root in mem && mem[s.root].pre == s.pre && mem[s.root].post == s.post
    decreases f
  {
    if k > 0 {
      ListsIn(mem, f.next, parent, f.root, mem[f.root].sibling, k - 1, path);
    } else if path != [] {
      ListsIn(mem, f.kids, f.root, null, mem[f.root].child, path[0], path[1..]);
    }
  }

  // ---- what is done to the forest is what is done to the plan ----

  lemma {:induction false} NothingThere(f: Forest, k: nat, path: seq<nat>, act: Act)
    requires Sub(f, k, path).Empty?
    ensures Edited(PlanOf(f), k, path, act) == PlanOf(f)
    decreases f
  {
    if f.Pools? {
      if k > 0 {
        NothingThere(f.next, k - 1, path, act);
      } else if path != [] {
        NothingThere(f.kids, path[0], path[1..], act);
      }
    }
  }

  lemma {:induction false} GrownPlan(f: Forest, k: nat, path: seq<nat>, p: PoolNode)
    requires Distinct(f) && Sub(f, k, path).Pools?
    ensures PlanOf(Grown(f, Sub(f, k, path).root, p)) == Edited(PlanOf(f), k, path, Grow)
    decreases f
  {
    var q := Sub(f, k, path).root;
    if k > 0 {
      SubIn(f.next, k - 1, path);
      GrownPlan(f.next, k - 1, path, p);
      GrownElems(f.kids, q, p);
    } else if path != [] {
      SubIn(f.kids, path[0], path[1..]);
      GrownPlan(f.kids, path[0], path[1..], p);
      GrownElems(f.next, q, p);
    } else {
      assert PlanOf(Pools(p, [], [], Empty, f.kids)) == Kin([], [], End, PlanOf(f.kids));
    }
  }

  lemma {:induction false} PrunedPlan(f: Forest, k: nat, path: seq<nat>)
    requires Distinct(f) && Sub(f, k, path).Pools?
    ensures PlanOf(Pruned(f, Sub(f, k, path).root)) == Edited(PlanOf(f), k, path, Destroy)
    decreases f
  {
    var q := Sub(f, k, path).root;
    if k > 0 {
      SubIn(f.next, k - 1, path);
      PrunedPlan(f.next, k - 1, path);
      PrunedSame(f.kids, q);
    } else if path != [] {
      SubIn(f.kids, path[0], path[1..]);
      PrunedPlan(f.kids, path[0], path[1..]);
      PrunedSame(f.next, q);
    }
  }

  lemma {:induction false} RewrittenPlan(f: Forest, k: nat, path: seq<nat>, act: Act, pre: seq<Cleanup>, post: seq<Cleanup>, kids: Forest)
    requires Distinct(f) && Sub(f, k, path).Pools?
    requires var s := Sub(f, k, path); Acted(PlanOf(s), act) == Kin(pre, post, PlanOf(kids), PlanOf(s.next))
    ensures Sub(f, k, path).root in Elems(f)
    ensures PlanOf(Rewritten(f, Sub(f, k, path).root, pre, post, kids)) == Edited(PlanOf(f), k, path, act)
    decreases f
  {
    if k > 0 {
      SubIn(f.next, k - 1, path);
      RewrittenPlan(f.next, k - 1, path, act, pre, post, kids);
    } else if path != [] {
      SubIn(f.kids, path[0], path[1..]);
      RewrittenPlan(f.kids, path[0], path[1..], act, pre, post, kids);
    }
  }

  // ---- what is called ----

  /** The callbacks of a list of cleanups, in order. */
  function Called(cs: seq<Cleanup>): seq<Cleanup>
  {
    if cs == [] then [] else Called(cs[..|cs| - 1]) + if cs[|cs| - 1].fn != 0 then [cs[|cs| - 1]] else []
  }

  /** For each pool its pre-cleanups, what is called below it, and its cleanups. */
  function CallsAll(l: Plan): seq<Cleanup>
  {
    match l
    case End => []
    case Kin(pre, post, kids, next) => Called(pre) + CallsAll(kids) + Called(post) + CallsAll(next)
  }

  /** What an act on the first pool of the list calls. */
  function CallsOne(pre: seq<Cleanup>, post: seq<Cleanup>, kids: Plan, act: Act): seq<Cleanup>
  {
    if act.Destroy? || act.Clear? then Called(pre) + CallsAll(kids) + Called(post) else []
  }

  function CallsAt(l: Plan, k: nat, path: seq<nat>, act: Act): seq<Cleanup>
  {
    match l
    case End => []
    case Kin(pre, post, kids, next) =>
      if k > 0 then CallsAt(next, k - 1, path, act)
      else if path == [] then CallsOne(pre, post, kids, act)
      else CallsAt(kids, path[0], path[1..], act)
  }

  /** What an order calls. */
  function Calls(w: Whole, o: Order): seq<Cleanup>
  {
    if o.path != [] then CallsAt(w.kids, o.path[0], o.path[1..], o.act)
    else if o.act.Destroy? then []
    else CallsOne(w.pre, w.post, w.kids, o.act)
  }

  /** The cleanups that ran. */
  function Whats(log: seq<Event>): seq<Cleanup>
  {
    if log == [] then [] else (if log[0].Ran? then [log[0].what] else []) + Whats(log[1..])
  }

  lemma {:induction false} WhatsJoin(a: seq<Event>, b: seq<Event>)
    ensures Whats(a + b) == Whats(a) + Whats(b)
  {
    if a == [] {
      assert a + b == b;
    } else {
      assert (a + b)[1..] == a[1..] + b;
      WhatsJoin(a[1..], b);
    }
  }

  lemma {:induction false} WhatsRan(p: PoolNode, cs: seq<Cleanup>)
    ensures Whats(RanAll(p, cs)) == Called(cs)
  {
    if cs != [] {
      var before, last := cs[..|cs| - 1], cs[|cs| - 1];
      WhatsRan(p, before);
      WhatsJoin(RanAll(p, before), RanOne(p, last));
      assert Whats(RanOne(p, last)) == if last.fn != 0 then [last] else [];
    }
  }

  lemma WhatsCleanup(p: PoolNode, pre: seq<Cleanup>, post: seq<Cleanup>, kids: Forest)
    requires Whats(LogAll(kids)) == CallsAll(PlanOf(kids))
    ensures Whats(CleanupLog(p, pre, post, kids)) == Called(pre) + CallsAll(PlanOf(kids)) + Called(post)
    ensures Whats(LogOne(p, pre, post, kids)) == Called(pre) + CallsAll(PlanOf(kids)) + Called(post)
  {
    WhatsRan(p, pre);
    WhatsRan(p, post);
    WhatsJoin(RanAll(p, pre), LogAll(kids));
    WhatsJoin(RanAll(p, pre) + LogAll(kids), RanAll(p, post));
    WhatsJoin(CleanupLog(p, pre, post, kids), [Returned(p)]);
    assert LogOne(p, pre, post, kids) == CleanupLog(p, pre, post, kids) + [Returned(p)];
    assert Whats([Returned(p)]) == [];
  }

  lemma {:induction false} WhatsAll(f: Forest)
    ensures Whats(LogAll(f)) == CallsAll(PlanOf(f))
    decreases f
  {
    if f.Pools? {
      WhatsAll(f.kids);
      WhatsAll(f.next);
      WhatsCleanup(f.root, f.pre, f.post, f.kids);
      WhatsJoin(LogOne(f.root, f.pre, f.post, f.kids), LogAll(f.next));
    }
  }

  lemma {:induction false} CallsThere(f: Forest, k: nat, path: seq<nat>, act: Act)
    ensures var s := Sub(f, k, path);
      CallsAt(PlanOf(f), k, path, act) == if s.Empty? then [] else CallsOne(s.pre, s.post, PlanOf(s.kids), act)
    decreases f
  {
    if f.Pools? {
      if k > 0 {
        CallsThere(f.next, k - 1, path, act);
      } else if path != [] {
        CallsThere(f.kids, path[0], path[1..], act);
      }
    }
  }

  // ---- on the whole tree ----

  /** The tree of pools below and including r, as it is. */
  ghost function WholeOf(mem: Mem, r: PoolNode, f: Forest): Whole
    requires r in mem
  {
    Whole(mem[r].pre, mem[r].post, PlanOf(f))
  }

  /** w' is what the order makes of w, and the log what it calls; to be handed on. */
  ghost predicate Told(w: Whole, o: Order, w': Whole, log: seq<Event>)
  {
    forall l {:trigger Lifted(l)} :: Lifted(l) ==> w' == Ordered(w, o) && Whats(log) == Calls(w, o)
  }

  /** A path that leads nowhere. */
  lemma NoneTold(mem: Mem, r: PoolNode, f: Forest, o: Order)
    requires Tree(mem, r, f) && Below(r, f, o.path) == null
    ensures Told(WholeOf(mem, r, f), o, WholeOf(mem, r, f), [])
  {
    CallsThere(f, o.path[0], o.path[1..], o.act);
    NothingThere(f, o.path[0], o.path[1..], o.act);
  }

  /** The root is not destroyed. */
  lemma RootTold(mem: Mem, r: PoolNode, f: Forest)
    requires Tree(mem, r, f)
    ensures Told(WholeOf(mem, r, f), Order([], Destroy), WholeOf(mem, r, f), [])
  {
  }

  /** The pool that the path leads to, with its lists and its children. */
  lemma Found(mem: Mem, r: PoolNode, f: Forest, path: seq<nat>, act: Act)
    requires Tree(mem, r, f) && Below(r, f, path) != null
    ensures var p, w := Below(r, f, path), WholeOf(mem, r, f);
      && p in mem && InTreeOf(r, f, p) && (p == r <==> path == [])
      && ((act.Destroy? && p == r) || Calls(w, Order(path, act)) == CallsOne(mem[p].pre, mem[p].post, PlanOf(KidsIn(r, f, p)), act))
  {
    if path != [] {
      ShapeDistinct(mem, f, r, null, mem[r].child);
      CallsThere(f, path[0], path[1..], act);
      SubIn(f, path[0], path[1..]);
      ListsIn(mem, f, r, null, mem[r].child, path[0], path[1..]);
    }
  }

  lemma GrownTold(mem: Mem, r: PoolNode, f: Forest, path: seq<nat>, p: PoolNode)
    requires Tree(mem, r, f) && Below(r, f, path) != null
    ensures var w := WholeOf(mem, r, f); Told(w, Order(path, Grow), w.(kids := PlanOf(GrownAt(r, f, Below(r, f, path), p))), [])
  {
    Found(mem, r, f, path, Grow);
    if path != [] {
      ShapeDistinct(mem, f, r, null, mem[r].child);
      GrownPlan(f, path[0], path[1..], p);
    } else {
      assert PlanOf(Pools(p, [], [], Empty, f)) == Kin([], [], End, PlanOf(f));
    }
  }

  lemma PrunedTold(mem: Mem, r: PoolNode, f: Forest, path: seq<nat>, p: PoolNode)
    requires Tree(mem, r, f) && p == Below(r, f, path) && path != []
    ensures p in mem && p in Elems(f)
    ensures var w := WholeOf(mem, r, f);
      Told(w, Order(path, Destroy), w.(kids := PlanOf(Pruned(f, p))), LogOne(p, mem[p].pre, mem[p].post, KidsOf(f, p)))
  {
    Found(mem, r, f, path, Destroy);
    ShapeDistinct(mem, f, r, null, mem[r].child);
    PrunedPlan(f, path[0], path[1..]);
    WhatsAll(KidsOf(f, p));
    WhatsCleanup(p, mem[p].pre, mem[p].post, KidsOf(f, p));
  }

  /** The whole tree with new lists and children for p. */
  ghost function WholeWith(w: Whole, r: PoolNode, f: Forest, p: PoolNode, pre: seq<Cleanup>, post: seq<Cleanup>, kids: Forest): Whole
    requires InTreeOf(r, f, p)
  {
    Whole(if p == r then pre else w.pre, if p == r then post else w.post, PlanOf(RewrittenAt(r, f, p, pre, post, kids)))
  }

  /** An act that changes the pool's lists and children and no more. */
  lemma RewrittenOrder(mem: Mem, r: PoolNode, f: Forest, path: seq<nat>, act: Act, pre: seq<Cleanup>, post: seq<Cleanup>, kids: Forest)
    requires Tree(mem, r, f) && Below(r, f, path) != null && !act.Destroy?
    requires var p := Below(r, f, path);
      && p in mem && InTreeOf(r, f, p)
      && Acted(Kin(mem[p].pre, mem[p].post, PlanOf(KidsIn(r, f, p)), End), act) == Kin(pre, post, PlanOf(kids), End)
    ensures var w, p := WholeOf(mem, r, f), Below(r, f, path); Ordered(w, Order(path, act)) == WholeWith(w, r, f, p, pre, post, kids)
  {
    Found(mem, r, f, path, act);
    if path != [] {
      var k, rest := path[0], path[1..];
      ShapeDistinct(mem, f, r, null, mem[r].child);
      SubIn(f, k, rest);
      ListsIn(mem, f, r, null, mem[r].child, k, rest);
      RewrittenPlan(f, k, rest, act, pre, post, kids);
    }
  }

  lemma ClearedTold(mem: Mem, r: PoolNode, f: Forest, path: seq<nat>, p: PoolNode)
    requires Tree(mem, r, f) && p == Below(r, f, path)
    ensures p in mem && InTreeOf(r, f, p)
    ensures var w := WholeOf(mem, r, f);
      Told(w, Order(path, Clear), WholeWith(w, r, f, p, [], [], Empty), CleanupLog(p, mem[p].pre, mem[p].post, KidsIn(r, f, p)))
  {
    Found(mem, r, f, path, Clear);
    RewrittenOrder(mem, r, f, path, Clear, [], [], Empty);
    WhatsAll(KidsIn(r, f, p));
    WhatsCleanup(p, mem[p].pre, mem[p].post, KidsIn(r, f, p));
  }

  /** What an act that only concerns the lists makes of them. */
  function Relists(act: Act, pre: seq<Cleanup>, post: seq<Cleanup>): C.Lists
  {
    match act
    case Enlist(c, before) => if before then C.Lists([c] + pre, post) else C.Lists(pre, [c] + post)
    case Strike(data, fn) => C.KilledBoth(C.Lists(pre, post), data, fn)
    case _ => C.Lists(pre, post)
  }

  lemma RelistedTold(mem: Mem, r: PoolNode, f: Forest, path: seq<nat>, p: PoolNode, act: Act)
    requires Tree(mem, r, f) && p == Below(r, f, path) && (act.Enlist? || act.Strike? || act.Take?)
    ensures p in mem && InTreeOf(r, f, p)
    ensures var w, l := WholeOf(mem, r, f), Relists(act, mem[p].pre, mem[p].post);
      Told(w, Order(path, act), WholeWith(w, r, f, p, l.pre, l.post, KidsIn(r, f, p)), [])
  {
    Found(mem, r, f, path, act);
    var l := Relists(act, mem[p].pre, mem[p].post);
    RewrittenOrder(mem, r, f, path, act, l.pre, l.post, KidsIn(r, f, p));
  }

  /** A pool rewritten as it is. */
  lemma {:induction false} SameForest(mem: Mem, f: Forest, parent: PoolNode, prev: PoolNode?, head: PoolNode?, p: PoolNode)
    requires Shape(mem, f, parent, prev, head) && p in Elems(f)
    ensures p in mem && Rewritten(f, p, mem[p].pre, mem[p].post, KidsOf(f, p)) == f
    decreases f
  {
    if f.root != p {
      if p in Elems(f.kids) {
        SameForest(mem, f.kids, f.root, null, mem[f.root].child, p);
      } else {
        SameForest(mem, f.next, parent, f.root, mem[f.root].sibling, p);
      }
    }
  }

  lemma TakenTold(mem: Mem, r: PoolNode, f: Forest, path: seq<nat>, p: PoolNode, req: P.Request)
    requires Tree(mem, r, f) && p == Below(r, f, path)
    ensures Told(WholeOf(mem, r, f), Order(path, Take(req)), WholeOf(mem, r, f), [])
  {
    RelistedTold(mem, r, f, path, p, Take(req));
    if p != r {
      SameForest(mem, f, r, null, mem[r].child, p);
    }
    assert WholeWith(WholeOf(mem, r, f), r, f, p, mem[p].pre, mem[p].post, KidsIn(r, f, p)) == WholeOf(mem, r, f);
  }

  // ---- any run ----

  /** The tree after the first n orders. */
  function After(w: Whole, orders: seq<Order>, n: nat): Whole
    requires n <= |orders|
  {
    if n == 0 then w else Ordered(After(w, orders, n - 1), orders[n - 1])
  }

  /** What they have called. */
  function CalledBy(w: Whole, orders: seq<Order>, n: nat): seq<Cleanup>
    requires n <= |orders|
  {
    if n == 0 then [] else CalledBy(w, orders, n - 1) + Calls(After(w, orders, n - 1), orders[n - 1])
  }

  /** Both; to be handed on. */
  ghost predicate Reached(w: Whole, orders: seq<Order>, n: nat, w': Whole, log: seq<Event>)
    requires n <= |orders|
  {
    forall l {:trigger Lifted(l)} :: Lifted(l) ==> w' == After(w, orders, n) && Whats(log) == CalledBy(w, orders, n)
  }

  lemma ReachedNext(w: Whole, orders: seq<Order>, n: nat, v: Whole, log: seq<Event>, w': Whole, more: seq<Event>)
    requires n < |orders| && Reached(w, orders, n, v, log) && Told(v, orders[n], w', more)
    ensures Reached(w, orders, n + 1, w', log + more)
  {
    assert Lifted(Latch);
    WhatsJoin(log, more);
  }

  lemma ReachedMeans(w: Whole, orders: seq<Order>, w': Whole, log: seq<Event>)
    requires Reached(w, orders, |orders|, w', log)
    ensures w' == After(w, orders, |orders|) && Whats(log) == CalledBy(w, orders, |orders|)
  {
    assert Lifted(Latch);
  }
}
