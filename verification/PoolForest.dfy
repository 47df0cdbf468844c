/** Pools come and go anywhere in the tree. */
module PoolForests {
  import opened MemNodes
  import opened Allocators
  import P = Pools
  import opened PoolHouses
  import opened PoolTrees

  /** The children of a pool, anywhere in the forest. */
  function KidsOf(f: Forest, p: PoolNode): Forest
    requires p in Elems(f)
  {
    if f.root == p then f.kids else if p in Elems(f.kids) then KidsOf(f.kids, p) else KidsOf(f.next, p)
  }

  /** The forest without a pool and everything below it. */
  function Pruned(f: Forest, p: PoolNode): Forest
  {
    if f.Empty? then Empty
    else if f.root == p then f.next
    else f.(kids := Pruned(f.kids, p), next := Pruned(f.next, p))
  }

  /** The forest with a new first child of q. */
  function Grown(f: Forest, q: PoolNode, p: PoolNode): Forest
  {
    if f.Empty? then Empty
    else if f.root == q then f.(kids := Pools(p, [], [], Empty, f.kids))
    else f.(kids := Grown(f.kids, q, p), next := Grown(f.next, q, p))
  }

  lemma {:induction false} PrunedSame(f: Forest, p: PoolNode)
    requires p !in Elems(f)
    ensures Pruned(f, p) == f
  {
    if f.Pools? {
      PrunedSame(f.kids, p);
      PrunedSame(f.next, p);
    }
  }

  /** Where the links of a pool lead. */
  lemma {:induction false} LinksOfOne(mem: Mem, f: Forest, parent: PoolNode, prev: PoolNode?, head: PoolNode?, p: PoolNode)
    requires Shape(mem, f, parent, prev, head) && p in Elems(f)
    ensures p in mem && p !in Elems(KidsOf(f, p)) && Elems(KidsOf(f, p)) <= Elems(f)
    ensures p.memory in Mems(f) && p.memory !in Mems(KidsOf(f, p)) && Mems(KidsOf(f, p)) <= Mems(f)
    ensures Shape(mem, KidsOf(f, p), p, null, mem[p].child)
    ensures mem[p].parent == parent || mem[p].parent in Elems(f)
    ensures mem[p].prev == null || mem[p].prev == prev || mem[p].prev in Elems(f)
    ensures mem[p].sibling != null ==> mem[p].sibling in Elems(f)
    decreases f
  {
    if f.root != p {
      if p in Elems(f.kids) {
        LinksOfOne(mem, f.kids, f.root, null, mem[f.root].child, p);
      } else {
        LinksOfOne(mem, f.next, parent, f.root, mem[f.root].sibling, p);
      }
    }
  }

  /** A pool anywhere in the forest can be destroyed. */
  lemma {:induction false} Ready(mem: Mem, f: Forest, parent: PoolNode, prev: PoolNode?, head: PoolNode?, p: PoolNode)
    requires Shape(mem, f, parent, prev, head) && p in Elems(f) && parent in mem && parent !in Elems(f)
    requires prev != null ==> prev in mem && prev !in Elems(f)
    ensures Neighbours(mem, p, KidsOf(f, p))
    decreases f
  {
    ShapeIn(mem, f, parent, prev, head);
    if f.root != p {
      if p in Elems(f.kids) {
        Ready(mem, f.kids, f.root, null, mem[f.root].child, p);
      } else {
        Ready(mem, f.next, parent, f.root, mem[f.root].sibling, p);
      }
    }
  }

  /** A list that unlinking p does not touch. */
  lemma Untouched(mem: Mem, mem': Mem, p: PoolNode, gone: Forest, f: Forest, parent: PoolNode, prev: PoolNode?, head: PoolNode?)
    requires Shape(mem, f, parent, prev, head) && Gone(mem, mem', p, gone) && p !in Elems(f) && Elems(f) !! Elems(gone)
    requires (mem[p].prev != null ==> mem[p].prev !in Elems(f)) && (mem[p].parent != null ==> mem[p].parent !in Elems(f))
    requires mem[p].sibling != null ==> mem[p].sibling !in Elems(f)
    ensures Shape(mem', f, parent, prev, head)
  {
    ShapeIn(mem, f, parent, prev, head);
    forall q | q in Elems(f)
      ensures q in mem' && mem'[q] == mem[q]
    {
      UnlinkedElse(mem, p, q);
    }
    ShapeKept(mem, mem', f, parent, prev, head);
  }

  lemma UnlinkedElse(mem: Mem, p: PoolNode, q: PoolNode)
    requires p in mem && q in mem && q != mem[p].prev && q != mem[p].parent && q != mem[p].sibling
    ensures q in Unlinked(mem, p) && Unlinked(mem, p)[q] == mem[q]
  {
  }

  lemma PruneFirst(mem: Mem, mem': Mem, f: Forest, parent: PoolNode, prev: PoolNode?, head: PoolNode?)
    requires f.Pools? && Shape(mem, f, parent, prev, head) && Gone(mem, mem', f.root, f.kids)
    requires parent !in Elems(f) && (prev != null ==> prev !in Elems(f))
    ensures Shape(mem', f.next, parent, prev, mem[f.root].sibling)
  {
    if f.next.Pools? {
      var n := f.next;
      Untouched(mem, mem', f.root, f.kids, n.kids, n.root, null, mem[n.root].child);
      Untouched(mem, mem', f.root, f.kids, n.next, parent, n.root, mem[n.root].sibling);
    }
  }

  lemma {:induction false} PrunedElems(f: Forest, p: PoolNode)
    ensures Elems(Pruned(f, p)) <= Elems(f) && Mems(Pruned(f, p)) <= Mems(f)
    decreases f
  {
    if f.Pools? && f.root != p {
      PrunedElems(f.kids, p);
      PrunedElems(f.next, p);
    }
  }

  /** Wherever a pool is destroyed, the forest without it is what remains. */
  lemma {:induction false} PruneForest(mem: Mem, mem': Mem, f: Forest, parent: PoolNode, prev: PoolNode?, head: PoolNode?, p: PoolNode)
    requires Shape(mem, f, parent, prev, head) && p in Elems(f) && Gone(mem, mem', p, KidsOf(f, p))
    requires parent !in Elems(f) && (prev != null ==> prev !in Elems(f))
    ensures Shape(mem', Pruned(f, p), parent, prev, if f.root == p then mem[p].sibling else head)
    decreases f, 1
  {
    if f.root == p {
      PruneFirst(mem, mem', f, parent, prev, head);
    } else {
      PrunedElems(f.kids, p);
      PrunedElems(f.next, p);
      if p in Elems(f.kids) {
        PruneBelow(mem, mem', f, parent, prev, head, p);
      } else {
        PruneBehind(mem, mem', f, parent, prev, head, p);
      }
    }
  }

  lemma {:induction false} PruneBelow(mem: Mem, mem': Mem, f: Forest, parent: PoolNode, prev: PoolNode?, head: PoolNode?, p: PoolNode)
    requires Shape(mem, f, parent, prev, head) && f.Pools? && p in Elems(f.kids) && f.root != p && Gone(mem, mem', p, KidsOf(f, p))
    requires parent !in Elems(f) && (prev != null ==> prev !in Elems(f))
    ensures f.root in mem' && mem'[f.root] == mem[f.root].(child := mem'[f.root].child)
    ensures Shape(mem', Pruned(f.kids, p), f.root, null, mem'[f.root].child)
    ensures Pruned(f.next, p) == f.next && Shape(mem', f.next, parent, f.root, mem[f.root].sibling)
    decreases f, 0
  {
    LinksOfOne(mem, f.kids, f.root, null, mem[f.root].child, p);
    if f.kids.root != p {
      NotHead(mem, f.kids, f.root, null, mem[f.root].child, p);
    }
    PruneForest(mem, mem', f.kids, f.root, null, mem[f.root].child, p);
    PrunedSame(f.next, p);
    Untouched(mem, mem', p, KidsOf(f.kids, p), f.next, parent, f.root, mem[f.root].sibling);
  }

  lemma {:induction false} PruneBehind(mem: Mem, mem': Mem, f: Forest, parent: PoolNode, prev: PoolNode?, head: PoolNode?, p: PoolNode)
    requires Shape(mem, f, parent, prev, head) && f.Pools? && p in Elems(f.next) && f.root != p && Gone(mem, mem', p, KidsOf(f, p))
    requires parent !in Elems(f) && (prev != null ==> prev !in Elems(f))
    ensures f.root in mem' && mem'[f.root] == mem[f.root].(sibling := mem'[f.root].sibling)
    ensures Shape(mem', Pruned(f.next, p), parent, f.root, mem'[f.root].sibling)
    ensures Pruned(f.kids, p) == f.kids && Shape(mem', f.kids, f.root, null, mem[f.root].child)
    decreases f, 0
  {
    LinksOfOne(mem, f.next, parent, f.root, mem[f.root].sibling, p);
    if f.next.root != p {
      NotHead(mem, f.next, parent, f.root, mem[f.root].sibling, p);
    }
    PruneForest(mem, mem', f.next, parent, f.root, mem[f.root].sibling, p);
    PrunedSame(f.kids, p);
    Untouched(mem, mem', p, KidsOf(f.next, p), f.kids, f.root, null, mem[f.root].child);
  }

  // ---- a new pool anywhere ----

  /** p has become the first child of q. */
  ghost predicate Joined(mem: Mem, mem': Mem, q: PoolNode, p: PoolNode)
  {
    && q in mem && p !in mem && p in mem' && q in mem' && q != p
    && mem'[p] == Cell(q, null, mem[q].child, null, [], []) && mem'[q] == mem[q].(child := p)
    && (forall x :: x in mem && x != q && x != mem[q].child ==> x in mem' && mem'[x] == mem[x])
    && (mem[q].child != null && mem[q].child in mem && mem[q].child != q ==>
          mem[q].child in mem' && mem'[mem[q].child] == mem[mem[q].child].(prev := p))
  }

  lemma SameLists(mem: Mem, mem': Mem, q: PoolNode, p: PoolNode, x: PoolNode)
    requires Joined(mem, mem', q, p) && x in mem && mem[q].child != q && (mem[q].child != null ==> mem[q].child in mem)
    ensures x in mem' && mem'[x].pre == mem[x].pre && mem'[x].post == mem[x].post
  {
  }

  lemma Pushed(mem: Mem, mem': Mem, f: Forest, q: PoolNode, p: PoolNode)
    requires Joined(mem, mem', q, p) && Shape(mem, f, q, null, mem[q].child) && q !in Elems(f) && p.memory !in Mems(f)
    ensures Shape(mem', Pools(p, [], [], Empty, f), q, null, p)
  {
    ShapeIn(mem, f, q, null, mem[q].child);
    if f.Pools? {
      ShapeKept(mem, mem', f.kids, f.root, null, mem[f.root].child);
      ShapeKept(mem, mem', f.next, q, f.root, mem[f.root].sibling);
    }
  }

  lemma {:induction false} GrownElems(f: Forest, q: PoolNode, p: PoolNode)
    ensures Elems(Grown(f, q, p)) <= Elems(f) + {p} && Mems(Grown(f, q, p)) <= Mems(f) + {p.memory}
    ensures q !in Elems(f) ==> Grown(f, q, p) == f
    ensures q in Elems(f) ==> p in Elems(Grown(f, q, p))
    ensures Elems(f) <= Elems(Grown(f, q, p))
    decreases f
  {
    if f.Pools? {
      if f.root == q {
        var kids := Pools(p, [], [], Empty, f.kids);
        assert Elems(kids) == {p} + Elems(f.kids) && Mems(kids) == {p.memory} + Mems(f.kids);
      } else {
        GrownElems(f.kids, q, p);
        GrownElems(f.next, q, p);
      }
    }
  }

  /** The child of a pool lies below it. */
  lemma ChildBelow(mem: Mem, f: Forest, parent: PoolNode, prev: PoolNode?, head: PoolNode?, q: PoolNode)
    requires Shape(mem, f, parent, prev, head) && q in Elems(f)
    ensures q in mem && (mem[q].child != null ==> mem[q].child in Elems(f) && mem[q].child != q)
  {
    LinksOfOne(mem, f, parent, prev, head, q);
  }

  /** A list in which neither q nor its first child is. */
  lemma Elsewhere(mem: Mem, mem': Mem, f: Forest, parent: PoolNode, prev: PoolNode?, head: PoolNode?, q: PoolNode, p: PoolNode)
    requires Joined(mem, mem', q, p) && Shape(mem, f, parent, prev, head) && q !in Elems(f) && (mem[q].child != null ==> mem[q].child !in Elems(f))
    ensures Shape(mem', f, parent, prev, head)
  {
    ShapeKept(mem, mem', f, parent, prev, head);
  }

  /** Wherever a pool gets a new child, the forest with it is what there is. */
  lemma {:induction false} GrowForest(mem: Mem, mem': Mem, f: Forest, parent: PoolNode, prev: PoolNode?, head: PoolNode?, q: PoolNode, p: PoolNode)
    requires Shape(mem, f, parent, prev, head) && q in Elems(f) && Joined(mem, mem', q, p) && p.memory !in Mems(f)
    ensures Shape(mem', Grown(f, q, p), parent, prev, head)
    decreases f
  {
    ShapeIn(mem, f, parent, prev, head);
    if f.root == q {
      ChildBelow(mem, f, parent, prev, head, q);
      Pushed(mem, mem', f.kids, q, p);
      Elsewhere(mem, mem', f.next, parent, q, mem[q].sibling, q, p);
    } else {
      GrownElems(f.kids, q, p);
      GrownElems(f.next, q, p);
      if q in Elems(f.kids) {
        ChildBelow(mem, f.kids, f.root, null, mem[f.root].child, q);
        GrowForest(mem, mem', f.kids, f.root, null, mem[f.root].child, q, p);
        Elsewhere(mem, mem', f.next, parent, f.root, mem[f.root].sibling, q, p);
      } else {
        ChildBelow(mem, f.next, parent, f.root, mem[f.root].sibling, q);
        GrowForest(mem, mem', f.next, parent, f.root, mem[f.root].sibling, q, p);
        Elsewhere(mem, mem', f.kids, f.root, null, mem[f.root].child, q, p);
      }
    }
  }

  // ---- the whole tree ----

  /** A root pool and everything below it. */
  ghost predicate Tree(mem: Mem, r: PoolNode, f: Forest)
  {
    && r in mem && r !in Elems(f) && r.memory !in Mems(f) && Shape(mem, f, r, null, mem[r].child)
    && mem[r].parent == null && mem[r].prev == null && mem[r].sibling == null
  }

  /** The forest below the root after q, the root itself or any pool below, has got a new child. */
  function GrownAt(r: PoolNode, f: Forest, q: PoolNode, p: PoolNode): Forest
  {
    if q == r then Pools(p, [], [], Empty, f) else Grown(f, q, p)
  }

  /** The pools of the grown tree, and their memory. */
  lemma GrownAll(r: PoolNode, f: Forest, q: PoolNode, p: PoolNode)
    requires InTreeOf(r, f, q)
    ensures Elems(GrownAt(r, f, q, p)) == Elems(f) + {p} && Mems(GrownAt(r, f, q, p)) <= Mems(f) + {p.memory}
  {
    GrownElems(f, q, p);
  }

  lemma GrowTree(mem: Mem, mem': Mem, r: PoolNode, f: Forest, q: PoolNode, p: PoolNode)
    requires Tree(mem, r, f) && InTreeOf(r, f, q) && Joined(mem, mem', q, p) && p.memory !in Mems(f) && p.memory != r.memory
    ensures Tree(mem', r, GrownAt(r, f, q, p))
  {
    ShapeIn(mem, f, r, null, mem[r].child);
    if q == r {
      Pushed(mem, mem', f, r, p);
    } else {
      LinksOfOne(mem, f, r, null, mem[r].child, q);
      GrowForest(mem, mem', f, r, null, mem[r].child, q, p);
      GrownElems(f, q, p);
      ChildBelow(mem, f, r, null, mem[r].child, q);
    }
  }

  lemma PruneTree(mem: Mem, mem': Mem, r: PoolNode, f: Forest, p: PoolNode)
    requires Tree(mem, r, f) && p in Elems(f) && Gone(mem, mem', p, KidsOf(f, p))
    ensures Tree(mem', r, Pruned(f, p))
  {
    LinksOfOne(mem, f, r, null, mem[r].child, p);
    PruneForest(mem, mem', f, r, null, mem[r].child, p);
    PrunedElems(f, p);
    if f.root != p {
      NotHead(mem, f, r, null, mem[r].child, p);
    }
  }

  /** A pool that is not the first of the list is not reached through the parent's child field. */
  lemma {:induction false} NotHead(mem: Mem, f: Forest, parent: PoolNode, prev: PoolNode?, head: PoolNode?, p: PoolNode)
    requires Shape(mem, f, parent, prev, head) && p in Elems(f) && f.root != p && parent !in Elems(f)
    ensures p in mem && (mem[p].parent == parent ==> mem[p].prev != null)
    ensures prev != null && prev !in Elems(f) ==> mem[p].prev != prev
    decreases f
  {
    if p in Elems(f.kids) {
      LinksOfOne(mem, f.kids, f.root, null, mem[f.root].child, p);
    } else {
      LinksOfOne(mem, f.next, parent, f.root, mem[f.root].sibling, p);
      if f.next.root != p {
        NotHead(mem, f.next, parent, f.root, mem[f.root].sibling, p);
      }
    }
  }

  // ---- a pool that changes without moving ----

  /** The forest with new lists of cleanups and new children for p. */
  function Rewritten(f: Forest, p: PoolNode, pre: seq<Cleanup>, post: seq<Cleanup>, kids: Forest): Forest
    requires p in Elems(f)
  {
    if f.root == p then f.(pre := pre, post := post, kids := kids)
    else if p in Elems(f.kids) then f.(kids := Rewritten(f.kids, p, pre, post, kids))
    else f.(next := Rewritten(f.next, p, pre, post, kids))
  }

  lemma {:induction false} RewrittenElems(f: Forest, p: PoolNode, pre: seq<Cleanup>, post: seq<Cleanup>, kids: Forest)
    requires p in Elems(f) && Elems(kids) <= Elems(KidsOf(f, p)) && Mems(kids) <= Mems(KidsOf(f, p))
    ensures Elems(Rewritten(f, p, pre, post, kids)) <= Elems(f) && Mems(Rewritten(f, p, pre, post, kids)) <= Mems(f)
    decreases f
  {
    if f.root != p {
      if p in Elems(f.kids) {
        RewrittenElems(f.kids, p, pre, post, kids);
      } else {
        RewrittenElems(f.next, p, pre, post, kids);
      }
    }
  }

  /** Only p's lists and children have changed, and what was below p. */
  ghost predicate Changed(mem: Mem, mem': Mem, f: Forest, p: PoolNode, pre: seq<Cleanup>, post: seq<Cleanup>, kids: Forest)
    requires p in Elems(f)
  {
    && p in mem && p in mem' && mem'[p] == mem[p].(pre := pre, post := post, child := mem'[p].child)
    && Shape(mem', kids, p, null, mem'[p].child) && Elems(kids) <= Elems(KidsOf(f, p)) && Mems(kids) <= Mems(KidsOf(f, p))
    && forall q :: q in mem && q != p && q !in Elems(KidsOf(f, p)) ==> q in mem' && mem'[q] == mem[q]
  }

  lemma {:induction false} RewriteForest(mem: Mem, mem': Mem, f: Forest, parent: PoolNode, prev: PoolNode?, head: PoolNode?,
                                         p: PoolNode, pre: seq<Cleanup>, post: seq<Cleanup>, kids: Forest)
    requires Shape(mem, f, parent, prev, head) && p in Elems(f) && Changed(mem, mem', f, p, pre, post, kids)
    ensures Shape(mem', Rewritten(f, p, pre, post, kids), parent, prev, head)
    decreases f
  {
    ShapeIn(mem, f, parent, prev, head);
    LinksOfOne(mem, f, parent, prev, head, p);
    if f.root == p {
      ShapeKept(mem, mem', f.next, parent, p, mem[p].sibling);
    } else if p in Elems(f.kids) {
      LinksOfOne(mem, f.kids, f.root, null, mem[f.root].child, p);
      RewriteForest(mem, mem', f.kids, f.root, null, mem[f.root].child, p, pre, post, kids);
      RewrittenElems(f.kids, p, pre, post, kids);
      ShapeKept(mem, mem', f.next, parent, f.root, mem[f.root].sibling);
    } else {
      LinksOfOne(mem, f.next, parent, f.root, mem[f.root].sibling, p);
      RewriteForest(mem, mem', f.next, parent, f.root, mem[f.root].sibling, p, pre, post, kids);
      RewrittenElems(f.next, p, pre, post, kids);
      ShapeKept(mem, mem', f.kids, f.root, null, mem[f.root].child);
    }
  }

  predicate InTreeOf(r: PoolNode, f: Forest, p: PoolNode) { p == r || p in Elems(f) }

  /** The children of a pool of the tree, the root included. */
  function KidsIn(r: PoolNode, f: Forest, p: PoolNode): Forest
    requires InTreeOf(r, f, p)
  {
    if p == r then f else KidsOf(f, p)
  }

  function RewrittenAt(r: PoolNode, f: Forest, p: PoolNode, pre: seq<Cleanup>, post: seq<Cleanup>, kids: Forest): Forest
    requires InTreeOf(r, f, p)
  {
    if p == r then kids else Rewritten(f, p, pre, post, kids)
  }

  ghost predicate ChangedAt(mem: Mem, mem': Mem, r: PoolNode, f: Forest, p: PoolNode, pre: seq<Cleanup>, post: seq<Cleanup>, kids: Forest)
    requires InTreeOf(r, f, p)
  {
    && p in mem && p in mem' && mem'[p] == mem[p].(pre := pre, post := post, child := mem'[p].child)
    && Shape(mem', kids, p, null, mem'[p].child) && Elems(kids) <= Elems(KidsIn(r, f, p)) && Mems(kids) <= Mems(KidsIn(r, f, p))
    && forall q :: q in mem && q != p && q !in Elems(KidsIn(r, f, p)) ==> q in mem' && mem'[q] == mem[q]
  }

  lemma RewriteTree(mem: Mem, mem': Mem, r: PoolNode, f: Forest, p: PoolNode, pre: seq<Cleanup>, post: seq<Cleanup>, kids: Forest)
    requires Tree(mem, r, f) && InTreeOf(r, f, p) && ChangedAt(mem, mem', r, f, p, pre, post, kids)
    ensures Tree(mem', r, RewrittenAt(r, f, p, pre, post, kids)) && Mems(RewrittenAt(r, f, p, pre, post, kids)) <= Mems(f)
  {
    if p != r {
      LinksOfOne(mem, f, r, null, mem[r].child, p);
      RewriteForest(mem, mem', f, r, null, mem[r].child, p, pre, post, kids);
      RewrittenElems(f, p, pre, post, kids);
    }
  }

  /** Every pool of the tree can be destroyed or cleared. */
  lemma TreeReady(mem: Mem, r: PoolNode, f: Forest, p: PoolNode)
    requires Tree(mem, r, f) && InTreeOf(r, f, p)
    ensures Neighbours(mem, p, KidsIn(r, f, p)) && Mems(KidsIn(r, f, p)) <= Mems(f) && p.memory in Mems(f) + {r.memory}
  {
    if p != r {
      LinksOfOne(mem, f, r, null, mem[r].child, p);
      Ready(mem, f, r, null, mem[r].child, p);
    }
  }

  /** What is left of the forest shares no memory with what went. */
  lemma {:induction false} PrunedApart(mem: Mem, f: Forest, parent: PoolNode, prev: PoolNode?, head: PoolNode?, p: PoolNode)
    requires Shape(mem, f, parent, prev, head) && p in Elems(f)
    ensures Mems(Pruned(f, p)) !! Mems(KidsOf(f, p)) + {p.memory} && Mems(Pruned(f, p)) <= Mems(f)
    decreases f
  {
    LinksOfOne(mem, f, parent, prev, head, p);
    if f.root != p {
      PrunedElems(f, p);
      if p in Elems(f.kids) {
        LinksOfOne(mem, f.kids, f.root, null, mem[f.root].child, p);
        PrunedApart(mem, f.kids, f.root, null, mem[f.root].child, p);
        PrunedSame(f.next, p);
      } else {
        LinksOfOne(mem, f.next, parent, f.root, mem[f.root].sibling, p);
        PrunedApart(mem, f.next, parent, f.root, mem[f.root].sibling, p);
        PrunedSame(f.kids, p);
      }
    }
  }

  /** After a clear, too. */
  lemma {:induction false} ClearedApart(mem: Mem, f: Forest, parent: PoolNode, prev: PoolNode?, head: PoolNode?, p: PoolNode)
    requires Shape(mem, f, parent, prev, head) && p in Elems(f)
    ensures Mems(Rewritten(f, p, [], [], Empty)) !! Mems(KidsOf(f, p)) && Mems(Rewritten(f, p, [], [], Empty)) <= Mems(f)
    decreases f
  {
    LinksOfOne(mem, f, parent, prev, head, p);
    if f.root != p {
      if p in Elems(f.kids) {
        LinksOfOne(mem, f.kids, f.root, null, mem[f.root].child, p);
        ClearedApart(mem, f.kids, f.root, null, mem[f.root].child, p);
      } else {
        LinksOfOne(mem, f.next, parent, f.root, mem[f.root].sibling, p);
        ClearedApart(mem, f.next, parent, f.root, mem[f.root].sibling, p);
      }
    }
  }

  lemma ClearedTree(mem: Mem, mem': Mem, r: PoolNode, f: Forest, p: PoolNode)
    requires Tree(mem, r, f) && InTreeOf(r, f, p) && Cleaned(mem, mem', p, KidsIn(r, f, p))
    ensures var f' := RewrittenAt(r, f, p, [], [], Empty); Tree(mem', r, f') && Mems(f') <= Mems(f) - Mems(KidsIn(r, f, p))
  {
    RewriteTree(mem, mem', r, f, p, [], [], Empty);
    if p != r {
      ClearedApart(mem, f, r, null, mem[r].child, p);
    }
  }

  lemma ClearedRoot(mem: Mem, mem': Mem, r: PoolNode, f: Forest, p: PoolNode)
    requires Tree(mem, r, f) && InTreeOf(r, f, p) && Cleaned(mem, mem', p, KidsIn(r, f, p))
    ensures r in mem' && mem'[r].pre == (if p == r then [] else mem[r].pre) && mem'[r].post == if p == r then [] else mem[r].post
  {
    if p != r {
      LinksOfOne(mem, f, r, null, mem[r].child, p);
    }
  }

  // ---- make_child, clear and ~Pool on the whole tree ----

  method Link(p: PoolNode, q: PoolNode, ghost all: set<PoolNode>)
    requires q in all && p !in all && (q.child != null ==> q.child in all && q.child != q)
    requires p.child == null && p.prev == null && p.preCleanups == [] && p.cleanups == []
    modifies p, all
    ensures Joined(old(MemOf(all)), MemOf(all + {p}), q, p)
  {
    p.parent := q;
    p.sibling := q.child;
    if p.sibling != null {
      p.sibling.prev := p;
    }
    q.child := p;
  }

  /** make_child: a new pool, with a node of its own from the shared allocator, becomes the first child of q. */
  method MakeChild(q: PoolNode, ghost r: PoolNode, ghost f: Forest, ghost all: set<PoolNode>, ghost ps: set<P.Pool>, alloc: Allocator)
      returns (p: PoolNode)
    requires Tree(MemOf(all), r, f) && InTreeOf(r, f, q) && House(ps, alloc) && Mems(f) + {r.memory} <= ps
    modifies all, alloc, alloc.CachedNodes()
    ensures fresh(p) && fresh(p.memory) && Tree(MemOf(all + {p}), r, GrownAt(r, f, q, p)) && House(ps + {p.memory}, alloc)
    ensures Elems(GrownAt(r, f, q, p)) == Elems(f) + {p} && Mems(GrownAt(r, f, q, p)) <= Mems(f) + {p.memory}
    ensures r.preCleanups == old(r.preCleanups) && r.cleanups == old(r.cleanups)
    ensures alloc.CachedNodes() <= old(alloc.CachedNodes()) && fresh(p.memory.Nodes() - old(alloc.CachedNodes()))
  {
    var memory, of := NewMemory(all, ps, alloc);
    p := NewChild(q, r, f, memory, all, ps + {memory}, alloc, of);
    StandingHouse(ps + {memory}, alloc, of);
    GrownAll(r, f, q, p);
  }

  method NewMemory(ghost all: set<PoolNode>, ghost ps: set<P.Pool>, alloc: Allocator) returns (memory: P.Pool, ghost of: Holdings)
    requires House(ps, alloc)
    modifies alloc, alloc.CachedNodes()
    ensures fresh(memory) && MemOf(all) == old(MemOf(all)) && Standing(ps + {memory}, alloc, of)
    ensures alloc.CachedNodes() <= old(alloc.CachedNodes()) && fresh(memory.Nodes() - old(alloc.CachedNodes()))
  {
    HouseMeans(ps, alloc);
    memory := CreateIn(alloc, ps);
    Stands(ps + {memory}, alloc);
    of := HoldingsOf(ps + {memory});
  }

  method NewChild(q: PoolNode, ghost r: PoolNode, ghost f: Forest, memory: P.Pool, ghost all: set<PoolNode>,
                  ghost ps: set<P.Pool>, ghost alloc: Allocator, ghost of: Holdings) returns (p: PoolNode)
    requires Tree(MemOf(all), r, f) && InTreeOf(r, f, q) && memory !in Mems(f) && memory != r.memory && Standing(ps, alloc, of)
    modifies all
    ensures fresh(p) && p.memory == memory && Tree(MemOf(all + {p}), r, GrownAt(r, f, q, p)) && Standing(ps, alloc, of)
    ensures r.preCleanups == old(r.preCleanups) && r.cleanups == old(r.cleanups)
  {
    ghost var mem := MemOf(all);
    InTree(mem, r, f, q);
    p := NewLinked(q, memory, all, ps, alloc, of);
    GrowTree(mem, MemOf(all + {p}), r, f, q, p);
    SameLists(mem, MemOf(all + {p}), q, p, r);
  }

  method NewLinked(q: PoolNode, memory: P.Pool, ghost all: set<PoolNode>, ghost ps: set<P.Pool>, ghost alloc: Allocator, ghost of: Holdings)
      returns (p: PoolNode)
    requires q in all && (q.child != null ==> q.child in all && q.child != q) && Standing(ps, alloc, of)
    modifies all
    ensures fresh(p) && p.memory == memory && Joined(old(MemOf(all)), MemOf(all + {p}), q, p) && Standing(ps, alloc, of)
  {
    p := new PoolNode(memory);
    Link(p, q, all);
  }

  lemma InTree(mem: Mem, r: PoolNode, f: Forest, q: PoolNode)
    requires Tree(mem, r, f) && InTreeOf(r, f, q)
    ensures q in mem && (mem[q].child != null ==> mem[q].child in mem && mem[q].child != q)
  {
    ShapeIn(mem, f, r, null, mem[r].child);
    if q != r {
      ChildBelow(mem, f, r, null, mem[r].child, q);
    }
  }

  lemma GoneBelow(mem: Mem, r: PoolNode, f: Forest, p: PoolNode)
    requires Tree(mem, r, f) && p in Elems(f)
    ensures p in mem && Neighbours(mem, p, KidsOf(f, p)) && p.memory !in Mems(KidsOf(f, p))
    ensures Mems(KidsOf(f, p)) + {p.memory} <= Mems(f) && Mems(Pruned(f, p)) <= Mems(f) - (Mems(KidsOf(f, p)) + {p.memory})
  {
    LinksOfOne(mem, f, r, null, mem[r].child, p);
    Ready(mem, f, r, null, mem[r].child, p);
    PrunedApart(mem, f, r, null, mem[r].child, p);
  }

  /** The destruction of a pool leaves the root its cleanups. */
  lemma RootLists(mem: Mem, mem': Mem, r: PoolNode, f: Forest, p: PoolNode)
    requires Tree(mem, r, f) && p in Elems(f) && Gone(mem, mem', p, KidsOf(f, p))
    ensures r in mem' && mem'[r].pre == mem[r].pre && mem'[r].post == mem[r].post
  {
    LinksOfOne(mem, f, r, null, mem[r].child, p);
  }

  /** ~Pool of any pool below the root: exactly it and the pools below it go, with all their memory, and the rest of the
      tree and of the house stands. */
  method DestroyPool(p: PoolNode, ghost r: PoolNode, ghost f: Forest, ghost all: set<PoolNode>, ghost ps: set<P.Pool>, alloc: Allocator)
      returns (log: seq<Event>, ghost freed: seq<MemNode>)
    requires Tree(MemOf(all), r, f) && p in Elems(f) && House(ps, alloc) && Mems(f) + {r.memory} <= ps
    modifies all, alloc, Held(HoldingsOf(ps), Mems(KidsOf(f, p)) + {p.memory})
    ensures p in all && log == LogOne(p, old(p.preCleanups), old(p.cleanups), KidsOf(f, p)) && Tree(MemOf(all), r, Pruned(f, p))
    ensures House(ps - (Mems(KidsOf(f, p)) + {p.memory}), alloc)
    ensures Mems(Pruned(f, p)) <= Mems(f) - (Mems(KidsOf(f, p)) + {p.memory})
    ensures r.preCleanups == old(r.preCleanups) && r.cleanups == old(r.cleanups)
    ensures Handed(old(AccountOf(alloc)), AccountOf(alloc), freed, Held(old(HoldingsOf(ps)), Mems(KidsOf(f, p)) + {p.memory}))
  {
    ghost var mem, of := MemOf(all), HoldingsOf(ps);
    GoneBelow(mem, r, f, p);
    HouseStands(ps, alloc);
    log, freed := Destroy(p, KidsOf(f, p), all, ps, alloc, of);
    RootLists(mem, MemOf(all), r, f, p);
    PruneTree(mem, MemOf(all), r, f, p);
    StandingHouse(ps - (Mems(KidsOf(f, p)) + {p.memory}), alloc, of);
  }

  /** clear of any pool of the tree: exactly the pools below it go, it stays in its place with its own node only, and the
      rest of the tree and of the house stands. */
  method ClearPool(p: PoolNode, ghost r: PoolNode, ghost f: Forest, ghost all: set<PoolNode>, ghost ps: set<P.Pool>, alloc: Allocator)
      returns (log: seq<Event>, ghost freed: seq<MemNode>)
    requires Tree(MemOf(all), r, f) && InTreeOf(r, f, p) && House(ps, alloc) && Mems(f) + {r.memory} <= ps
    modifies all, alloc, Held(HoldingsOf(ps), Mems(KidsIn(r, f, p)) + {p.memory}), p.memory
    ensures p in all && log == CleanupLog(p, old(p.preCleanups), old(p.cleanups), KidsIn(r, f, p))
    ensures Tree(MemOf(all), r, RewrittenAt(r, f, p, [], [], Empty))
    ensures Mems(RewrittenAt(r, f, p, [], [], Empty)) <= Mems(f) - Mems(KidsIn(r, f, p))
    ensures r.preCleanups == (if p == r then [] else old(r.preCleanups)) && r.cleanups == if p == r then [] else old(r.cleanups)
    ensures House(ps - Mems(KidsIn(r, f, p)), alloc) && p.memory.ring == [p.memory.self] && p.memory.blocks == []
    ensures var of := old(HoldingsOf(ps));
      Handed(old(AccountOf(alloc)), AccountOf(alloc), freed, Held(of, Mems(KidsIn(r, f, p))) + (Held(of, {p.memory}) - {p.memory.self}))
  {
    ghost var mem, of := MemOf(all), HoldingsOf(ps);
    TreeReady(mem, r, f, p);
    HouseStands(ps, alloc);
    log, freed := Clear(p, KidsIn(r, f, p), all, ps, alloc, of);
    ClearedRoot(mem, MemOf(all), r, f, p);
    ClearedTree(mem, MemOf(all), r, f, p);
  }
}
