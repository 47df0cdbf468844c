/** Handing a tree on to another header: moving, and swapping two trees. */
module RbMoves {
  import opened Latches
  import opened RbLinks
  import opened RbColors
  import opened RbEngine
  import opened RbTrees

  /** The cells once the header's fields have been copied to another header. */
  ghost function Handed(t: Shape, head: Node): Heap
    requires t.head in t.mem
  {
    (t.mem - {t.head})[head := t.mem[t.head]]
  }

  /** The same tree under another header, with the root's parent set. */
  ghost function Moved(t: Shape, head: Node): Shape
    requires t.head in t.mem
  {
    var m, root := Handed(t, head), t.Root();
    Shape(if root != null && root in m then m[root := m[root].(parent := head)] else m, t.lab, t.order, head)
  }

  lemma MovedLinked(t: Shape, head: Node)
    requires Linked(t) && head !in t.mem
    ensures Linked(Moved(t, head))
  {
    var t' := Moved(t, head);
    forall x | x in t'.mem && x != head
      ensures Link(t', x)
    {
      assert Link(t, x);
    }
  }

  lemma MovedColored(t: Shape, head: Node, bh: Heights)
    requires Linked(t) && Colored(t, bh, null, null, null) && head !in t.mem
    ensures Colored(Moved(t, head), bh, null, null, null)
  {
    var t' := Moved(t, head);
    forall x | x in t'.mem && x != head
      ensures Sound(t', bh, null, null, null, x)
    {
      assert Link(t, x) && Sound(t, bh, null, null, null, x);
    }
  }

  /** Copying the header's fields and no more leaves a tree if and only if it was empty: the root's parent is still the
      old header. */
  lemma HandedExact(t: Shape, head: Node)
    requires Linked(t) && head !in t.mem
    ensures (exists lab, order :: Linked(Shape(Handed(t, head), lab, order, head))) <==> t.order == []
  {
    if t.order == [] {
      assert forall x :: x in t.mem && x != t.head ==> Link(t, x);
      assert Linked(Shape(Handed(t, head), map[], [], head));
    } else {
      forall lab, order
        ensures !Linked(Shape(Handed(t, head), lab, order, head))
      {
        assert Link(t, t.Root());
      }
    }
  }

  /** A tree of one node. */
  ghost function Single(head: Node, n: Node): Shape
  {
    Shape(map[head := Cell(n, n, n, Black), n := Cell(head, null, null, Black)], map[n := Label(0, 0, 1)], [n], head)
  }

  /** Such a tree is one, and under another header, as swap leaves it, it is none. */
  lemma SingleLost(head: Node, n: Node, head': Node)
    requires head != n && head' != n && head' != head
    ensures Linked(Single(head, n)) && !exists lab, order :: Linked(Shape(Handed(Single(head, n), head'), lab, order, head'))
  {
    var t := Single(head, n);
    assert Link(t, n);
    HandedExact(t, head');
  }

  /** The fields of a node, as they are. */
  ghost function CellOf(n: Node): Cell
    reads n
  {
    Cell(n.parent, n.left, n.right, n.color)
  }

  method ExchangeFields(h: Node, g: Node)
    modifies h, g
    ensures CellOf(h) == old(CellOf(g)) && CellOf(g) == old(CellOf(h))
  {
    h.parent, g.parent := g.parent, h.parent;
    h.left, g.left := g.left, h.left;
    h.right, g.right := g.right, h.right;
    h.color, g.color := g.color, h.color;
  }

  lemma MemIs(c: RbCore, m: Heap)
    requires c.cells == m.Keys && forall x :: x in m ==> CellOf(x) == m[x]
    ensures c.Mem() == m
  {
  }

  /** The nodes are those of m under this header. */
  ghost method Regroup(c: RbCore, m: Heap, lab: Labels, order: seq<Node>, bh: Heights)
    requires forall x :: x in m ==> CellOf(x) == m[x]
    modifies c
    ensures c.Now() == Shape(m, lab, order, c.header) && c.order == order && c.bh == bh && c.cells == m.Keys
  {
    c.cells, c.lab, c.order, c.bh := m.Keys, lab, order, bh;
    MemIs(c, m);
  }

  /** The headers' fields change places, and with them the nodes below. */
  method Exchange(a: RbCore, b: RbCore)
    requires a.header in a.cells && b.header in b.cells && a.cells !! b.cells
    modifies a, b, a.header, b.header
    ensures a.Mem() == Handed(old(b.Now()), a.header) && b.Mem() == Handed(old(a.Now()), b.header)
    ensures a.order == old(b.order) && b.order == old(a.order)
  {
    ghost var t, u, h, g := a.Now(), b.Now(), a.bh, b.bh;
    ExchangeFields(a.header, b.header);
    Regroup(a, Handed(u, a.header), u.lab, u.order, g);
    Regroup(b, Handed(t, b.header), t.lab, t.order, h);
  }

  /** swap, as far as the two trees go: what is left are two trees if and only if both were empty. */
  method Swap(a: RbCore, b: RbCore)
    requires Linked(a.Now()) && Linked(b.Now()) && a.cells !! b.cells
    modifies a, b, a.header, b.header
    ensures a.order == old(b.order) && b.order == old(a.order)
    ensures (exists lab, order :: Linked(Shape(a.Mem(), lab, order, a.header))) <==> old(b.order) == []
    ensures (exists lab, order :: Linked(Shape(b.Mem(), lab, order, b.header))) <==> old(a.order) == []
  {
    HandedExact(b.Now(), a.header);
    HandedExact(a.Now(), b.header);
    Exchange(a, b);
  }

  method CopyFields(h: Node, g: Node)
    modifies h
    ensures CellOf(h) == old(CellOf(g))
  {
    h.parent, h.left, h.right, h.color := g.parent, g.left, g.right, g.color;
  }

  /** The header's fields are copied, and the root's parent is set. */
  method TakeOver(to: RbCore, from: RbCore)
    requires Linked(from.Now()) && to.header !in from.cells && to != from
    modifies to, to.header, from.cells
    ensures to.Now() == Moved(old(from.Now()), to.header) && to.bh == old(from.bh) && to.cells == from.cells - {from.header} + {to.header}
    ensures from.cells == old(from.cells)
  {
    ghost var t := from.Now();
    CopyFields(to.header, from.header);
    var root := to.header.left;
    if root != null {
      assert Link(t, root);
      root.parent := to.header;
    }
    Regroup(to, Moved(t, to.header).mem, t.lab, t.order, from.bh);
  }

  /** A red-black tree with its ends; to be handed on. */
  ghost predicate Whole(c: RbCore)
    reads c, c.cells, c.header
  {
    forall l {:trigger Lifted(l)} :: Lifted(l) ==> Linked(c.Now()) && Colored(c.Now(), c.bh, null, null, null) && c.EndsOk()
  }

  lemma WholeMeans(c: RbCore)
    requires Whole(c)
    ensures Linked(c.Now()) && Colored(c.Now(), c.bh, null, null, null) && c.EndsOk()
  {
    assert Lifted(Latch);
  }

  /** A header as a new one. */
  method Reset(c: RbCore)
    modifies c, c.header
    ensures c.cells == {c.header} && c.order == [] && Whole(c)
  {
    c.header.parent, c.header.left, c.header.right, c.header.color := null, null, null, Black;
    c.cells, c.lab, c.order := {c.header}, map[], [];
  }

  method MoveCore(to: RbCore, from: RbCore)
    requires Whole(from) && to.header !in from.cells && to != from
    modifies to, to.header, from.cells
    ensures Whole(to) && to.order == old(from.order) && to.cells == from.cells - {from.header} + {to.header}
    ensures from.cells == old(from.cells)
  {
    WholeMeans(from);
    ghost var t := from.Now();
    MovedLinked(t, to.header);
    MovedColored(t, to.header, from.bh);
    TakeOver(to, from);
  }

  /** Both steps: the old header is empty. */
  method MoveOut(to: RbCore, from: RbCore)
    requires Whole(from) && from.header in from.cells && to.header !in from.cells && to != from
    modifies to, to.header, from, from.cells
    ensures Whole(to) && to.order == old(from.order) && to.cells == old(from.cells) - {from.header} + {to.header}
    ensures Whole(from) && from.order == [] && from.cells == {from.header}
  {
    MoveCore(to, from);
    Reset(from);
  }

  ghost predicate Ranked(lt: (Key, Key) -> bool, o: seq<Node>)
  {
    forall l {:trigger Lifted(l)} :: Lifted(l) ==> StrictWeakOrder(lt) && Ascending(lt, o)
  }

  lemma WholeValid(t: RbTree)
    requires Whole(t.core) && t.size == |t.core.order| && Ranked(t.lt, t.core.order)
    ensures t.Valid()
  {
    assert Lifted(Latch);
    WholeMeans(t.core);
  }

  method NewTree(lt: (Key, Key) -> bool, ghost o: seq<Node>) returns (t: RbTree)
    requires Ranked(lt, o)
    ensures fresh(t) && fresh(t.core) && fresh(t.core.header) && t.lt == lt && Ranked(lt, [])
  {
    assert Lifted(Latch);
    t := new RbTree(lt);
  }

  method SetSizes(to: RbTree, from: RbTree)
    requires to != from
    modifies to`size, from`size
    ensures to.size == old(from.size) && from.size == 0
  {
    to.size, from.size := from.size, 0;
  }

  method MoveTree(from: RbTree) returns (to: RbTree)
    requires Whole(from.core) && from.core.header in from.core.cells && from.size == |from.core.order| && Ranked(from.lt, from.core.order)
    modifies from`size, from.core, from.core.cells
    ensures fresh(to) && Whole(to.core) && to.size == old(from.size) && to.lt == from.lt && to.core.order == old(from.core.order)
    ensures Whole(from.core) && Ranked(from.lt, []) && from.size == 0 && from.core.order == [] && from.core.cells == {from.core.header}
    ensures fresh(to.core) && fresh(to.core.header) && to.core.cells == old(from.core.cells) - {from.core.header} + {to.core.header}
  {
    to := NewTree(from.lt, from.core.order);
    MoveOut(to.core, from.core);
    SetSizes(to, from);
  }

  /** Move construction: the new tree has the nodes in their order, and the old one is empty and in order. */
  method Move(from: RbTree) returns (to: RbTree)
    requires from.Valid()
    modifies from`size, from.core, from.core.cells
    ensures fresh(to) && to.Valid() && to.lt == from.lt && to.core.order == old(from.core.order)
    ensures from.Valid() && from.core.order == [] && from.core.cells !! to.core.cells
    ensures fresh(to.core) && fresh(to.core.cells - old(from.core.cells)) && from.core.cells <= old(from.core.cells)
  {
    to := MoveTree(from);
    WholeValid(to);
    WholeValid(from);
  }
}
