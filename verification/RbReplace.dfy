/** What `replace` does when the new node already stands in the tree, and when a tree is left. */
module RbReplace {
  import opened RbLinks
  import opened RbSplice

  /** z hangs below a parent, and its children are known. */
  ghost predicate Wired(m: Heap, z: Node, y: Node)
  {
    && z in m && y in m && y != z
    && m[z].parent != null && m[z].parent in m && m[z].parent != z
    && (m[z].left != null ==> m[z].left in m && m[z].left != z)
    && (m[z].right != null ==> m[z].right in m && m[z].right != z)
  }

  /** The field of z's parent that holds z. */
  ghost function HungMem(m: Heap, z: Node, y: Node): (r: Heap)
    requires Wired(m, z, y)
    ensures Wired(r, z, y) && r[z] == m[z] && r.Keys == m.Keys
  {
    var p := m[z].parent;
    m[p := if m[p].left == z then m[p].(left := y) else m[p].(right := y)]
  }

  /** z's child on one side: it learns its new parent, unless it is the new node itself. */
  ghost function KidMem(m: Heap, z: Node, y: Node, s: Side): (r: Heap)
    requires Wired(m, z, y)
    ensures Wired(r, z, y) && r[z] == m[z] && r.Keys == m.Keys
  {
    var c := m[z].Kid(s);
    if c == null then m
    else if c != y then m[c := m[c].(parent := y)]
    else m[y := m[y].WithKid(s, null)]
  }

  /** The assignments of replace, in their order. */
  ghost function ReplacedMem(m: Heap, z: Node, y: Node): (r: Heap)
    requires Wired(m, z, y)
    ensures r.Keys == m.Keys
  {
    var copied := m[y := m[z]];
    KidMem(KidMem(HungMem(copied, z, y), z, y, L), z, y, R)
  }

  /** Cell by cell, when the new node is not z's parent. */
  lemma ReplacedAt(m: Heap, z: Node, y: Node, w: Node)
    requires Wired(m, z, y) && m[z].parent != y && w in m && w != z
    requires m[z].left != null ==> m[z].left != m[z].right
    ensures ReplacedMem(m, z, y)[w] ==
      if w == y then Cell(m[z].parent, if m[z].left == y then null else m[z].left, if m[z].right == y then null else m[z].right, m[z].color)
      else Cell(if w == m[z].left || w == m[z].right then y else m[w].parent,
                if w == m[z].parent && m[w].left == z then y else m[w].left,
                if w == m[z].parent && m[w].left != z then y else m[w].right, m[w].color)
  {
  }

  lemma LinkedWired(t: Shape, z: Node, y: Node)
    requires Linked(t) && t.Has(z) && t.Has(y) && y != z
    ensures Wired(t.mem, z, y)
  {
    assert Link(t, z);
  }

  ghost predicate LeafChild(t: Shape, z: Node, y: Node)
    requires z in t.mem && y in t.mem
  {
    (t.mem[z].left == y || t.mem[z].right == y) && t.mem[y].left == null && t.mem[y].right == null
  }

  // ---- a leaf below z takes its place ----

  lemma LeafTaken(t: Shape, z: Node, y: Node)
    requires Linked(t) && t.Has(z) && t.Has(y) && y != z && LeafChild(t, z, y)
    ensures 0 <= t.lab[y].pos < |t.order|
    ensures var t1 := Prune(t, y, null); t1.Has(z) && 0 <= t1.lab[z].pos < |t1.order| && Linked(Rename(t1, z, y))
  {
    assert Link(t, z) && Link(t, y);
    PruneLinked(t, y, null);
    assert Link(Prune(t, y, null), z);
    RenameLinked(Prune(t, y, null), z, y);
  }

  lemma LeafCell(t: Shape, z: Node, y: Node, w: Node)
    requires t.head in t.mem && Link(t, z) && Link(t, y) && y != z && LeafChild(t, z, y) && Wired(t.mem, z, y)
    requires w in t.mem && w != z && (w != t.head ==> Link(t, w)) && t.Root() != y && t.mem[z].parent != y
    requires w == t.head ==> (t.mem[z].parent == w <==> t.Root() == z)
    requires var t1 := Prune(t, y, null); t1.Has(z) && 0 <= t1.lab[z].pos < |t1.order|
    ensures var m' := Rename(Prune(t, y, null), z, y).mem; w in m' && ReplacedMem(t.mem, z, y)[w] == m'[w]
  {
    ReplacedAt(t.mem, z, y, w);
  }

  lemma LeafCellIn(t: Shape, z: Node, y: Node, w: Node)
    requires Linked(t) && t.Has(z) && t.Has(y) && y != z && LeafChild(t, z, y) && Wired(t.mem, z, y)
    requires 0 <= t.lab[y].pos < |t.order| && w in t.mem && w != z
    requires var t1 := Prune(t, y, null); t1.Has(z) && 0 <= t1.lab[z].pos < |t1.order|
    ensures var m' := Rename(Prune(t, y, null), z, y).mem; w in m' && ReplacedMem(t.mem, z, y)[w] == m'[w]
  {
    assert Link(t, z) && Link(t, y);
    if w != t.head {
      assert Link(t, w);
    }
    LeafCell(t, z, y, w);
  }

  lemma LeafCells(t: Shape, z: Node, y: Node)
    requires Linked(t) && t.Has(z) && t.Has(y) && y != z && LeafChild(t, z, y) && Wired(t.mem, z, y)
    requires 0 <= t.lab[y].pos < |t.order|
    requires var t1 := Prune(t, y, null); t1.Has(z) && 0 <= t1.lab[z].pos < |t1.order|
    ensures ReplacedMem(t.mem, z, y) - {z} == Rename(Prune(t, y, null), z, y).mem
  {
    var m, m' := ReplacedMem(t.mem, z, y) - {z}, Rename(Prune(t, y, null), z, y).mem;
    assert m.Keys == m'.Keys;
    forall w | w in m
      ensures m[w] == m'[w]
    {
      LeafCellIn(t, z, y, w);
    }
  }

  // ---- any other node of the tree ----

  /** The new node has z's parent, and whoever had it as a child still has. */
  lemma StillHeld(t: Shape, z: Node, y: Node)
    requires Linked(t) && t.Has(z) && t.Has(y) && y != z && Wired(t.mem, z, y) && t.mem[z].left != y && t.mem[z].right != y
    ensures ReplacedMem(t.mem, z, y)[y].parent == t.mem[z].parent
    ensures t.mem[y].parent != null && t.mem[y].parent in t.mem && t.mem[y].parent != z && t.mem[y].parent != y
    ensures var q, c := t.mem[y].parent, ReplacedMem(t.mem, z, y)[t.mem[y].parent];
      if q == t.head then c.left == y && t.mem[z].parent != q
      else (c.left == y || c.right == y) && (q == t.mem[z].parent ==> c.left == y && c.right == y)
  {
    assert Link(t, z) && Link(t, y);
    if t.mem[y].parent != t.head { assert Link(t, t.mem[y].parent); }
  }

  /** A node cannot be held by two parents, nor twice by one. */
  lemma HeldWrong(t: Shape, y: Node, q: Node)
    requires t.head in t.mem && y in t.mem && q in t.mem && (t.mem[q].left == y || t.mem[q].right == y)
    requires t.mem[y].parent == q ==> t.mem[q].left == y && t.mem[q].right == y
    ensures !(Link(t, q) && Link(t, y))
  {
  }

  lemma ElsewhereBroken(t: Shape, z: Node, y: Node, lab: Labels, order: seq<Node>)
    requires Linked(t) && t.Has(z) && t.Has(y) && y != z && Wired(t.mem, z, y) && t.mem[z].left != y && t.mem[z].right != y
    ensures !Linked(Shape(ReplacedMem(t.mem, z, y) - {z}, lab, order, t.head))
  {
    StillHeld(t, z, y);
    if t.mem[y].parent != t.head {
      HeldWrong(Shape(ReplacedMem(t.mem, z, y) - {z}, lab, order, t.head), y, t.mem[y].parent);
    }
  }

  /** A child of the new node keeps its parent and is no child of it any more. */
  lemma ChildLost(t: Shape, z: Node, y: Node, c: Node)
    requires Linked(t) && t.Has(z) && t.Has(y) && y != z && Wired(t.mem, z, y) && (t.mem[z].left == y || t.mem[z].right == y)
    requires t.mem[y].left == c || t.mem[y].right == c
    ensures c in t.mem && c != z && c != t.head && ReplacedMem(t.mem, z, y)[c].parent == y
    ensures ReplacedMem(t.mem, z, y)[y].left != c && ReplacedMem(t.mem, z, y)[y].right != c
  {
    GrandChild(t, z, y, c);
    ReplacedAt(t.mem, z, y, c);
    ReplacedAt(t.mem, z, y, y);
  }

  lemma GrandChild(t: Shape, z: Node, y: Node, c: Node)
    requires Linked(t) && t.Has(z) && t.Has(y) && y != z && (t.mem[z].left == y || t.mem[z].right == y)
    requires t.mem[y].left == c || t.mem[y].right == c
    ensures c in t.mem && c != z && c != y && c != t.head && t.mem[c].parent == y && t.mem[z].left != c && t.mem[z].right != c
    ensures t.mem[z].parent != y && t.mem[z].left != t.mem[z].right
  {
    assert Link(t, z) && Link(t, y) && Link(t, c);
  }

  lemma BelowBroken(t: Shape, z: Node, y: Node, lab: Labels, order: seq<Node>)
    requires Linked(t) && t.Has(z) && t.Has(y) && y != z && Wired(t.mem, z, y) && (t.mem[z].left == y || t.mem[z].right == y)
    requires t.mem[y].left != null || t.mem[y].right != null
    ensures !Linked(Shape(ReplacedMem(t.mem, z, y) - {z}, lab, order, t.head))
  {
    var t' := Shape(ReplacedMem(t.mem, z, y) - {z}, lab, order, t.head);
    var c: Node := if t.mem[y].left != null then t.mem[y].left else t.mem[y].right;
    ChildLost(t, z, y, c);
    assert t'.head in t'.mem ==> !Link(t', c);
  }

  /** replace by a node of the tree leaves a tree if and only if that node is a leaf right below the old one. */
  lemma ReplaceExact(t: Shape, z: Node, y: Node)
    requires Linked(t) && t.Has(z) && t.Has(y) && y != z
    ensures Wired(t.mem, z, y)
    ensures (exists lab, order :: Linked(Shape(ReplacedMem(t.mem, z, y) - {z}, lab, order, t.head))) <==> LeafChild(t, z, y)
  {
    LinkedWired(t, z, y);
    if LeafChild(t, z, y) {
      LeafTaken(t, z, y);
      LeafCells(t, z, y);
      var t' := Rename(Prune(t, y, null), z, y);
      assert t' == Shape(ReplacedMem(t.mem, z, y) - {z}, t'.lab, t'.order, t.head);
    } else {
      forall lab, order
        ensures !Linked(Shape(ReplacedMem(t.mem, z, y) - {z}, lab, order, t.head))
      {
        if t.mem[z].left != y && t.mem[z].right != y {
          ElsewhereBroken(t, z, y, lab, order);
        } else {
          BelowBroken(t, z, y, lab, order);
        }
      }
    }
  }

  /** Three nodes in a row to the left: c below y below z. */
  ghost function Row(head: Node, z: Node, y: Node, c: Node): Shape
  {
    Shape(map[head := Cell(c, z, z, Black), z := Cell(head, y, null, Black), y := Cell(z, c, null, Red), c := Cell(y, null, null, Red)],
          map[z := Label(2, 0, 3), y := Label(1, 0, 2), c := Label(0, 0, 1)],
          [c, y, z], head)
  }

  /** Such a row is a tree, and after y has replaced z none is left: c is lost. */
  lemma RowLoses(head: Node, z: Node, y: Node, c: Node)
    requires head != z && head != y && head != c && z != y && z != c && y != c
    ensures var t := Row(head, z, y, c);
      Linked(t) && Wired(t.mem, z, y) && !exists lab, order :: Linked(Shape(ReplacedMem(t.mem, z, y) - {z}, lab, order, head))
  {
    var t := Row(head, z, y, c);
    assert Link(t, z) && Link(t, y) && Link(t, c);
    ReplaceExact(t, z, y);
  }
}
