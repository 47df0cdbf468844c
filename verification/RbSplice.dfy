module RbSplice {
  import opened Common
  import opened RbLinks
  import opened RbColors
  import opened RbInsert
  import opened RbErase

  // ---- hanging a new red leaf ----

  function ShiftUp(l: Label, c: int, k: int): Label
  {
    Label(if l.pos >= k then l.pos + 1 else l.pos,
          if l.lo > c then l.lo + 1 else l.lo,
          if l.hi > c then l.hi + 1 else l.hi)
  }

  /** The in-order place of a new child of p on side s. */
  ghost function Slot(t: Shape, p: Node, s: Side): int
    requires p in t.lab
  {
    if s == L then t.lab[p].pos else t.lab[p].pos + 1
  }

  /** The tree with n as a red leaf on the free side s of p. */
  ghost function Grow(t: Shape, n: Node, p: Node, s: Side): Shape
    requires t.Has(p) && 0 <= Slot(t, p, s) <= |t.order|
  {
    var k := Slot(t, p, s);
    Shape(t.mem[p := t.mem[p].WithKid(s, n)][n := Cell(p, null, null, Red)],
          (map x | x in t.lab :: ShiftUp(t.lab[x], t.lab[p].pos, k))[n := Label(k, k, k + 1)],
          t.order[..k] + [n] + t.order[k..],
          t.head)
  }

  lemma GrowKid(t: Shape, n: Node, p: Node, s: Side, x: Node, k: Side)
    requires t.head in t.mem && t.head != n && n !in t.mem && Link(t, p) && t.mem[p].Kid(s) == null
    requires Link(t, x) && (t.lab[x].pos == t.lab[p].pos ==> x == p)
    ensures KidOk(Grow(t, n, p, s), x, k)
  {
    assert KidOk(t, x, k);
    if x == p { } else { }
  }

  lemma GrowLink(t: Shape, n: Node, p: Node, s: Side, x: Node)
    requires t.head in t.mem && t.head != n && n !in t.mem && Link(t, p) && t.mem[p].Kid(s) == null
    requires Link(t, x) && (t.lab[x].pos == t.lab[p].pos ==> x == p)
    requires t.mem[x].parent != t.head ==> Link(t, t.mem[x].parent)
    ensures Link(Grow(t, n, p, s), x)
  {
    GrowPlace(t, n, p, s, x);
    GrowKid(t, n, p, s, x, L);
    GrowKid(t, n, p, s, x, R);
    GrowUp(t, n, p, s, x);
  }

  lemma GrowPlace(t: Shape, n: Node, p: Node, s: Side, x: Node)
    requires t.head in t.mem && t.head != n && n !in t.mem && Link(t, p)
    requires Link(t, x) && (t.lab[x].pos == t.lab[p].pos ==> x == p)
    ensures var t' := Grow(t, n, p, s);
      t'.Has(x) && 0 <= t'.lab[x].lo <= t'.lab[x].pos < t'.lab[x].hi <= |t'.order| && t'.order[t'.lab[x].pos] == x
  {
  }

  lemma GrowUp(t: Shape, n: Node, p: Node, s: Side, x: Node)
    requires t.head in t.mem && t.head != n && n !in t.mem && Link(t, p) && t.mem[p].Kid(s) == null
    requires Link(t, x) && (t.mem[x].parent != t.head ==> Link(t, t.mem[x].parent))
    ensures Grow(t, n, p, s).Has(x) && UpOk(Grow(t, n, p, s), x)
  {
  }

  lemma GrowOrder(t: Shape, n: Node, p: Node, s: Side)
    requires Linked(t) && n !in t.mem && t.Has(p) && Link(t, p)
    ensures var t' := Grow(t, n, p, s); forall i :: 0 <= i < |t'.order| ==> t'.Has(t'.order[i]) && t'.lab[t'.order[i]].pos == i
  {
    var t', k := Grow(t, n, p, s), Slot(t, p, s);
    forall i | 0 <= i < |t'.order| ensures t'.Has(t'.order[i]) && t'.lab[t'.order[i]].pos == i {
      if i < k {
        assert t'.order[i] == t.order[i];
      } else if i > k {
        assert t'.order[i] == t.order[i - 1];
      }
    }
  }

  lemma GrowLinked(t: Shape, n: Node, p: Node, s: Side)
    requires Linked(t) && n !in t.mem && p in t.mem && p != t.head && t.mem[p].Kid(s) == null
    ensures t.Has(p) && 0 <= Slot(t, p, s) <= |t.order|
    ensures Linked(Grow(t, n, p, s))
  {
    assert Link(t, p);
    var t' := Grow(t, n, p, s);
    GrowOrder(t, n, p, s);
    assert Link(t, t.Root());
    forall x | x in t'.mem && x != t'.head ensures Link(t', x) {
      if x == n {
        assert t'.order[t'.lab[n].pos] == n;
      } else {
        assert Link(t, x);
        if t.mem[x].parent != t.head { assert Link(t, t.mem[x].parent); }
        GrowLink(t, n, p, s, x);
      }
    }
  }

  /** A new red leaf breaks at most the red-red condition at itself. */
  lemma GrowInsertInv(t: Shape, bh: Heights, n: Node, p: Node, s: Side)
    requires Linked(t) && Colored(t, bh, null, null, null)
    requires n !in t.mem && p in t.mem && p != t.head && t.mem[p].Kid(s) == null
    ensures t.Has(p) && 0 <= Slot(t, p, s) <= |t.order|
    ensures InsertInv(Grow(t, n, p, s), bh[n := 0], n)
  {
    GrowLinked(t, n, p, s);
    assert Link(t, p);
    var t', bh' := Grow(t, n, p, s), bh[n := 0];
    forall x | x in t'.mem && x != t'.head ensures Sound(t', bh', null, null, n, x) {
      if x != n {
        assert Link(t, x) && Sound(t, bh, null, null, null, x);
      }
    }
  }

  ghost function GrowRoot(t: Shape, n: Node): Shape
    requires t.head in t.mem
  {
    Shape(t.mem[t.head := t.mem[t.head].(left := n)][n := Cell(t.head, null, null, Red)],
          t.lab[n := Label(0, 0, 1)], [n], t.head)
  }

  lemma NodesAreListed(t: Shape)
    requires Linked(t)
    ensures forall x :: x in t.mem && x != t.head ==> x in t.order
  {
    forall x | x in t.mem && x != t.head ensures x in t.order {
      assert Link(t, x);
    }
  }

  lemma GrowRootInsertInv(t: Shape, bh: Heights, n: Node)
    requires Linked(t) && t.order == [] && n !in t.mem
    ensures InsertInv(GrowRoot(t, n), bh[n := 0], n)
  {
    NodesAreListed(t);
    var t' := GrowRoot(t, n);
    assert t'.order[0] == n;
    assert Link(t', n);
  }

  // ---- unlinking a node with at most one child ----

  function ShiftDown(l: Label, c: int): Label
  {
    Label(if l.pos > c then l.pos - 1 else l.pos,
          if l.lo > c then l.lo - 1 else l.lo,
          if l.hi > c then l.hi - 1 else l.hi)
  }

  /** Node w's cell once x hangs where y hung. */
  function PrunedCell(t: Shape, y: Node, x: Node?, w: Node): Cell
    requires w in t.mem && y in t.mem
  {
    Cell(if w == x then t.mem[y].parent else t.mem[w].parent,
         if t.mem[w].left == y then x else t.mem[w].left,
         if t.mem[w].right == y && w != t.head then x else t.mem[w].right,
         t.mem[w].color)
  }

  /** The tree without y, whose only child x (if any) takes its place. */
  ghost function Prune(t: Shape, y: Node, x: Node?): Shape
    requires t.Has(y) && 0 <= t.lab[y].pos < |t.order|
  {
    var c := t.lab[y].pos;
    Shape(map w | w in t.mem && w != y :: PrunedCell(t, y, x, w),
          map w | w in t.lab && w != y :: ShiftDown(t.lab[w], c),
          t.order[..c] + t.order[c + 1..],
          t.head)
  }

  /** The header's two other fields are not touched. */
  lemma PruneEnds(t: Shape, y: Node, x: Node?)
    requires t.head in t.mem && t.Has(y) && 0 <= t.lab[y].pos < |t.order| && x != t.head
    ensures var m := Prune(t, y, x).mem; t.head in m && m[t.head].parent == t.mem[t.head].parent && m[t.head].right == t.mem[t.head].right
  {
  }

  /** x is y's only child; x is null when y is a leaf. */
  ghost predicate OnlyChild(t: Shape, y: Node, x: Node?)
    requires y in t.mem
  {
    (t.mem[y].left == x && t.mem[y].right == null) || (t.mem[y].left == null && t.mem[y].right == x)
  }

  lemma PruneKid(t: Shape, y: Node, x: Node?, w: Node, s: Side)
    requires t.head in t.mem && Link(t, y) && OnlyChild(t, y, x) && (x != null ==> Link(t, x))
    requires Link(t, w) && w != y && t.lab[w].pos != t.lab[y].pos
    ensures KidOk(Prune(t, y, x), w, s)
  {
    assert KidOk(t, w, s);
  }

  lemma PruneUp(t: Shape, y: Node, x: Node?, w: Node)
    requires t.head in t.mem && Link(t, y) && OnlyChild(t, y, x) && (x != null ==> Link(t, x))
    requires Link(t, w) && w != y && (t.mem[w].parent != t.head ==> Link(t, t.mem[w].parent))
    requires t.mem[y].parent != t.head ==> Link(t, t.mem[y].parent)
    ensures UpOk(Prune(t, y, x), w)
  {
  }

  lemma PruneLink(t: Shape, y: Node, x: Node?, w: Node)
    requires t.head in t.mem && Link(t, y) && OnlyChild(t, y, x) && (x != null ==> Link(t, x))
    requires Link(t, w) && w != y && t.lab[w].pos != t.lab[y].pos
    requires t.mem[w].parent != t.head ==> Link(t, t.mem[w].parent)
    requires t.mem[y].parent != t.head ==> Link(t, t.mem[y].parent)
    ensures Link(Prune(t, y, x), w)
  {
    var t' := Prune(t, y, x);
    assert t'.order[t'.lab[w].pos] == w;
    PruneKid(t, y, x, w, L);
    PruneKid(t, y, x, w, R);
    PruneUp(t, y, x, w);
  }

  lemma PruneOrder(t: Shape, y: Node, x: Node?)
    requires Linked(t) && t.Has(y) && Link(t, y)
    ensures var t' := Prune(t, y, x); forall i :: 0 <= i < |t'.order| ==> t'.Has(t'.order[i]) && t'.lab[t'.order[i]].pos == i
  {
    var t', c := Prune(t, y, x), t.lab[y].pos;
    forall i | 0 <= i < |t'.order| ensures t'.Has(t'.order[i]) && t'.lab[t'.order[i]].pos == i {
      var j := if i < c then i else i + 1;
      assert t'.order[i] == t.order[j];
    }
  }

  lemma PruneRoot(t: Shape, y: Node, x: Node?)
    requires Linked(t) && t.Has(y) && Link(t, y) && OnlyChild(t, y, x)
    ensures RootOk(Prune(t, y, x))
  {
    var r := t.Root();
    assert Link(t, r);
    if x != null { assert Link(t, x); }
    if r != y {
      assert t.order[t.lab[r].pos] == r;
    }
  }

  lemma PruneLinked(t: Shape, y: Node, x: Node?)
    requires Linked(t) && y in t.mem && y != t.head && OnlyChild(t, y, x)
    ensures t.Has(y) && 0 <= t.lab[y].pos < |t.order|
    ensures Linked(Prune(t, y, x))
  {
    assert Link(t, y);
    if x != null { assert Link(t, x); }
    if t.mem[y].parent != t.head { assert Link(t, t.mem[y].parent); }
    var t' := Prune(t, y, x);
    PruneOrder(t, y, x);
    PruneRoot(t, y, x);
    forall w | w in t'.mem && w != t'.head ensures Link(t', w) {
      assert Link(t, w);
      if t.mem[w].parent != t.head { assert Link(t, t.mem[w].parent); }
      PruneLink(t, y, x, w);
    }
  }

  /** Unlinking the phantom leaves an ordinary red-black tree. */
  lemma PrunePhantom(t: Shape, bh: Heights, y: Node)
    requires Linked(t) && Colored(t, bh, y, null, null) && y != t.head
    ensures t.Has(y) && 0 <= t.lab[y].pos < |t.order|
    ensures Linked(Prune(t, y, null)) && Colored(Prune(t, y, null), bh, null, null, null)
  {
    assert Link(t, y) && Sound(t, bh, y, null, null, y);
    PruneLinked(t, y, null);
    var t' := Prune(t, y, null);
    forall w | w in t'.mem && w != t'.head ensures Sound(t', bh, null, null, null, w) {
      assert Link(t, w) && Sound(t, bh, y, null, null, w);
    }
  }

  /** A red leaf can be unlinked as it is. */
  lemma PruneRedLeaf(t: Shape, bh: Heights, y: Node)
    requires Linked(t) && Colored(t, bh, null, null, null)
    requires y in t.mem && y != t.head && OnlyChild(t, y, null) && t.mem[y].color == Red
    ensures t.Has(y) && 0 <= t.lab[y].pos < |t.order|
    ensures Linked(Prune(t, y, null)) && Colored(Prune(t, y, null), bh, null, null, null)
  {
    assert Link(t, y) && Sound(t, bh, null, null, null, y);
    PruneLinked(t, y, null);
    var t' := Prune(t, y, null);
    forall w | w in t'.mem && w != t'.head ensures Sound(t', bh, null, null, null, w) {
      assert Link(t, w) && Sound(t, bh, null, null, null, w);
    }
  }

  lemma PruneAboveSound(t: Shape, bh: Heights, y: Node, x: Node, w: Node)
    requires t.head in t.mem && Link(t, y) && Link(t, x) && OnlyChild(t, y, x)
    requires Sound(t, bh, null, null, null, y) && Sound(t, bh, null, null, null, x)
    requires Link(t, w) && w != y && Sound(t, bh, null, null, null, w)
    ensures t.mem[y].color == Black && t.mem[x].color == Red
    ensures Sound(Prune(t, y, x), bh, null, x, x, w)
  {
  }

  /** A node with one child is black above a red leaf; splicing it out leaves a deficit at that child. */
  lemma PruneAboveChild(t: Shape, bh: Heights, y: Node, x: Node)
    requires Linked(t) && Colored(t, bh, null, null, null)
    requires y in t.mem && y != t.head && OnlyChild(t, y, x)
    ensures t.Has(y) && 0 <= t.lab[y].pos < |t.order| && t.mem[y].color == Black
    ensures var t' := Prune(t, y, x); EraseInv(t', bh, null, x) && t'.mem[x].color == Red
  {
    assert Link(t, y) && Sound(t, bh, null, null, null, y);
    assert Link(t, x) && Sound(t, bh, null, null, null, x);
    PruneLinked(t, y, x);
    var t' := Prune(t, y, x);
    PruneAboveSound(t, bh, y, x, x);
    forall w | w in t'.mem && w != t'.head ensures Sound(t', bh, null, x, x, w) {
      assert Link(t, w) && Sound(t, bh, null, null, null, w);
      PruneAboveSound(t, bh, y, x, w);
    }
  }

  // ---- putting one node in another's place ----

  function Alias(z: Node, y: Node, w: Node?): Node? { if w == z then y else w }

  function RenamedCell(head: Node, z: Node, y: Node, w: Node, c: Cell): Cell
  {
    if w == head then c.(left := Alias(z, y, c.left))
    else Cell(Alias(z, y, c.parent), Alias(z, y, c.left), Alias(z, y, c.right), c.color)
  }

  /** The tree with y, so far outside it, standing where z stood. */
  ghost function Rename(t: Shape, z: Node, y: Node): Shape
    requires t.Has(z) && 0 <= t.lab[z].pos < |t.order|
  {
    Shape(map w | w in t.mem.Keys - {z} + {y} ::
            RenamedCell(t.head, z, y, w, t.mem[if w == y then z else w]),
          map w | w in t.lab.Keys - {z} + {y} :: t.lab[if w == y then z else w],
          t.order[t.lab[z].pos := y],
          t.head)
  }

  /** z's children are exactly the nodes whose parent is z. */
  ghost predicate KnowsKids(t: Shape, z: Node)
    requires z in t.mem
  {
    && t.mem[z].left != z && t.mem[z].right != z && t.mem[z].parent != z
    && (t.mem[z].left != null ==> t.mem[z].left in t.mem) && (t.mem[z].right != null ==> t.mem[z].right in t.mem)
    && t.mem[z].left != t.head && t.mem[z].right != t.head
    && forall w :: w in t.mem && w != t.head ==> (t.mem[w].parent == z <==> w == t.mem[z].left || w == t.mem[z].right)
  }

  lemma LinkedKnowsKids(t: Shape, z: Node)
    requires Linked(t) && z in t.mem && z != t.head
    ensures HangsOnce(t, z) && KnowsKids(t, z)
  {
    assert Link(t, z);
    if t.mem[z].parent != t.head { assert Link(t, t.mem[z].parent); }
    forall w | w in t.mem && w != t.head
      ensures t.mem[w].parent == z <==> w == t.mem[z].left || w == t.mem[z].right
      ensures w != t.mem[z].parent ==> t.mem[w].left != z && t.mem[w].right != z
    {
      assert Link(t, w);
    }
  }

  function Adopted(m: Heap, head: Node, z: Node, y: Node): Heap
  {
    map w | w in m :: if w != head && m[w].parent == z then m[w].(parent := y) else m[w]
  }

  /** Taking over is relinking above z, then turning z's children to y, then exchanging the two names. */
  lemma RenameInSteps(t: Shape, z: Node, y: Node)
    requires HangsOnce(t, z) && KnowsKids(t, z) && 0 <= t.lab[z].pos < |t.order|
    requires y !in t.mem
    ensures Rename(t, z, y).mem == Adopted(Relinked(t, z, y), t.head, z, y)[y := t.mem[z]] - {z}
  {
  }

  ghost function RenameHeights(bh: Heights, z: Node, y: Node): Heights
    requires z in bh
  {
    bh[y := bh[z]]
  }

  lemma RenameLink(t: Shape, z: Node, y: Node, w: Node)
    requires t.head in t.mem && Link(t, z) && y !in t.mem && y !in t.lab && y != t.head
    requires Link(t, w) && (w != z ==> t.lab[w].pos != t.lab[z].pos)
    ensures Link(Rename(t, z, y), if w == z then y else w)
  {
    var t' := Rename(t, z, y);
    var v := if w == z then y else w;
    assert t'.lab[v] == t.lab[w];
    assert t.head in t'.mem && t'.Root() == Alias(z, y, t.Root());
    assert KidOk(t, w, L) && KidOk(t, w, R);
  }

  lemma RenameLinked(t: Shape, z: Node, y: Node)
    requires Linked(t) && z in t.mem && z != t.head && y !in t.mem && y !in t.lab
    ensures t.Has(z) && 0 <= t.lab[z].pos < |t.order|
    ensures Linked(Rename(t, z, y))
  {
    assert Link(t, z);
    var t' := Rename(t, z, y);
    forall x | x in t'.mem && x != t'.head ensures Link(t', x) {
      var w := if x == y then z else x;
      assert Link(t, w);
      RenameLink(t, z, y, w);
    }
    RenameOrder(t, z, y);
  }

  lemma RenameOrder(t: Shape, z: Node, y: Node)
    requires Linked(t) && t.Has(z) && Link(t, z) && y !in t.mem && y !in t.lab
    ensures var t' := Rename(t, z, y);
      (forall i :: 0 <= i < |t'.order| ==> t'.Has(t'.order[i]) && t'.lab[t'.order[i]].pos == i) && RootOk(t')
  {
    var t' := Rename(t, z, y);
    forall i | 0 <= i < |t'.order|
      ensures t'.Has(t'.order[i]) && t'.lab[t'.order[i]].pos == i
    {
      RenameOrderAt(t, z, y, i);
    }
    RenameRoot(t, z, y);
  }

  lemma RenameOrderAt(t: Shape, z: Node, y: Node, i: int)
    requires Linked(t) && t.Has(z) && Link(t, z) && y !in t.mem && y !in t.lab && 0 <= i < |t.order|
    ensures var t' := Rename(t, z, y); |t'.order| == |t.order| && t'.Has(t'.order[i]) && t'.lab[t'.order[i]].pos == i
  {
    assert t.Has(t.order[i]) && t.lab[t.order[i]].pos == i;
    if i == t.lab[z].pos {
    } else {
      assert t.order[i] != z && t.order[i] != y;
    }
  }

  lemma RenameRoot(t: Shape, z: Node, y: Node)
    requires Linked(t) && t.Has(z) && Link(t, z) && y !in t.mem && y !in t.lab
    ensures Rename(t, z, y).head in Rename(t, z, y).mem && RootOk(Rename(t, z, y))
  {
    if t.Root() != null { assert Link(t, t.Root()); }
  }

  lemma RenameKeeps(t: Shape, z: Node, y: Node, d: Node?)
    requires t.head in t.mem && t.Has(z) && 0 <= t.lab[z].pos < |t.order|
    requires y !in t.mem && y !in t.lab && d != z && d != y
    ensures var t' := Rename(t, z, y);
      && y in t'.mem && t'.mem[y].color == t.mem[z].color
      && t'.head in t'.mem && t'.mem[t.head].parent == t.mem[t.head].parent && t'.mem[t.head].right == t.mem[t.head].right
      && (t.Has(d) ==> t'.Has(d) && t'.mem[d].color == t.mem[d].color)
  {
  }

  lemma RenameSound(t: Shape, bh: Heights, d: Node?, z: Node, y: Node, w: Node)
    requires t.head in t.mem && Link(t, z) && y !in t.mem && y !in t.lab && y != t.head && d != z && d != y
    requires Link(t, w) && Sound(t, bh, null, d, d, w) && z in bh
    ensures Sound(Rename(t, z, y), RenameHeights(bh, z, y), null, d, d, if w == z then y else w)
  {
    var t', v := Rename(t, z, y), if w == z then y else w;
    assert t'.mem[v] == RenamedCell(t.head, z, y, v, t.mem[w]);
    assert KidOk(t, w, L) && KidOk(t, w, R);
  }

  lemma RenameColored(t: Shape, bh: Heights, d: Node?, z: Node, y: Node)
    requires Linked(t) && Colored(t, bh, null, d, d) && z in t.mem && z != t.head && y !in t.mem && y !in t.lab
    requires d != z && d != y
    ensures t.Has(z) && 0 <= t.lab[z].pos < |t.order| && z in bh
    ensures Colored(Rename(t, z, y), RenameHeights(bh, z, y), null, d, d)
  {
    assert Link(t, z) && Sound(t, bh, null, d, d, z);
    var t', bh' := Rename(t, z, y), RenameHeights(bh, z, y);
    forall x | x in t'.mem && x != t'.head ensures Sound(t', bh', null, d, d, x) {
      var w := if x == y then z else x;
      assert Link(t, w) && Sound(t, bh, null, d, d, w);
      RenameSound(t, bh, d, z, y, w);
    }
  }

  // ---- the header's pointers to the first and the last node ----

  function WithEnds(t: Shape, first: Node?, last: Node?): Shape
    requires t.head in t.mem
  {
    t.(mem := t.mem[t.head := t.mem[t.head].(parent := first, right := last)])
  }

  lemma EndsLinked(t: Shape, first: Node?, last: Node?)
    requires Linked(t)
    ensures Linked(WithEnds(t, first, last))
  {
    forall x | x in t.mem && x != t.head ensures Link(WithEnds(t, first, last), x) {
      assert Link(t, x);
    }
  }

  lemma EndsColored(t: Shape, bh: Heights, first: Node?, last: Node?)
    requires Linked(t) && Colored(t, bh, null, null, null)
    ensures Colored(WithEnds(t, first, last), bh, null, null, null)
  {
    forall x | x in t.mem && x != t.head ensures Sound(WithEnds(t, first, last), bh, null, null, null, x) {
      assert Link(t, x) && Sound(t, bh, null, null, null, x);
    }
  }

  lemma GrowBelowEnds(t: Shape, bh: Heights, n: Node, p: Node, s: Side, first: Node?, last: Node?)
    requires Linked(t) && Colored(t, bh, null, null, null)
    requires n !in t.mem && p in t.mem && p != t.head && t.mem[p].Kid(s) == null
    ensures t.Has(p) && 0 <= Slot(t, p, s) <= |t.order|
    ensures InsertInv(Grow(WithEnds(t, first, last), n, p, s), bh[n := 0], n)
    ensures Grow(WithEnds(t, first, last), n, p, s).order == Grow(t, n, p, s).order
  {
    EndsLinked(t, first, last);
    EndsColored(t, bh, first, last);
    GrowInsertInv(WithEnds(t, first, last), bh, n, p, s);
  }

  /** A new leaf is first exactly when it goes to the left of the first node, and likewise for the last. */
  lemma GrowEnds(t: Shape, n: Node, p: Node, s: Side)
    requires Linked(t) && t.Has(p) && t.order != []
    ensures 0 <= Slot(t, p, s) <= |t.order|
    ensures var o, o' := t.order, Grow(t, n, p, s).order;
      && |o'| == |o| + 1
      && o'[0] == (if s == L && p == o[0] then n else o[0])
      && o'[|o|] == (if s == R && p == o[|o| - 1] then n else o[|o| - 1])
  {
    assert Link(t, p);
  }

  // ---- erasing ----

  /** Charging a black leaf's own weight to it turns the tree into one with a deficit there. */
  lemma StartPhantom(t: Shape, bh: Heights, y: Node)
    requires Linked(t) && Colored(t, bh, null, null, null)
    requires y in t.mem && y != t.head && t.mem[y].color == Black && t.mem[y].left == null && t.mem[y].right == null
    ensures EraseInv(t, bh[y := 0], y, y)
  {
    assert Link(t, y) && Sound(t, bh, null, null, null, y);
    forall x | x in t.mem && x != t.head ensures Sound(t, bh[y := 0], y, y, y, x) {
      assert Link(t, x) && Sound(t, bh, null, null, null, x);
    }
  }

  /** Dropping the one before and putting it in its successor's place drops the successor. */
  lemma WithoutThenPut<T>(s: seq<T>, i: int)
    requires 0 < i < |s|
    ensures Without(s, i - 1)[i - 1 := s[i - 1]] == Without(s, i)
  {
  }
}
