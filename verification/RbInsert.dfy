module RbInsert {
  import opened RbLinks
  import opened RbColors

  /** A red-black tree except that the red node n may sit below a red parent, or be a red root. */
  ghost predicate InsertInv(t: Shape, bh: Heights, n: Node)
  {
    Linked(t) && Colored(t, bh, null, null, n) && t.Has(n) && t.mem[n].color == Red
  }

  ghost predicate RedBelow(t: Shape, n: Node, p: Node)
  {
    && t.head in t.mem && n in t.mem && p in t.mem
    && n != t.Root() && t.mem[n].parent == p && t.mem[p].color == Red
  }

  /** Red n below red p below black g. */
  ghost predicate Triple(t: Shape, bh: Heights, n: Node, p: Node, g: Node)
  {
    && t.head in t.mem && t.Has(n) && t.Has(p) && t.Has(g)
    && t.mem[n].parent == p && t.mem[p].parent == g
    && t.mem[n].color == Red && t.mem[p].color == Red && t.mem[g].color == Black
    && Link(t, n) && Link(t, p) && Link(t, g)
    && Sound(t, bh, null, null, n, n) && Sound(t, bh, null, null, n, p) && Sound(t, bh, null, null, n, g)
  }

  /** Below a red parent there is a black grandparent. */
  lemma GetTriple(t: Shape, bh: Heights, n: Node, p: Node)
    requires InsertInv(t, bh, n) && RedBelow(t, n, p)
    ensures t.mem[p].parent != null && Triple(t, bh, n, p, t.mem[p].parent)
  {
    assert Link(t, n) && Sound(t, bh, null, null, n, n);
    assert Link(t, p) && Sound(t, bh, null, null, n, p);
    var g := t.mem[p].parent;
    assert g != t.head;
    assert Link(t, g) && Sound(t, bh, null, null, n, g);
  }

  function Flip(t: Shape, p: Node, u: Node, g: Node): Shape
    requires p in t.mem && u in t.mem && g in t.mem
  {
    Paint(Paint(Paint(t, p, Black), u, Black), g, Red)
  }

  function FlipHeights(bh: Heights, p: Node, u: Node): Heights
    requires p in bh && u in bh
  {
    bh[p := bh[p] + 1][u := bh[u] + 1]
  }

  ghost predicate RedUncle(t: Shape, bh: Heights, n: Node, p: Node, u: Node, g: Node)
  {
    && Triple(t, bh, n, p, g)
    && t.Has(u) && u != p && t.mem[u].color == Red
    && (t.mem[g].left == u || t.mem[g].right == u)
    && Link(t, u) && Sound(t, bh, null, null, n, u)
  }

  lemma FlipSoundAround(t: Shape, bh: Heights, n: Node, p: Node, u: Node, g: Node)
    requires RedUncle(t, bh, n, p, u, g)
    ensures var t', bh' := Flip(t, p, u, g), FlipHeights(bh, p, u);
      Sound(t', bh', null, null, g, p) && Sound(t', bh', null, null, g, u) && Sound(t', bh', null, null, g, g)
  {
  }

  lemma FlipSoundOther(t: Shape, bh: Heights, n: Node, p: Node, u: Node, g: Node, x: Node)
    requires RedUncle(t, bh, n, p, u, g)
    requires t.Has(x) && x != p && x != u && x != g && Link(t, x) && Sound(t, bh, null, null, n, x)
    ensures Sound(Flip(t, p, u, g), FlipHeights(bh, p, u), null, null, g, x)
  {
  }

  lemma FlipSound(t: Shape, bh: Heights, n: Node, p: Node, u: Node, g: Node, x: Node)
    requires RedUncle(t, bh, n, p, u, g)
    requires t.Has(x) && Link(t, x) && Sound(t, bh, null, null, n, x)
    ensures Sound(Flip(t, p, u, g), FlipHeights(bh, p, u), null, null, g, x)
  {
    if x == p || x == u || x == g {
      FlipSoundAround(t, bh, n, p, u, g);
    } else {
      FlipSoundOther(t, bh, n, p, u, g, x);
    }
  }

  lemma FlipColored(t: Shape, bh: Heights, n: Node, p: Node, u: Node, g: Node)
    requires InsertInv(t, bh, n) && RedUncle(t, bh, n, p, u, g)
    ensures Colored(Flip(t, p, u, g), FlipHeights(bh, p, u), null, null, g)
  {
    var t', bh' := Flip(t, p, u, g), FlipHeights(bh, p, u);
    forall x | x in t'.mem && x != t'.head ensures Sound(t', bh', null, null, g, x) {
      assert Link(t, x) && Sound(t, bh, null, null, n, x);
      FlipSound(t, bh, n, p, u, g, x);
    }
  }

  /** Uncle red: the violation moves two levels up. */
  lemma FlipStep(t: Shape, bh: Heights, n: Node, p: Node, u: Node, g: Node)
    requires InsertInv(t, bh, n) && RedBelow(t, n, p) && t.mem[p].parent == g && g in t.mem
    requires u in t.mem && u != p && t.mem[u].color == Red && (t.mem[g].left == u || t.mem[g].right == u)
    ensures p in bh && u in bh
    ensures InsertInv(Flip(t, p, u, g), FlipHeights(bh, p, u), g)
    ensures t.Has(g) && t.Has(n) && t.lab[g].hi - t.lab[g].lo > t.lab[n].hi - t.lab[n].lo
  {
    GetTriple(t, bh, n, p);
    assert Link(t, u) && Sound(t, bh, null, null, n, u);
    FlipColored(t, bh, n, p, u, g);
    PaintLinked(t, p, Black);
    PaintLinked(Paint(t, p, Black), u, Black);
    PaintLinked(Paint(Paint(t, p, Black), u, Black), g, Red);
  }

  lemma InnerSound(t: Shape, bh: Heights, n: Node, p: Node, g: Node, s: Side, x: Node)
    requires Triple(t, bh, n, p, g) && t.mem[p].Kid(s) == n
    requires t.Has(x) && Link(t, x) && Sound(t, bh, null, null, n, x)
    ensures Sound(Rotate(t, n, p, s), bh, null, null, p, x)
  {
    if x == n {
    } else if x == p {
    } else {
    }
  }

  /** Inner grandchild: rotating it above its parent only exchanges the two red nodes. */
  lemma InnerStep(t: Shape, bh: Heights, n: Node, p: Node, s: Side)
    requires InsertInv(t, bh, n) && RedBelow(t, n, p) && t.mem[p].Kid(s) == n
    ensures t.Has(n) && t.Has(p)
    ensures InsertInv(Rotate(t, n, p, s), bh, p)
  {
    GetTriple(t, bh, n, p);
    RotateLinked(t, n, p, s);
    var g := t.mem[p].parent;
    var t' := Rotate(t, n, p, s);
    forall x | x in t'.mem && x != t'.head ensures Sound(t', bh, null, null, p, x) {
      assert Link(t, x) && Sound(t, bh, null, null, n, x);
      InnerSound(t, bh, n, p, g, s, x);
    }
  }

  /** Outer grandchild with a black uncle: one rotation ends the repair. */
  lemma OuterStep(t: Shape, bh: Heights, n: Node, p: Node, g: Node, s: Side)
    requires InsertInv(t, bh, n) && RedBelow(t, n, p) && t.mem[p].parent == g && g in t.mem
    requires t.mem[g].Kid(s) == p && t.mem[p].Kid(s) == n
    requires t.mem[g].Kid(s.Opp()) != null ==> t.mem[g].Kid(s.Opp()) in t.mem && t.mem[t.mem[g].Kid(s.Opp())].color == Black
    ensures t.Has(p) && t.Has(g) && g in bh && bh[g] > 0
    ensures var t' := Lift(t, p, g, s);
      InsertInv(t', LiftHeights(bh, p, g), n) && t'.mem[n].parent == p && t'.mem[p].color == Black
  {
    GetTriple(t, bh, n, p);
    var tmp := t.mem[p].Kid(s.Opp());
    if tmp != null { assert Link(t, tmp); }
    LiftColored(t, bh, null, null, n, p, g, s);
    LiftLinked(t, p, g, s);
  }

  ghost function RootHeights(t: Shape, bh: Heights, r: Node): Heights
    requires r in t.mem && r in bh
  {
    bh[r := if t.mem[r].color == Black then bh[r] else bh[r] + 1]
  }

  /** With no red parent above n, blackening the root leaves a red-black tree. */
  lemma FinishInsert(t: Shape, bh: Heights, n: Node)
    requires InsertInv(t, bh, n)
    requires n == t.Root() || (t.mem[n].parent != null && t.mem[n].parent in t.mem && t.mem[t.mem[n].parent].color == Black)
    ensures t.Root() != null && t.Has(t.Root()) && t.Root() in bh
    ensures Linked(Paint(t, t.Root(), Black))
    ensures Colored(Paint(t, t.Root(), Black), RootHeights(t, bh, t.Root()), null, null, null)
  {
    assert Link(t, n);
    var r := t.Root();
    assert Link(t, r) && Sound(t, bh, null, null, n, r);
    PaintLinked(t, r, Black);
    var t', bh' := Paint(t, r, Black), RootHeights(t, bh, r);
    forall x | x in t'.mem && x != t'.head ensures Sound(t', bh', null, null, null, x) {
      assert Link(t, x) && Sound(t, bh, null, null, n, x);
    }
  }
}
