module RbErase {
  import opened RbLinks
  import opened RbColors

  /** Paths through n are one black short, and n may sit below a red parent. */
  ghost predicate EraseInv(t: Shape, bh: Heights, z: Node?, n: Node)
  {
    Linked(t) && Colored(t, bh, z, n, n) && t.Has(n)
  }

  /** The deficient black node n, its parent p and its sibling s on side o. */
  ghost predicate Family(t: Shape, bh: Heights, z: Node?, n: Node, p: Node, s: Node, o: Side)
  {
    && t.head in t.mem && t.Has(n) && t.Has(p) && t.Has(s) && s != n
    && t.mem[p].Kid(o) == s && t.mem[p].Kid(o.Opp()) == n
    && Link(t, n) && Link(t, p) && Link(t, s)
    && Sound(t, bh, z, n, n, n) && Sound(t, bh, z, n, n, p) && Sound(t, bh, z, n, n, s)
    && t.mem[n].color == Black && p != z && s != z && Phantom(t, z)
  }

  /** n is black, not the root, and hangs from p opposite to side o. */
  ghost predicate Deficient(t: Shape, n: Node, p: Node, o: Side)
  {
    && t.head in t.mem && n in t.mem && p in t.mem && n != t.Root()
    && t.mem[n].color == Black && t.mem[n].parent == p && t.mem[p].Kid(o.Opp()) == n
  }

  /** A deficient black node below the root has a sibling: the branches for a missing one are dead. */
  lemma GetFamily(t: Shape, bh: Heights, z: Node?, n: Node, p: Node, o: Side)
    requires EraseInv(t, bh, z, n) && Deficient(t, n, p, o)
    ensures t.mem[p].Kid(o) != null && Family(t, bh, z, n, p, t.mem[p].Kid(o), o)
  {
    assert Link(t, n) && Sound(t, bh, z, n, n, n);
    assert Link(t, p) && Sound(t, bh, z, n, n, p);
    var s := t.mem[p].Kid(o);
    assert Link(t, s) && Sound(t, bh, z, n, n, s);
  }

  lemma RedSiblingFit(t: Shape, bh: Heights, z: Node?, n: Node, p: Node, s: Node, o: Side)
    requires EraseInv(t, bh, z, n)
    requires Family(t, bh, z, n, p, s, o) && t.mem[s].color == Red
    ensures CanLift(t, bh, z, n, n, s, p, o)
  {
    var tmp := t.mem[s].Kid(o.Opp());
    if tmp != null { assert Link(t, tmp); }
  }

  /** Red sibling: lifting it gives n a black sibling, and keeps the deficit at n. */
  lemma RedSiblingStep(t: Shape, bh: Heights, z: Node?, n: Node, p: Node, s: Node, o: Side)
    requires EraseInv(t, bh, z, n) && Deficient(t, n, p, o) && t.mem[p].Kid(o) == s && s in t.mem && t.mem[s].color == Red
    ensures t.Has(s) && t.Has(p) && p in bh && bh[p] > 0
    ensures var t' := Lift(t, s, p, o);
      && EraseInv(t', LiftHeights(bh, s, p), z, n) && Deficient(t', n, p, o) && t'.lab[n] == t.lab[n]
      && (t'.mem[p].Kid(o) != null ==> t'.mem[p].Kid(o) in t'.mem && t'.mem[t'.mem[p].Kid(o)].color == Black)
  {
    GetFamily(t, bh, z, n, p, o);
    RedSiblingFit(t, bh, z, n, p, s, o);
    LiftColored(t, bh, z, n, n, s, p, o);
    LiftLinked(t, s, p, o);
  }

  lemma InnerRedFit(t: Shape, bh: Heights, z: Node?, n: Node, p: Node, s: Node, c: Node, o: Side)
    requires EraseInv(t, bh, z, n)
    requires Family(t, bh, z, n, p, s, o) && t.mem[s].color == Black
    requires t.mem[s].Kid(o.Opp()) == c && c in t.mem && t.mem[c].color == Red && BlackOr(t, null, t.mem[s].Kid(o))
    ensures CanLift(t, bh, z, n, n, c, s, o.Opp())
  {
    assert Link(t, c) && Sound(t, bh, z, n, n, c);
    var tmp := t.mem[c].Kid(o);
    if tmp != null { assert Link(t, tmp); }
  }

  /** Red near nephew only: lifting it makes the far nephew red. */
  lemma InnerRedStep(t: Shape, bh: Heights, z: Node?, n: Node, p: Node, s: Node, c: Node, o: Side)
    requires EraseInv(t, bh, z, n) && Deficient(t, n, p, o) && t.mem[p].Kid(o) == s && s in t.mem && t.mem[s].color == Black
    requires t.mem[s].Kid(o.Opp()) == c && c in t.mem && t.mem[c].color == Red
    requires t.mem[s].Kid(o) != null ==> t.mem[s].Kid(o) in t.mem && t.mem[t.mem[s].Kid(o)].color == Black
    ensures t.Has(c) && t.Has(s) && s in bh && bh[s] > 0
    ensures var t' := Lift(t, c, s, o.Opp());
      && EraseInv(t', LiftHeights(bh, c, s), z, n) && Deficient(t', n, p, o)
      && t'.mem[p].Kid(o) == c && t'.mem[c].color == Black && t'.mem[c].Kid(o) == s && t'.mem[s].color == Red
  {
    GetFamily(t, bh, z, n, p, o);
    InnerRedFit(t, bh, z, n, p, s, c, o);
    LiftColored(t, bh, z, n, n, c, s, o.Opp());
    LiftLinked(t, c, s, o.Opp());
  }

  ghost predicate BlackNephews(t: Shape, s: Node)
    requires s in t.mem
  {
    && (t.mem[s].left != null ==> t.mem[s].left in t.mem) && (t.mem[s].right != null ==> t.mem[s].right in t.mem)
    && t.mem[s].color == Black && BlackOr(t, null, t.mem[s].left) && BlackOr(t, null, t.mem[s].right)
  }

  ghost predicate CanPull(t: Shape, bh: Heights, z: Node?, n: Node, p: Node, s: Node, o: Side)
  {
    Family(t, bh, z, n, p, s, o) && BlackNephews(t, s) && t.mem[p].color == Black && bh[s] > 0 && bh[p] > 0
  }

  lemma PullSoundAround(t: Shape, bh: Heights, z: Node?, n: Node, p: Node, s: Node, o: Side)
    requires CanPull(t, bh, z, n, p, s, o)
    ensures var t', bh' := Paint(t, s, Red), bh[s := bh[s] - 1][p := bh[p] - 1];
      Sound(t', bh', z, p, p, s) && Sound(t', bh', z, p, p, p)
  {
    if o == L { } else { }
  }

  lemma PullSoundOther(t: Shape, bh: Heights, z: Node?, n: Node, p: Node, s: Node, o: Side, x: Node)
    requires CanPull(t, bh, z, n, p, s, o)
    requires t.Has(x) && x != s && x != p && Link(t, x) && Sound(t, bh, z, n, n, x)
    ensures Sound(Paint(t, s, Red), bh[s := bh[s] - 1][p := bh[p] - 1], z, p, p, x)
  {
  }

  /** Black nephews below a black parent: the deficit moves up. */
  lemma PullStep(t: Shape, bh: Heights, z: Node?, n: Node, p: Node, s: Node, o: Side)
    requires EraseInv(t, bh, z, n) && Deficient(t, n, p, o) && t.mem[p].Kid(o) == s && s in t.mem
    requires BlackNephews(t, s) && t.mem[p].color == Black
    ensures s in bh && p in bh && bh[s] > 0 && bh[p] > 0
    ensures EraseInv(Paint(t, s, Red), bh[s := bh[s] - 1][p := bh[p] - 1], z, p)
    ensures t.Has(p) && t.Has(n) && t.lab[p].hi - t.lab[p].lo > t.lab[n].hi - t.lab[n].lo
  {
    GetFamily(t, bh, z, n, p, o);
    PullSoundAround(t, bh, z, n, p, s, o);
    PaintLinked(t, s, Red);
    var t', bh' := Paint(t, s, Red), bh[s := bh[s] - 1][p := bh[p] - 1];
    forall x | x in t'.mem && x != t'.head ensures Sound(t', bh', z, p, p, x) {
      if x != s && x != p {
        assert Link(t, x) && Sound(t, bh, z, n, n, x);
        PullSoundOther(t, bh, z, n, p, s, o, x);
      }
    }
  }

  lemma AbsorbSound(t: Shape, bh: Heights, z: Node?, n: Node, p: Node, s: Node, o: Side, x: Node)
    requires Family(t, bh, z, n, p, s, o) && BlackNephews(t, s) && t.mem[p].color == Red && bh[s] > 0
    requires t.Has(x) && Link(t, x) && Sound(t, bh, z, n, n, x)
    ensures Sound(Paint(Paint(t, s, Red), p, Black), bh[s := bh[s] - 1], z, null, null, x)
  {
    AbsorbBalanced(t, bh, z, n, p, s, o, x);
    AbsorbRed(t, bh, z, n, p, s, o, x);
  }

  lemma AbsorbBalanced(t: Shape, bh: Heights, z: Node?, n: Node, p: Node, s: Node, o: Side, x: Node)
    requires Family(t, bh, z, n, p, s, o) && BlackNephews(t, s) && t.mem[p].color == Red && bh[s] > 0
    requires t.Has(x) && Link(t, x) && Sound(t, bh, z, n, n, x)
    ensures Balanced(Paint(Paint(t, s, Red), p, Black), bh[s := bh[s] - 1], z, null, x)
  {
    if x == s {
    } else if x == p {
    } else {
    }
  }

  lemma AbsorbRed(t: Shape, bh: Heights, z: Node?, n: Node, p: Node, s: Node, o: Side, x: Node)
    requires Family(t, bh, z, n, p, s, o) && BlackNephews(t, s) && t.mem[p].color == Red
    requires t.Has(x) && Link(t, x) && Sound(t, bh, z, n, n, x)
    ensures NoRedRed(Paint(Paint(t, s, Red), p, Black), null, x)
  {
    if x == s {
    } else if x == p {
    } else {
    }
  }

  /** Black nephews below a red parent: the parent absorbs the deficit. */
  lemma AbsorbStep(t: Shape, bh: Heights, z: Node?, n: Node, p: Node, s: Node, o: Side)
    requires EraseInv(t, bh, z, n) && Deficient(t, n, p, o) && t.mem[p].Kid(o) == s && s in t.mem
    requires BlackNephews(t, s) && t.mem[p].color == Red
    ensures s in bh && bh[s] > 0 && n != s && n != p
    ensures Linked(Paint(Paint(t, s, Red), p, Black))
    ensures Colored(Paint(Paint(t, s, Red), p, Black), bh[s := bh[s] - 1], z, null, null)
  {
    GetFamily(t, bh, z, n, p, o);
    PaintLinked(t, s, Red);
    PaintLinked(Paint(t, s, Red), p, Black);
    var t', bh' := Paint(Paint(t, s, Red), p, Black), bh[s := bh[s] - 1];
    forall x | x in t'.mem && x != t'.head ensures Sound(t', bh', z, null, null, x) {
      assert Link(t, x) && Sound(t, bh, z, n, n, x);
      AbsorbSound(t, bh, z, n, p, s, o, x);
    }
  }

  /** Sibling above parent, taking the parent's colour; parent and far nephew f turn black. */
  ghost function Settle(t: Shape, p: Node, s: Node, f: Node, o: Side): Shape
    requires t.Has(p) && t.Has(s) && f in t.mem
  {
    Rotate(Paint(Paint(Paint(t, s, t.mem[p].color), p, Black), f, Black), s, p, o)
  }

  function SettleHeights(bh: Heights, p: Node, s: Node, f: Node): Heights
    requires p in bh && s in bh && f in bh
  {
    bh[s := bh[p]][p := bh[s]][f := bh[f] + 1]
  }

  ghost predicate FarRed(t: Shape, bh: Heights, z: Node?, n: Node, p: Node, s: Node, f: Node, o: Side)
  {
    && Family(t, bh, z, n, p, s, o) && t.mem[s].color == Black
    && t.mem[s].Kid(o) == f && t.Has(f) && t.mem[f].color == Red
    && Link(t, f) && Sound(t, bh, z, n, n, f)
  }

  lemma SettleSoundParent(t: Shape, bh: Heights, z: Node?, n: Node, p: Node, s: Node, f: Node, o: Side)
    requires FarRed(t, bh, z, n, p, s, f, o)
    ensures Sound(Settle(t, p, s, f, o), SettleHeights(bh, p, s, f), z, null, null, p)
  {
    if o == L { } else { }
  }

  lemma SettleSoundFar(t: Shape, bh: Heights, z: Node?, n: Node, p: Node, s: Node, f: Node, o: Side)
    requires FarRed(t, bh, z, n, p, s, f, o)
    ensures Sound(Settle(t, p, s, f, o), SettleHeights(bh, p, s, f), z, null, null, f)
  {
    if o == L { } else { }
  }

  lemma SettleSoundTop(t: Shape, bh: Heights, z: Node?, n: Node, p: Node, s: Node, f: Node, o: Side)
    requires FarRed(t, bh, z, n, p, s, f, o)
    ensures Sound(Settle(t, p, s, f, o), SettleHeights(bh, p, s, f), z, null, null, s)
  {
    if o == L { } else { }
  }

  lemma SettleSoundOther(t: Shape, bh: Heights, z: Node?, n: Node, p: Node, s: Node, f: Node, o: Side, x: Node)
    requires FarRed(t, bh, z, n, p, s, f, o)
    requires t.Has(x) && x != p && x != s && x != f && Link(t, x) && Sound(t, bh, z, n, n, x)
    ensures Sound(Settle(t, p, s, f, o), SettleHeights(bh, p, s, f), z, null, null, x)
  {
    SettleCellOther(t, bh, z, n, p, s, f, o, x);
    SettleBalancedOther(t, bh, z, n, p, s, f, o, x);
    SettleRedOther(t, bh, z, n, p, s, f, o, x);
  }

  /** Elsewhere only a link from p to s may change. */
  lemma SettleCellOther(t: Shape, bh: Heights, z: Node?, n: Node, p: Node, s: Node, f: Node, o: Side, x: Node)
    requires FarRed(t, bh, z, n, p, s, f, o) && t.Has(x) && x != p && x != s && x != f && Link(t, x)
    ensures var c, c' := t.mem[x], Settle(t, p, s, f, o).mem[x];
      && c'.color == c.color && c'.left == (if c.left == p then s else c.left) && c'.right == (if c.right == p then s else c.right)
      && c.left != s && c.right != s && c.left != f && c.right != f && c.left != n && c.right != n
  {
  }

  lemma SettleBalancedOther(t: Shape, bh: Heights, z: Node?, n: Node, p: Node, s: Node, f: Node, o: Side, x: Node)
    requires FarRed(t, bh, z, n, p, s, f, o) && t.Has(x) && x != p && x != s && x != f && Sound(t, bh, z, n, n, x)
    requires var c, c' := t.mem[x], Settle(t, p, s, f, o).mem[x];
      && c'.color == c.color && c'.left == (if c.left == p then s else c.left) && c'.right == (if c.right == p then s else c.right)
      && c.left != s && c.right != s && c.left != f && c.right != f && c.left != n && c.right != n
    ensures Balanced(Settle(t, p, s, f, o), SettleHeights(bh, p, s, f), z, null, x)
  {
  }

  lemma SettleRedOther(t: Shape, bh: Heights, z: Node?, n: Node, p: Node, s: Node, f: Node, o: Side, x: Node)
    requires FarRed(t, bh, z, n, p, s, f, o) && t.Has(x) && x != p && x != s && x != f && Sound(t, bh, z, n, n, x)
    requires var c, c' := t.mem[x], Settle(t, p, s, f, o).mem[x];
      && c'.color == c.color && c'.left == (if c.left == p then s else c.left) && c'.right == (if c.right == p then s else c.right)
      && c.left != s && c.right != s && c.left != f && c.right != f && c.left != n && c.right != n
    ensures NoRedRed(Settle(t, p, s, f, o), null, x)
  {
  }

  lemma SettleSound(t: Shape, bh: Heights, z: Node?, n: Node, p: Node, s: Node, f: Node, o: Side, x: Node)
    requires FarRed(t, bh, z, n, p, s, f, o)
    requires t.Has(x) && Link(t, x) && Sound(t, bh, z, n, n, x)
    ensures Sound(Settle(t, p, s, f, o), SettleHeights(bh, p, s, f), z, null, null, x)
  {
    if x == p {
      SettleSoundParent(t, bh, z, n, p, s, f, o);
    } else if x == f {
      SettleSoundFar(t, bh, z, n, p, s, f, o);
    } else if x == s {
      SettleSoundTop(t, bh, z, n, p, s, f, o);
    } else {
      SettleSoundOther(t, bh, z, n, p, s, f, o, x);
    }
  }

  lemma SettleColored(t: Shape, bh: Heights, z: Node?, n: Node, p: Node, s: Node, f: Node, o: Side)
    requires EraseInv(t, bh, z, n) && FarRed(t, bh, z, n, p, s, f, o)
    ensures Colored(Settle(t, p, s, f, o), SettleHeights(bh, p, s, f), z, null, null)
  {
    var t', bh' := Settle(t, p, s, f, o), SettleHeights(bh, p, s, f);
    assert Phantom(t', z) && RootBlack(t', null) by {
      if p == t.Root() { assert Link(t, t.Root()); }
    }
    forall x | x in t'.mem && x != t'.head ensures Sound(t', bh', z, null, null, x) {
      assert Link(t, x) && Sound(t, bh, z, n, n, x);
      SettleSound(t, bh, z, n, p, s, f, o, x);
    }
  }

  lemma SettleLinked(t: Shape, p: Node, s: Node, f: Node, o: Side)
    requires Linked(t) && t.Has(p) && t.Has(s) && f in t.mem && t.mem[p].Kid(o) == s
    ensures Linked(Settle(t, p, s, f, o))
  {
    PaintLinked(t, s, t.mem[p].color);
    PaintLinked(Paint(t, s, t.mem[p].color), p, Black);
    var t3 := Paint(Paint(Paint(t, s, t.mem[p].color), p, Black), f, Black);
    PaintLinked(Paint(Paint(t, s, t.mem[p].color), p, Black), f, Black);
    RotateLinked(t3, s, p, o);
  }

  lemma SettleTurnable(t: Shape, p: Node, s: Node, f: Node, o: Side)
    requires Linked(t) && t.Has(p) && t.Has(s) && f in t.mem && t.mem[p].Kid(o) == s
    ensures var t' := Paint(Paint(Paint(t, s, t.mem[p].color), p, Black), f, Black);
      HangsOnce(t', p) && Turnable(t', s, p, o)
  {
    LinkedTurnable(t, s, p, o);
  }

  /** A red far nephew: one rotation pays the deficit. */
  lemma SettleStep(t: Shape, bh: Heights, z: Node?, n: Node, p: Node, s: Node, f: Node, o: Side)
    requires EraseInv(t, bh, z, n) && Deficient(t, n, p, o) && t.mem[p].Kid(o) == s && s in t.mem && t.mem[s].color == Black
    requires t.mem[s].Kid(o) == f && f in t.mem && t.mem[f].color == Red
    ensures t.Has(p) && t.Has(s) && p in bh && s in bh && f in bh
    ensures Linked(Settle(t, p, s, f, o)) && Settle(t, p, s, f, o).mem[n].color == Black
    ensures Colored(Settle(t, p, s, f, o), SettleHeights(bh, p, s, f), z, null, null)
  {
    GetFamily(t, bh, z, n, p, o);
    assert Link(t, f) && Sound(t, bh, z, n, n, f);
    SettleLinked(t, p, s, f, o);
    SettleColored(t, bh, z, n, p, s, f, o);
  }

  ghost function PaidHeights(t: Shape, bh: Heights, n: Node): Heights
    requires n in t.mem && n in bh
  {
    bh[n := if t.mem[n].color == Red then bh[n] + 1 else bh[n]]
  }

  lemma FinishSound(t: Shape, bh: Heights, z: Node?, n: Node, x: Node)
    requires t.head in t.mem && Link(t, n) && Sound(t, bh, z, n, n, n) && Phantom(t, z)
    requires n == t.Root() || t.mem[n].color == Red
    requires n == t.Root() ==> t.mem[n].parent == t.head
    requires t.Has(x) && Link(t, x) && Sound(t, bh, z, n, n, x)
    ensures Sound(Paint(t, n, Black), PaidHeights(t, bh, n), z, null, null, x)
  {
    if x == n {
    } else {
    }
  }

  /** A red or topmost deficient node pays by turning black. */
  lemma FinishErase(t: Shape, bh: Heights, z: Node?, n: Node)
    requires EraseInv(t, bh, z, n)
    requires n == t.Root() || t.mem[n].color == Red
    ensures n in bh
    ensures Linked(Paint(t, n, Black))
    ensures Colored(Paint(t, n, Black), PaidHeights(t, bh, n), z, null, null)
  {
    assert Link(t, n) && Sound(t, bh, z, n, n, n);
    PaintLinked(t, n, Black);
    var t', bh' := Paint(t, n, Black), PaidHeights(t, bh, n);
    forall x | x in t'.mem && x != t'.head ensures Sound(t', bh', z, null, null, x) {
      assert Link(t, x) && Sound(t, bh, z, n, n, x);
      FinishSound(t, bh, z, n, x);
    }
  }
}
