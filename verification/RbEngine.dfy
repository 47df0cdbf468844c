module RbEngine {
  import opened RbLinks
  import opened RbColors
  import opened RbInsert
  import opened RbErase
  import opened RbSplice
  import opened RbReplace

  /** The header's leftmost and rightmost pointers are the same. */
  ghost predicate SameEnds(m: Heap, m': Heap, head: Node)
  {
    head in m && head in m' && m'[head].parent == m[head].parent && m'[head].right == m[head].right
  }

  class RbCore {
    const header: Node
    ghost var cells: set<Node>
    ghost var lab: Labels
    ghost var order: seq<Node>
    ghost var bh: Heights

    constructor ()
      ensures fresh(header) && cells == {header} && order == []
      ensures header.left == null && header.right == null && header.parent == null
    {
      header := new Node.Header();
      lab, order, bh := map[], [], map[];
      new;
      cells := {header};
    }

    ghost function Mem(): Heap
      reads this`cells, cells
    {
      map x | x in cells :: Cell(x.parent, x.left, x.right, x.color)
    }

    ghost function Now(): Shape
      reads this`cells, this`lab, this`order, cells
    {
      Shape(Mem(), lab, order, header)
    }

    ghost method SetHeights(bh': Heights)
      modifies this`bh
      ensures bh == bh' && Now() == old(Now()) && Mem() == old(Mem()) && cells == old(cells) && order == old(order) && lab == old(lab)
    {
      bh := bh';
    }

    ghost method Relabel(lab': Labels)
      modifies this`lab
      ensures lab == lab' && Mem() == old(Mem()) && Now() == old(Now()).(lab := lab')
    {
      lab := lab';
    }

    method SetColor(x: Node, c: Color)
      requires x in cells
      modifies x`color
      ensures x in Now().mem && Now() == Paint(old(Now()), x, c)
    {
      x.color := c;
    }

    /** Puts n where p hangs: in the header for the root, otherwise in the field of p's parent that holds p. */
    method ReplaceChild(p: Node, n: Node)
      requires HangsOnce(Now(), p)
      modifies header`left, p.parent`left, p.parent`right
      ensures Mem() == Relinked(old(Now()), p, n)
    {
      if p == header.left {
        header.left := n;
      } else {
        if p.parent.right == p {
          p.parent.right := n;
        } else {
          p.parent.left := n;
        }
      }
    }

    /** Hangs p below its right child n, and n's left child below p. */
    method SwingLeft(n: Node, p: Node)
      requires n in cells && p in cells && p != n && n.left != p && n.left != n && (n.left != null ==> n.left in cells)
      modifies p, n, n.left
      ensures Mem() == Swung(old(Mem()), n, p, R)
    {
      var tmp := n.left;
      n.parent := p.parent;
      p.parent := n;
      n.left := p;
      if tmp != null {
        tmp.parent := p;
      }
      p.right := tmp;
    }

    method RotateLeft(n: Node, p: Node)
      requires HangsOnce(Now(), p) && Turnable(Now(), n, p, R)
      modifies cells, this`lab
      ensures Now() == Rotate(old(Now()), n, p, R)
    {
      ghost var t := Now();
      RotateInSteps(t, n, p, R);
      TurnLeft(n, p);
      Relabel(RotateLabels(t, n, p, R));
    }

    method TurnLeft(n: Node, p: Node)
      requires HangsOnce(Now(), p) && Turnable(Now(), n, p, R)
      requires Relinked(Now(), p, n)[n] == Now().mem[n] && Relinked(Now(), p, n)[p] == Now().mem[p]
      modifies cells
      ensures Mem() == Swung(Relinked(old(Now()), p, n), n, p, R)
    {
      ghost var t := Now();
      ReplaceChild(p, n);
      assert Mem()[n] == t.mem[n];
      SwingLeft(n, p);
    }

    /** Hangs p below its left child n, and n's right child below p. */
    method SwingRight(n: Node, p: Node)
      requires n in cells && p in cells && p != n && n.right != p && n.right != n && (n.right != null ==> n.right in cells)
      modifies p, n, n.right
      ensures Mem() == Swung(old(Mem()), n, p, L)
    {
      var tmp := n.right;
      n.parent := p.parent;
      p.parent := n;
      n.right := p;
      if tmp != null {
        tmp.parent := p;
      }
      p.left := tmp;
    }

    method RotateRight(n: Node, p: Node)
      requires HangsOnce(Now(), p) && Turnable(Now(), n, p, L)
      modifies cells, this`lab
      ensures Now() == Rotate(old(Now()), n, p, L)
    {
      ghost var t := Now();
      RotateInSteps(t, n, p, L);
      TurnRight(n, p);
      Relabel(RotateLabels(t, n, p, L));
    }

    method TurnRight(n: Node, p: Node)
      requires HangsOnce(Now(), p) && Turnable(Now(), n, p, L)
      requires Relinked(Now(), p, n)[n] == Now().mem[n] && Relinked(Now(), p, n)[p] == Now().mem[p]
      modifies cells
      ensures Mem() == Swung(Relinked(old(Now()), p, n), n, p, L)
    {
      ghost var t := Now();
      ReplaceChild(p, n);
      assert Mem()[n] == t.mem[n];
      SwingRight(n, p);
    }

    /** A red right child and its black parent change places and colours. */
    method LiftLeft(top: Node, base: Node)
      requires Linked(Now()) && Now().Has(base) && base.right == top
      modifies cells, this`lab
      ensures old(Now()).Has(top) && Now() == Lift(old(Now()), top, base, R)
    {
      LiftTurnable(Now(), top, base, R);
      SetColor(top, Black);
      SetColor(base, Red);
      RotateLeft(top, base);
    }

    /** A red left child and its black parent change places and colours. */
    method LiftRight(top: Node, base: Node)
      requires Linked(Now()) && Now().Has(base) && base.left == top
      modifies cells, this`lab
      ensures old(Now()).Has(top) && Now() == Lift(old(Now()), top, base, L)
    {
      LiftTurnable(Now(), top, base, L);
      SetColor(top, Black);
      SetColor(base, Red);
      RotateRight(top, base);
    }

    ghost function Span(x: Node): int
      reads this`lab
    {
      if x in lab then lab[x].hi - lab[x].lo else 0
    }

    method PaintFlip(p: Node, u: Node, g: Node)
      requires p in cells && u in cells && g in cells
      modifies p`color, u`color, g`color
      ensures p in Mem() && u in Mem() && g in Mem() && Now() == Flip(old(Now()), p, u, g)
    {
      SetColor(p, Black);
      SetColor(u, Black);
      SetColor(g, Red);
    }

    /** Red uncle: parent and uncle turn black, the grandparent red. */
    method FlipColors(n: Node, p: Node, u: Node, g: Node)
      requires InsertInv(Now(), bh, n) && RedBelow(Now(), n, p) && p.parent == g && g in cells
      requires u in cells && u != p && u.color == Red && (g.left == u || g.right == u)
      modifies cells, this`bh
      ensures InsertInv(Now(), bh, g) && SameEnds(old(Mem()), Mem(), header)
      ensures g.parent != null && Span(n) < Span(g)
    {
      FlipStep(Now(), bh, n, p, u, g);
      ghost var bh' := FlipHeights(bh, p, u);
      PaintFlip(p, u, g);
      SetHeights(bh');
      assert Link(Now(), g);
    }

    /** Turns the inner grandchild n, a right child of p, into the parent of p. */
    method InnerLeft(n: Node, p: Node, g: Node)
      requires InsertInv(Now(), bh, n) && RedBelow(Now(), n, p) && p.right == n && p.parent == g && g.left == p
      modifies cells, this`lab
      ensures InsertInv(Now(), bh, p) && SameEnds(old(Mem()), Mem(), header)
      ensures RedBelow(Now(), p, n) && n.left == p && n.parent == g && g.left == n && g.right == old(g.right)
      ensures forall x :: x in cells ==> x.color == old(x.color)
    {
      GetTriple(Now(), bh, n, p);
      InnerStep(Now(), bh, n, p, R);
      LinkedTurnable(Now(), n, p, R);
      ghost var t := Now();
      RotateLeft(n, p);
      assert Mem()[g] == RotatedCell(t, n, p, R, g) && Mem()[n] == RotatedCell(t, n, p, R, n);
      assert forall x :: x in cells ==> Mem()[x].color == t.mem[x].color;
    }

    /** Turns the inner grandchild n, a left child of p, into the parent of p. */
    method InnerRight(n: Node, p: Node, g: Node)
      requires InsertInv(Now(), bh, n) && RedBelow(Now(), n, p) && p.left == n && p.parent == g && g.right == p
      modifies cells, this`lab
      ensures InsertInv(Now(), bh, p) && SameEnds(old(Mem()), Mem(), header)
      ensures RedBelow(Now(), p, n) && n.right == p && n.parent == g && g.right == n && g.left == old(g.left)
      ensures forall x :: x in cells ==> x.color == old(x.color)
    {
      GetTriple(Now(), bh, n, p);
      InnerStep(Now(), bh, n, p, L);
      LinkedTurnable(Now(), n, p, L);
      ghost var t := Now();
      RotateRight(n, p);
      assert Mem()[g] == RotatedCell(t, n, p, L, g) && Mem()[n] == RotatedCell(t, n, p, L, n);
      assert forall x :: x in cells ==> Mem()[x].color == t.mem[x].color;
    }

    /** Outer grandchild with a black uncle. */
    method OuterLeft(n: Node, p: Node, g: Node)
      requires InsertInv(Now(), bh, n) && RedBelow(Now(), n, p) && p.left == n && p.parent == g && g.left == p
      requires g in cells && (g.right != null ==> g.right in cells && g.right.color == Black)
      modifies cells, this`lab, this`bh
      ensures InsertInv(Now(), bh, n) && SameEnds(old(Mem()), Mem(), header)
      ensures n.parent == p && p.color == Black
    {
      OuterStep(Now(), bh, n, p, g, L);
      LiftRight(p, g);
      SetHeights(LiftHeights(bh, p, g));
    }

    /** Outer grandchild with a black uncle. */
    method OuterRight(n: Node, p: Node, g: Node)
      requires InsertInv(Now(), bh, n) && RedBelow(Now(), n, p) && p.right == n && p.parent == g && g.right == p
      requires g in cells && (g.left != null ==> g.left in cells && g.left.color == Black)
      modifies cells, this`lab, this`bh
      ensures InsertInv(Now(), bh, n) && SameEnds(old(Mem()), Mem(), header)
      ensures n.parent == p && p.color == Black
    {
      OuterStep(Now(), bh, n, p, g, R);
      LiftLeft(p, g);
      SetHeights(LiftHeights(bh, p, g));
    }

    /** One round of the insertion repair when n's parent is a left child. */
    method InsertBelowLeft(n: Node) returns (n': Node)
      requires InsertInv(Now(), bh, n) && n.parent != null && RedBelow(Now(), n, n.parent)
      requires n.parent.parent != null && n.parent == n.parent.parent.left
      modifies cells, this`lab, this`bh
      ensures InsertInv(Now(), bh, n') && SameEnds(old(Mem()), Mem(), header)
      ensures n'.parent != null && (n'.parent.color == Black || old(Span(n)) < Span(n'))
    {
      var p := n.parent;
      var g := p.parent;
      GetTriple(Now(), bh, n, p);
      var u := g.right;
      if u != null && u.color == Red {
        FlipColors(n, p, u, g);
        n' := g;
      } else {
        n' := n;
        if n == p.right {
          InnerLeft(n, p, g);
          n' := n.left;
          p := n'.parent;
        }
        OuterLeft(n', p, g);
      }
    }

    /** One round of the insertion repair when n's parent is a right child. */
    method InsertBelowRight(n: Node) returns (n': Node)
      requires InsertInv(Now(), bh, n) && n.parent != null && RedBelow(Now(), n, n.parent)
      requires n.parent.parent != null && n.parent == n.parent.parent.right
      modifies cells, this`lab, this`bh
      ensures InsertInv(Now(), bh, n') && SameEnds(old(Mem()), Mem(), header)
      ensures n'.parent != null && (n'.parent.color == Black || old(Span(n)) < Span(n'))
    {
      var p := n.parent;
      var g := p.parent;
      GetTriple(Now(), bh, n, p);
      var u := g.left;
      if u != null && u.color == Red {
        FlipColors(n, p, u, g);
        n' := g;
      } else {
        n' := n;
        if n == p.left {
          InnerRight(n, p, g);
          n' := n.right;
          p := n'.parent;
        }
        OuterRight(n', p, g);
      }
    }

    method InsertRound(n: Node) returns (n': Node)
      requires InsertInv(Now(), bh, n) && n.parent != null && RedBelow(Now(), n, n.parent)
      modifies cells, this`lab, this`bh
      ensures InsertInv(Now(), bh, n') && SameEnds(old(Mem()), Mem(), header)
      ensures n'.parent != null && n'.parent in cells && Span(n') <= |order|
      ensures n'.parent.color == Black || old(Span(n)) < Span(n')
    {
      GetTriple(Now(), bh, n, n.parent);
      if n.parent == n.parent.parent.left {
        n' := InsertBelowLeft(n);
      } else {
        n' := InsertBelowRight(n);
      }
      assert Link(Now(), n');
    }

    /** Once no red parent is left above n, the root turns black. */
    method BlackenRoot(n: Node)
      requires InsertInv(Now(), bh, n)
      requires n == header.left || (n.parent != null && n.parent in cells && n.parent.color == Black)
      modifies cells, this`bh
      ensures Linked(Now()) && Colored(Now(), bh, null, null, null) && SameEnds(old(Mem()), Mem(), header)
    {
      FinishInsert(Now(), bh, n);
      SetHeights(RootHeights(Now(), bh, header.left));
      SetColor(header.left, Black);
    }

    /** Restores the red-black conditions after the red node n0 was linked in. */
    method InsertRepair(n0: Node)
      requires InsertInv(Now(), bh, n0)
      modifies cells, this`lab, this`bh
      ensures Linked(Now()) && Colored(Now(), bh, null, null, null) && SameEnds(old(Mem()), Mem(), header)
    {
      var n := n0;
      assert Link(Now(), n);
      while n != header.left && n.parent.color == Red
        invariant InsertInv(Now(), bh, n) && SameEnds(old(Mem()), Mem(), header)
        invariant n.parent != null && n.parent in cells && Span(n) <= |order|
        decreases if n.parent.color == Red then 1 + |order| - Span(n) else 0
      {
        n := InsertRound(n);
      }
      BlackenRoot(n);
    }

    /** Black nephews: the sibling turns red, and the parent either absorbs the deficit or inherits it. */
    method PullSibling(n: Node, p: Node, s: Node, ghost o: Side, ghost z: Node?) returns (done: bool)
      requires EraseInv(Now(), bh, z, n) && Deficient(Now(), n, p, o) && Now().mem[p].Kid(o) == s && s in cells
      requires BlackNephews(Now(), s)
      modifies cells, this`bh
      ensures SameEnds(old(Mem()), Mem(), header)
      ensures done ==> Linked(Now()) && Colored(Now(), bh, z, null, null) && n.color == Black
      ensures !done ==> EraseInv(Now(), bh, z, p) && Span(n) < Span(p)
    {
      done := p.color == Red;
      if done {
        AbsorbDeficit(n, p, s, o, z);
      } else {
        PassDeficit(n, p, s, o, z);
      }
    }

    method PaintAbsorb(p: Node, s: Node)
      requires p in cells && s in cells
      modifies p`color, s`color
      ensures p in Mem() && s in Mem() && Now() == Paint(Paint(old(Now()), s, Red), p, Black)
    {
      SetColor(s, Red);
      SetColor(p, Black);
    }

    method AbsorbDeficit(n: Node, p: Node, s: Node, ghost o: Side, ghost z: Node?)
      requires EraseInv(Now(), bh, z, n) && Deficient(Now(), n, p, o) && Now().mem[p].Kid(o) == s && s in cells
      requires BlackNephews(Now(), s) && p.color == Red
      modifies cells, this`bh
      ensures SameEnds(old(Mem()), Mem(), header)
      ensures Linked(Now()) && Colored(Now(), bh, z, null, null) && n.color == Black
    {
      AbsorbStep(Now(), bh, z, n, p, s, o);
      SetHeights(bh[s := bh[s] - 1]);
      PaintAbsorb(p, s);
    }

    method PassDeficit(n: Node, p: Node, s: Node, ghost o: Side, ghost z: Node?)
      requires EraseInv(Now(), bh, z, n) && Deficient(Now(), n, p, o) && Now().mem[p].Kid(o) == s && s in cells
      requires BlackNephews(Now(), s) && p.color == Black
      modifies cells, this`bh
      ensures SameEnds(old(Mem()), Mem(), header)
      ensures EraseInv(Now(), bh, z, p) && Span(n) < Span(p)
    {
      PullStep(Now(), bh, z, n, p, s, o);
      SetHeights(bh[s := bh[s] - 1][p := bh[p] - 1]);
      SetColor(s, Red);
    }

    method SettleColors(p: Node, s: Node, f: Node)
      requires p in cells && s in cells && f in cells
      modifies p`color, s`color, f`color
      ensures p in Mem() && s in Mem() && f in Mem()
      ensures Now() == Paint(Paint(Paint(old(Now()), s, old(p.color)), p, Black), f, Black)
    {
      SetColor(s, p.color);
      SetColor(p, Black);
      SetColor(f, Black);
    }

    method RaiseSiblingLeft(n: Node, p: Node, s: Node, ghost z: Node?)
      requires EraseInv(Now(), bh, z, n) && Deficient(Now(), n, p, R) && p.right == s && s in cells && s.color == Red
      modifies cells, this`lab, this`bh
      ensures EraseInv(Now(), bh, z, n) && Deficient(Now(), n, p, R) && SameEnds(old(Mem()), Mem(), header)
      ensures Span(n) == old(Span(n))
      ensures p.right != null ==> p.right in cells && p.right.color == Black
    {
      RedSiblingStep(Now(), bh, z, n, p, s, R);
      LiftLeft(s, p);
      SetHeights(LiftHeights(bh, s, p));
    }

    method RaiseNephewLeft(n: Node, p: Node, s: Node, c: Node, ghost z: Node?)
      requires EraseInv(Now(), bh, z, n) && Deficient(Now(), n, p, R) && p.right == s && s in cells && s.color == Black
      requires s.left == c && c in cells && c.color == Red && (s.right != null ==> s.right in cells && s.right.color == Black)
      modifies cells, this`lab, this`bh
      ensures EraseInv(Now(), bh, z, n) && Deficient(Now(), n, p, R) && SameEnds(old(Mem()), Mem(), header)
      ensures p.right == c && c.color == Black && c.right == s && s.color == Red
    {
      InnerRedStep(Now(), bh, z, n, p, s, c, R);
      LiftRight(c, s);
      SetHeights(LiftHeights(bh, c, s));
    }

    method SettleSiblingLeft(n: Node, p: Node, s: Node, f: Node, ghost z: Node?)
      requires EraseInv(Now(), bh, z, n) && Deficient(Now(), n, p, R) && p.right == s && s in cells && s.color == Black
      requires s.right == f && f in cells && f.color == Red
      modifies cells, this`lab, this`bh
      ensures Linked(Now()) && Colored(Now(), bh, z, null, null) && n.color == Black && SameEnds(old(Mem()), Mem(), header)
    {
      SettleStep(Now(), bh, z, n, p, s, f, R);
      SettleTurnLeft(p, s, f);
      SetHeights(SettleHeights(bh, p, s, f));
    }

    method SettleTurnLeft(p: Node, s: Node, f: Node)
      requires Linked(Now()) && Now().Has(p) && Now().Has(s) && f in cells && Now().mem[p].Kid(R) == s
      modifies cells, this`lab
      ensures Now() == Settle(old(Now()), p, s, f, R)
    {
      SettleTurnable(Now(), p, s, f, R);
      SettleColors(p, s, f);
      RotateLeft(s, p);
    }

    /** One round of the erasure repair when n is a left child; done reports that the loop is left. */
    method EraseRoundLeft(n: Node, p: Node, ghost z: Node?) returns (n': Node, done: bool)
      requires EraseInv(Now(), bh, z, n) && Deficient(Now(), n, p, R)
      modifies cells, this`lab, this`bh
      ensures SameEnds(old(Mem()), Mem(), header)
      ensures done ==> Linked(Now()) && Colored(Now(), bh, z, null, null) && n.color == Black
      ensures !done ==> EraseInv(Now(), bh, z, n') && old(Span(n)) < Span(n')
      ensures done ==> n' == n
    {
      var s := p.right;
      GetFamily(Now(), bh, z, n, p, R);
      if s.color == Red {
        RaiseSiblingLeft(n, p, s, z);
        s := p.right;
        GetFamily(Now(), bh, z, n, p, R);
      }
      done := EraseBlackSiblingLeft(n, p, s, z);
      n' := if done then n else p;
    }

    method EraseBlackSiblingLeft(n: Node, p: Node, s: Node, ghost z: Node?) returns (done: bool)
      requires EraseInv(Now(), bh, z, n) && Deficient(Now(), n, p, R) && p.right == s && s in cells && s.color == Black
      modifies cells, this`lab, this`bh
      ensures SameEnds(old(Mem()), Mem(), header)
      ensures done ==> Linked(Now()) && Colored(Now(), bh, z, null, null) && n.color == Black
      ensures !done ==> EraseInv(Now(), bh, z, p) && old(Span(n)) < Span(p)
    {
      GetFamily(Now(), bh, z, n, p, R);
      var top := s;
      if s.color == Black && (s.left == null || s.left.color == Black) && (s.right == null || s.right.color == Black) {
        done := PullSibling(n, p, s, R, z);
      } else {
        if (s.right == null || s.right.color == Black) && s.left != null && s.left.color == Red {
          RaiseNephewLeft(n, p, s, s.left, z);
          top := p.right;
        }
        SettleSiblingLeft(n, p, top, top.right, z);
        done := true;
      }
    }

    method RaiseSiblingRight(n: Node, p: Node, s: Node, ghost z: Node?)
      requires EraseInv(Now(), bh, z, n) && Deficient(Now(), n, p, L) && p.left == s && s in cells && s.color == Red
      modifies cells, this`lab, this`bh
      ensures EraseInv(Now(), bh, z, n) && Deficient(Now(), n, p, L) && SameEnds(old(Mem()), Mem(), header)
      ensures Span(n) == old(Span(n))
      ensures p.left != null ==> p.left in cells && p.left.color == Black
    {
      RedSiblingStep(Now(), bh, z, n, p, s, L);
      LiftRight(s, p);
      SetHeights(LiftHeights(bh, s, p));
    }

    method RaiseNephewRight(n: Node, p: Node, s: Node, c: Node, ghost z: Node?)
      requires EraseInv(Now(), bh, z, n) && Deficient(Now(), n, p, L) && p.left == s && s in cells && s.color == Black
      requires s.right == c && c in cells && c.color == Red && (s.left != null ==> s.left in cells && s.left.color == Black)
      modifies cells, this`lab, this`bh
      ensures EraseInv(Now(), bh, z, n) && Deficient(Now(), n, p, L) && SameEnds(old(Mem()), Mem(), header)
      ensures p.left == c && c.color == Black && c.left == s && s.color == Red
    {
      InnerRedStep(Now(), bh, z, n, p, s, c, L);
      LiftLeft(c, s);
      SetHeights(LiftHeights(bh, c, s));
    }

    method SettleSiblingRight(n: Node, p: Node, s: Node, f: Node, ghost z: Node?)
      requires EraseInv(Now(), bh, z, n) && Deficient(Now(), n, p, L) && p.left == s && s in cells && s.color == Black
      requires s.left == f && f in cells && f.color == Red
      modifies cells, this`lab, this`bh
      ensures Linked(Now()) && Colored(Now(), bh, z, null, null) && n.color == Black && SameEnds(old(Mem()), Mem(), header)
    {
      SettleStep(Now(), bh, z, n, p, s, f, L);
      SettleTurnRight(p, s, f);
      SetHeights(SettleHeights(bh, p, s, f));
    }

    method SettleTurnRight(p: Node, s: Node, f: Node)
      requires Linked(Now()) && Now().Has(p) && Now().Has(s) && f in cells && Now().mem[p].Kid(L) == s
      modifies cells, this`lab
      ensures Now() == Settle(old(Now()), p, s, f, L)
    {
      SettleTurnable(Now(), p, s, f, L);
      SettleColors(p, s, f);
      RotateRight(s, p);
    }

    /** One round of the erasure repair when n is a right child; done reports that the loop is left. */
    method EraseRoundRight(n: Node, p: Node, ghost z: Node?) returns (n': Node, done: bool)
      requires EraseInv(Now(), bh, z, n) && Deficient(Now(), n, p, L)
      modifies cells, this`lab, this`bh
      ensures SameEnds(old(Mem()), Mem(), header)
      ensures done ==> Linked(Now()) && Colored(Now(), bh, z, null, null) && n.color == Black
      ensures !done ==> EraseInv(Now(), bh, z, n') && old(Span(n)) < Span(n')
      ensures done ==> n' == n
    {
      var s := p.left;
      GetFamily(Now(), bh, z, n, p, L);
      if s.color == Red {
        RaiseSiblingRight(n, p, s, z);
        s := p.left;
        GetFamily(Now(), bh, z, n, p, L);
      }
      done := EraseBlackSiblingRight(n, p, s, z);
      n' := if done then n else p;
    }

    method EraseBlackSiblingRight(n: Node, p: Node, s: Node, ghost z: Node?) returns (done: bool)
      requires EraseInv(Now(), bh, z, n) && Deficient(Now(), n, p, L) && p.left == s && s in cells && s.color == Black
      modifies cells, this`lab, this`bh
      ensures SameEnds(old(Mem()), Mem(), header)
      ensures done ==> Linked(Now()) && Colored(Now(), bh, z, null, null) && n.color == Black
      ensures !done ==> EraseInv(Now(), bh, z, p) && old(Span(n)) < Span(p)
    {
      GetFamily(Now(), bh, z, n, p, L);
      var top := s;
      if s.color == Black && (s.left == null || s.left.color == Black) && (s.right == null || s.right.color == Black) {
        done := PullSibling(n, p, s, L, z);
      } else {
        if (s.left == null || s.left.color == Black) && s.right != null && s.right.color == Red {
          RaiseNephewRight(n, p, s, s.right, z);
          top := p.left;
        }
        SettleSiblingRight(n, p, top, top.left, z);
        done := true;
      }
    }

    /** Pays the black owed to n0; afterwards the black counts agree with the phantom z left out. */
    method EraseRepair(n0: Node, ghost z: Node?)
      requires EraseInv(Now(), bh, z, n0)
      modifies cells, this`lab, this`bh
      ensures Linked(Now()) && Colored(Now(), bh, z, null, null) && SameEnds(old(Mem()), Mem(), header)
    {
      var n, done := n0, false;
      assert Link(Now(), n);
      while !done && n != header.left && n.color == Black
        invariant SameEnds(old(Mem()), Mem(), header)
        invariant done ==> Linked(Now()) && Colored(Now(), bh, z, null, null) && n in cells && n.color == Black
        invariant !done ==> EraseInv(Now(), bh, z, n) && Span(n) <= |order|
        decreases if done then 0 else 1 + |order| - Span(n)
      {
        n, done := EraseRound(n, z);
      }
      PayAtEnd(n, done, z);
    }

    method EraseRound(n: Node, ghost z: Node?) returns (n': Node, done: bool)
      requires EraseInv(Now(), bh, z, n) && n != header.left && n.color == Black
      modifies cells, this`lab, this`bh
      ensures SameEnds(old(Mem()), Mem(), header)
      ensures done ==> Linked(Now()) && Colored(Now(), bh, z, null, null) && n' in cells && n'.color == Black
      ensures !done ==> EraseInv(Now(), bh, z, n') && old(Span(n)) < Span(n') <= |order|
    {
      assert Link(Now(), n);
      if n == n.parent.left {
        n', done := EraseRoundLeft(n, n.parent, z);
      } else {
        n', done := EraseRoundRight(n, n.parent, z);
      }
      if !done { assert Link(Now(), n'); }
    }

    method PayAtEnd(n: Node, done: bool, ghost z: Node?)
      requires done ==> Linked(Now()) && Colored(Now(), bh, z, null, null) && n in cells && n.color == Black
      requires !done ==> EraseInv(Now(), bh, z, n) && (n == header.left || n.color == Red)
      modifies cells, this`bh
      ensures Linked(Now()) && Colored(Now(), bh, z, null, null) && header in cells && SameEnds(old(Mem()), Mem(), header)
    {
      if !done {
        FinishErase(Now(), bh, z, n);
        bh := PaidHeights(Now(), bh, n);
      }
      SetColor(n, Black);
      assert done ==> Mem() == old(Mem());
    }

    /** The header's parent and right fields point at the first and the last node. */
    ghost predicate EndsOk()
      reads this`order, header`parent, header`right
    {
      if order == [] then header.parent == null && header.right == null
      else header.parent == order[0] && header.right == order[|order| - 1]
    }

    /** The node that follows c in order, or the header after the last one. */
    method Increment(c0: Node) returns (c: Node?)
      requires Linked(Now()) && (|order| > 1 ==> EndsOk()) && c0 in cells && c0 != header
      ensures c0 in lab && 0 <= lab[c0].pos < |order| && order[lab[c0].pos] == c0
      ensures c == if lab[c0].pos + 1 < |order| then order[lab[c0].pos + 1] else header
    {
      assert Link(Now(), c0) && Link(Now(), header.left);
      c := c0;
      ghost var k := lab[c0].pos + 1;
      if c.right != null {
        c := c.right;
        assert Link(Now(), c);
        while c.left != null
          invariant c != null && c in cells && c != header && Link(Now(), c) && lab[c].lo == k
          decreases lab[c].hi
        {
          c := c.left;
          assert Link(Now(), c);
        }
      } else {
        if c.parent != null {
          if c.parent.left == c {
            c := c.parent;
            if c != header { assert Link(Now(), c); }
          } else {
            c := ClimbRight(c);
            if c.parent == null {
              return null;
            } else {
              c := c.parent;
              if c != header { assert Link(Now(), c); }
            }
          }
        } else {
          return null;
        }
      }
    }

    /** Climbs while c is a right child. */
    method ClimbRight(c0: Node) returns (c: Node)
      requires Linked(Now()) && EndsOk() && c0 in cells && c0 != header && c0.right == null
      requires c0.parent != null && c0.parent.left != c0
      ensures c in cells && c != header && Link(Now(), c) && c0 in lab && lab[c].hi == lab[c0].pos + 1
      ensures c.parent == header || (c.parent in cells && c.parent.left == c)
    {
      assert Link(Now(), c0);
      assert Link(Now(), order[|order| - 1]);
      c := c0;
      while c.parent != null && c.parent.right == c
        invariant c in cells && c != header && Link(Now(), c) && lab[c].hi == lab[c0].pos + 1
        invariant c.right != null || c.parent.left != c
        decreases |order| - (lab[c].hi - lab[c].lo)
      {
        assert c.parent != header;
        assert Link(Now(), c.parent);
        c := c.parent;
      }
    }

    /**
      The node that precedes c in order, and the last one before the header. The first node has no
      predecessor: from there the climb runs through the header back to the first node itself, and in
      a tree of one node it stops at the header.
     */
    method Decrement(c0: Node) returns (c: Node?)
      requires Linked(Now()) && EndsOk() && c0 in cells
      ensures c0 == header ==> c == if order == [] then null else order[|order| - 1]
      ensures c0 != header ==> c0 in lab && 0 <= lab[c0].pos < |order| && order[lab[c0].pos] == c0
      ensures c0 != header && lab[c0].pos > 0 ==> c == order[lab[c0].pos - 1]
      ensures c0 != header && lab[c0].pos == 0 ==> c == if |order| == 1 then header else c0
    {
      c := c0;
      if c0 != header { assert Link(Now(), c0); }
      if c.left != null {
        c := c.left;
        assert Link(Now(), c);
        ghost var k := if c0 == header then |order| else lab[c0].pos;
        while c.right != null
          invariant c != null && c in cells && c != header && Link(Now(), c) && lab[c].hi == k
          decreases |order| - lab[c].lo
        {
          c := c.right;
          assert Link(Now(), c);
        }
      } else {
        if c.parent != null {
          if c.parent.right == c {
            c := c.parent;
            if c != header { assert Link(Now(), c); }
          } else {
            c := ClimbLeft(c);
            if c.parent == null {
              return null;
            } else {
              c := c.parent;
              if c != header { assert Link(Now(), c); }
            }
          }
        } else {
          return null;
        }
      }
    }

    /** Climbs while c is a left child; only from the first node does that reach the header. */
    method ClimbLeft(c0: Node) returns (c: Node)
      requires Linked(Now()) && EndsOk() && c0 in cells && c0 != header && c0.left == null
      requires c0.parent != null && c0.parent.right != c0
      ensures c0 in lab
      ensures lab[c0].pos == 0 ==> c == header && |order| > 1
      ensures lab[c0].pos > 0 ==>
        c in cells && c != header && Link(Now(), c) && lab[c].lo == lab[c0].pos && c.parent in cells && c.parent != header && c.parent.right == c
    {
      assert Link(Now(), c0) && Link(Now(), order[0]) && Link(Now(), header.left);
      c := c0;
      while c.parent != null && c.parent.left == c
        invariant c == header ==> lab[c0].pos == 0
        invariant c != header ==> c in cells && Link(Now(), c) && lab[c].lo == lab[c0].pos
        decreases if c == header then 0 else 1 + |order| - (lab[c].hi - lab[c].lo)
      {
        if c.parent != header { assert Link(Now(), c.parent); }
        c := c.parent;
      }
      if c != header { assert Link(Now(), c.parent); }
    }

    /** Hangs n, or nothing, in the field of p's parent that holds p. */
    method HangInstead(p: Node, n: Node?)
      requires HangsOnce(Now(), p)
      modifies p.parent
      ensures Mem() == Relinked(old(Now()), p, n)
    {
      if p == p.parent.left {
        p.parent.left := n;
      } else {
        p.parent.right := n;
      }
    }

    method SetParent(x: Node, p: Node?)
      requires x in cells
      modifies x`parent
      ensures x in old(Mem()) && Mem() == old(Mem())[x := old(Mem())[x].(parent := p)]
      ensures Now() == old(Now()).(mem := Mem()) && x.parent == p && x.color == old(x.color)
    {
      x.parent := p;
    }

    /** Hangs x, or nothing, where y hangs. */
    method Bypass(y: Node, x: Node?)
      requires HangsOnce(Now(), y) && (x != null ==> x in cells && x != header && x != y)
      modifies y.parent, x
      ensures Mem() - {y} == map w | w in old(Mem()) && w != y :: PrunedCell(old(Now()), y, x, w)
      ensures y.color == old(y.color)
    {
      ghost var t := Now();
      if x != null {
        BypassChild(t, y, x);
        SetParent(x, y.parent);
      } else {
        BypassLeaf(t, y);
      }
      HangInstead(y, x);
    }

    static lemma BypassChild(t: Shape, y: Node, x: Node)
      requires HangsOnce(t, y) && x in t.mem && x != t.head && x != y
      ensures var t1 := t.(mem := t.mem[x := t.mem[x].(parent := t.mem[y].parent)]);
        HangsOnce(t1, y) && t1.mem[y].color == t.mem[y].color && Relinked(t1, y, x) - {y} == map w | w in t.mem && w != y :: PrunedCell(t, y, x, w)
    {
    }

    static lemma BypassLeaf(t: Shape, y: Node)
      requires HangsOnce(t, y)
      ensures Relinked(t, y, null) - {y} == map w | w in t.mem && w != y :: PrunedCell(t, y, null, w)
    {
    }

    /** Bookkeeping: y is no longer one of the cells. */
    ghost method Forget(y: Node, lab': Labels, order': seq<Node>)
      modifies this`cells, this`lab, this`order
      ensures cells == old(cells) - {y} && Mem() == old(Mem()) - {y} && lab == lab' && order == order'
    {
      cells, lab, order := cells - {y}, lab', order';
    }

    /** Takes y out of the tree; its only child x, if any, moves up. */
    method Detach(y: Node, x: Node?)
      requires HangsOnce(Now(), y) && 0 <= lab[y].pos < |order|
      requires x != null ==> x in cells && x != header && x != y
      modifies this`cells, this`lab, this`order, y.parent, x
      ensures cells == old(cells) - {y} && Now() == Prune(old(Now()), y, x)
      ensures y.color == old(y.color)
    {
      ghost var t' := Prune(Now(), y, x);
      Bypass(y, x);
      Forget(y, t'.lab, t'.order);
    }

    method AdoptKids(z: Node, y: Node)
      requires z in cells && y !in cells && KnowsKids(Now(), z)
      modifies z.left, z.right
      ensures Mem() == Adopted(old(Mem()), header, z, y)
    {
      if z.left != null && z.left != y {
        z.left.parent := y;
      }
      if z.right != null && z.right != y {
        z.right.parent := y;
      }
    }

    ghost method Swap(z: Node, y: Node, lab': Labels, order': seq<Node>)
      requires z in cells && y !in cells
      modifies this`cells, this`lab, this`order
      ensures cells == old(cells) - {z} + {y} && lab == lab' && order == order'
      ensures Mem() == old(Mem())[y := Cell(y.parent, y.left, y.right, y.color)] - {z}
    {
      cells, lab, order := cells - {z} + {y}, lab', order';
    }

    method CopyFields(z: Node, y: Node)
      requires z in cells && y !in cells
      modifies y
      ensures Now() == old(Now()) && Cell(y.parent, y.left, y.right, y.color) == Mem()[z]
    {
      y.left := z.left;
      y.right := z.right;
      y.color := z.color;
      y.parent := z.parent;
    }

    /** Puts y, a node outside the tree, in z's place. */
    method Replace(z: Node, y: Node)
      requires HangsOnce(Now(), z) && KnowsKids(Now(), z) && 0 <= lab[z].pos < |order| && y !in cells
      modifies this`cells, this`lab, this`order, cells, y
      ensures cells == old(cells) - {z} + {y} && Now() == Rename(old(Now()), z, y)
    {
      ghost var t := Now();
      RenameInSteps(t, z, y);
      TakeOver(z, y);
      Swap(z, y, Rename(t, z, y).lab, Rename(t, z, y).order);
    }

    /** replace by a node that already stands in the tree. A leaf right below z leaves its place and takes that of z;
        from any other node no tree is left (RbReplace.ReplaceExact). */
    method ReplaceWithin(z: Node, y: Node)
      requires Linked(Now()) && Now().Has(z) && Now().Has(y) && y != z
      modifies this`cells, this`lab, this`order, cells
      ensures cells == old(cells) - {z} && Wired(old(Mem()), z, y) && Mem() == ReplacedMem(old(Mem()), z, y) - {z}
      ensures LeafChild(old(Now()), z, y) ==>
        && y in old(lab) && 0 <= old(lab)[y].pos < |old(order)|
        && (var t1 := Prune(old(Now()), y, null);
            t1.Has(z) && 0 <= t1.lab[z].pos < |t1.order| && Now() == Rename(t1, z, y) && Linked(Now()))
      ensures !LeafChild(old(Now()), z, y) ==> lab == old(lab) && order == old(order)
    {
      ghost var t := Now();
      LinkedWired(t, z, y);
      ghost var lab', order' := lab, order;
      if LeafChild(t, z, y) {
        LeafTaken(t, z, y);
        LeafCells(t, z, y);
        lab', order' := Rename(Prune(t, y, null), z, y).lab, Rename(Prune(t, y, null), z, y).order;
      }
      TakeWithin(z, y);
      Forget(z, lab', order');
    }

    /** The assignments of replace; the test of the two children comes last. */
    method TakeWithin(z: Node, y: Node)
      requires Wired(Mem(), z, y)
      modifies cells
      ensures Mem() == ReplacedMem(old(Mem()), z, y)
    {
      CopyOnto(z, y);
      HangOn(z, y);
      TurnKid(z, y, true);
      TurnKid(z, y, false);
    }

    method CopyOnto(z: Node, y: Node)
      requires Wired(Mem(), z, y)
      modifies y
      ensures z in old(Mem()) && Mem() == old(Mem())[y := old(Mem())[z]] && Wired(Mem(), z, y)
    {
      y.left := z.left;
      y.right := z.right;
      y.color := z.color;
      y.parent := z.parent;
    }

    method HangOn(z: Node, y: Node)
      requires Wired(Mem(), z, y)
      modifies z.parent
      ensures Mem() == HungMem(old(Mem()), z, y)
    {
      if z.parent.left == z {
        z.parent.left := y;
      } else {
        z.parent.right := y;
      }
    }

    method TurnKid(z: Node, y: Node, isLeft: bool)
      requires Wired(Mem(), z, y)
      modifies z.left, z.right, y
      ensures Mem() == KidMem(old(Mem()), z, y, if isLeft then L else R)
    {
      if isLeft {
        if z.left != null && z.left != y {
          z.left.parent := y;
        } else if z.left == y {
          y.left := null;
        }
      } else {
        if z.right != null && z.right != y {
          z.right.parent := y;
        } else if z.right == y {
          y.right := null;
        }
      }
    }

    method TakeOver(z: Node, y: Node)
      requires HangsOnce(Now(), z) && KnowsKids(Now(), z) && y !in cells
      modifies cells, y
      ensures Mem() == Adopted(Relinked(old(Now()), z, y), header, z, y) && Cell(y.parent, y.left, y.right, y.color) == old(Mem())[z]
    {
      CopyFields(z, y);
      HangInstead(z, y);
      AdoptKids(z, y);
    }

    ghost method Join(n: Node, lab': Labels, order': seq<Node>)
      requires n !in cells
      modifies this`cells, this`lab, this`order
      ensures cells == old(cells) + {n} && lab == lab' && order == order'
      ensures Mem() == old(Mem())[n := Cell(n.parent, n.left, n.right, n.color)]
    {
      cells, lab, order := cells + {n}, lab', order';
    }

    /** Hangs the new red leaf n on the free side of p. */
    method Hang(n: Node, p: Node, isLeft: bool)
      requires Now().Has(p) && n !in cells && n.left == null && n.right == null && n.color == Red
      requires 0 <= Slot(Now(), p, if isLeft then L else R) <= |order|
      modifies this`cells, this`lab, this`order, n, p
      ensures cells == old(cells) + {n} && Now() == Grow(old(Now()), n, p, if isLeft then L else R)
    {
      ghost var t' := Grow(Now(), n, p, if isLeft then L else R);
      n.parent := p;
      if isLeft {
        p.left := n;
      } else {
        p.right := n;
      }
      Join(n, t'.lab, t'.order);
    }

    /** Makes the red leaf n the root of an empty tree. */
    method SetRoot(n: Node)
      requires header in cells && n !in cells && n.left == null && n.right == null && n.color == Red
      modifies this`cells, this`lab, this`order, n, header
      ensures cells == old(cells) + {n} && Now() == GrowRoot(old(Now()), n)
    {
      ghost var t' := GrowRoot(Now(), n);
      header.left := n;
      n.parent := header;
      Join(n, t'.lab, t'.order);
    }

    method SetFirst(n: Node?)
      requires header in cells
      modifies header`parent
      ensures header in Mem() && Now() == WithEnds(old(Now()), if n == header then null else n, old(header.right))
      ensures bh == old(bh) && cells == old(cells) && order == old(order) && lab == old(lab)
      ensures header.parent == (if n == header then null else n) && header.right == old(header.right)
    {
      header.parent := if n == header then null else n;
    }

    method SetLast(n: Node?)
      requires header in cells
      modifies header`right
      ensures header in Mem() && Now() == WithEnds(old(Now()), old(header.parent), if n == header then null else n)
      ensures bh == old(bh) && cells == old(cells) && order == old(order) && lab == old(lab)
      ensures header.parent == old(header.parent)
    {
      header.right := if n == header then null else n;
    }
  }
}
