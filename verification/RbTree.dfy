module RbTrees {
  import opened Common
  import opened RbLinks
  import opened RbColors
  import opened RbInsert
  import opened RbErase
  import opened RbSplice
  import opened RbEngine

  ghost predicate StrictWeakOrder(lt: (Key, Key) -> bool)
  {
    && (forall a :: !lt(a, a))
    && (forall a, b, c :: lt(a, b) && lt(b, c) ==> lt(a, c))
    && (forall a, b, c :: !lt(a, b) && !lt(b, c) ==> !lt(a, c))
  }

  predicate Same(lt: (Key, Key) -> bool, a: Key, b: Key) { !lt(a, b) && !lt(b, a) }

  /** Every key comes strictly before all later ones. */
  ghost predicate Ascending(lt: (Key, Key) -> bool, s: seq<Node>)
  {
    forall i, j :: 0 <= i < j < |s| ==> lt(s[i].key, s[j].key)
  }

  /** Key k belongs between s[..i] and s[i..]. */
  ghost predicate Fits(lt: (Key, Key) -> bool, s: seq<Node>, i: int, k: Key)
  {
    && 0 <= i <= |s|
    && (forall j :: 0 <= j < i ==> lt(s[j].key, k))
    && (forall j :: i <= j < |s| ==> lt(k, s[j].key))
  }

  lemma FitsAscending(lt: (Key, Key) -> bool, s: seq<Node>, i: int, n: Node)
    requires Ascending(lt, s) && Fits(lt, s, i, n.key)
    ensures Ascending(lt, s[..i] + [n] + s[i..])
  {
  }

  lemma WithoutAscending(lt: (Key, Key) -> bool, s: seq<Node>, i: int)
    requires Ascending(lt, s) && 0 <= i < |s|
    ensures Ascending(lt, Without(s, i))
  {
  }

  class RbTree {
    const core: RbCore
    const lt: (Key, Key) -> bool
    var size: nat

    ghost predicate RedBlack()
      reads core, core.cells
    {
      Linked(core.Now()) && Colored(core.Now(), core.bh, null, null, null)
    }

    ghost predicate Valid()
      reads this, core, core.cells
    {
      RedBlack() && core.EndsOk() && size == |core.order| && StrictWeakOrder(lt) && Ascending(lt, core.order)
    }

    constructor (lt: (Key, Key) -> bool)
      requires StrictWeakOrder(lt)
      ensures Valid() && this.lt == lt && core.order == [] && fresh(core) && fresh(core.cells) && core.cells == {core.header}
    {
      core := new RbCore();
      this.lt := lt;
      size := 0;
    }

    /** Keeps the header's first and last pointers right for a new child n of parent. */
    method ExtendEnds(n: Node, parent: Node, isLeft: bool)
      requires core.header in core.cells && core.EndsOk() && core.order != [] && n != core.header
      modifies core.header
      ensures core.Now() == WithEnds(old(core.Now()), core.header.parent, core.header.right)
      ensures core.header.parent == if isLeft && parent == core.order[0] then n else core.order[0]
      ensures core.header.right == if !isLeft && parent == core.order[|core.order| - 1] then n else core.order[|core.order| - 1]
      ensures core.bh == old(core.bh) && core.cells == old(core.cells) && core.order == old(core.order) && core.lab == old(core.lab)
      ensures size == old(size) && n.left == old(n.left) && n.right == old(n.right) && n.color == old(n.color)
    {
      if isLeft {
        if parent == core.header.parent {
          core.SetFirst(n);
        }
      } else {
        if parent == core.header.right {
          core.SetLast(n);
        }
      }
    }

    lemma NewEnds(t: Shape, n: Node, p: Node, s: Side, first: Node?, last: Node?)
      requires Linked(t) && t.Has(p) && t.order != []
      requires first == (if s == L && p == t.order[0] then n else t.order[0])
      requires last == (if s == R && p == t.order[|t.order| - 1] then n else t.order[|t.order| - 1])
      ensures 0 <= Slot(t, p, s) <= |t.order| && WithEnds(t, first, last).Has(p)
      ensures var o := Grow(WithEnds(t, first, last), n, p, s).order; o != [] && first == o[0] && last == o[|o| - 1]
    {
      GrowEnds(t, n, p, s);
    }

    /** The header's ends, ready for the new leaf. */
    method PrepareBelow(n: Node, parent: Node, isLeft: bool)
      requires RedBlack() && core.EndsOk() && n !in core.cells && n != core.header
      requires parent in core.cells && parent != core.header && (if isLeft then parent.left else parent.right) == null
      modifies core.header
      ensures core.Now() == WithEnds(old(core.Now()), core.header.parent, core.header.right)
      ensures core.cells == old(core.cells) && core.order == old(core.order)
      ensures var t, s, first, last := old(core.Now()), if isLeft then L else R, core.header.parent, core.header.right;
        && t.Has(parent) && 0 <= Slot(t, parent, s) <= |t.order| && InsertInv(Grow(WithEnds(t, first, last), n, parent, s), core.bh[n := 0], n)
        && var o := Grow(WithEnds(t, first, last), n, parent, s).order; o != [] && first == o[0] && last == o[|o| - 1] && o == Grow(t, n, parent, s).order
      ensures size == old(size) && n.left == old(n.left) && n.right == old(n.right) && n.color == old(n.color)
    {
      ghost var t, s := core.Now(), if isLeft then L else R;
      assert Link(t, parent);
      ExtendEnds(n, parent, isLeft);
      NewEnds(t, n, parent, s, core.header.parent, core.header.right);
      GrowBelowEnds(t, core.bh, n, parent, s, core.header.parent, core.header.right);
    }

    method LinkBelow(n: Node, parent: Node, isLeft: bool)
      requires RedBlack() && core.EndsOk()
      requires n !in core.cells && n.left == null && n.right == null && n.color == Red && n != core.header
      requires parent in core.cells && parent != core.header && (if isLeft then parent.left else parent.right) == null
      modifies core, core.cells, n
      ensures InsertInv(core.Now(), core.bh, n) && core.EndsOk() && core.cells == old(core.cells) + {n}
      ensures parent in old(core.lab) && var k := Slot(old(core.Now()), parent, if isLeft then L else R);
        0 <= k <= |old(core.order)| && core.order == old(core.order)[..k] + [n] + old(core.order)[k..]
      ensures size == old(size)
    {
      ghost var t := core.Now();
      PrepareBelow(n, parent, isLeft);
      HangBelow(n, parent, isLeft, t, core.header.parent, core.header.right);
    }

    method HangBelow(n: Node, parent: Node, isLeft: bool, ghost t: Shape, ghost first: Node?, ghost last: Node?)
      requires n !in core.cells && n.left == null && n.right == null && n.color == Red && n != core.header
      requires parent in core.cells && parent != core.header
      requires t.head in t.mem && t.Has(parent) && core.Now() == WithEnds(t, first, last)
      requires var s := if isLeft then L else R;
        0 <= Slot(t, parent, s) <= |t.order| && InsertInv(Grow(WithEnds(t, first, last), n, parent, s), core.bh[n := 0], n)
      requires var o := Grow(WithEnds(t, first, last), n, parent, if isLeft then L else R).order; o != [] && first == o[0] && last == o[|o| - 1]
      requires core.header.parent == first && core.header.right == last
      modifies core, parent, n
      ensures InsertInv(core.Now(), core.bh, n) && core.cells == old(core.cells) + {n} && core.EndsOk()
      ensures core.order == Grow(WithEnds(t, first, last), n, parent, if isLeft then L else R).order
      ensures size == old(size) && core.header.parent == old(core.header.parent) && core.header.right == old(core.header.right)
    {
      core.SetHeights(core.bh[n := 0]);
      core.Hang(n, parent, isLeft);
    }

    method LinkAsRoot(n: Node)
      requires RedBlack() && core.order == []
      requires n !in core.cells && n.left == null && n.right == null && n.color == Red && n != core.header
      modifies core, core.cells, n
      ensures InsertInv(core.Now(), core.bh, n) && core.EndsOk() && core.cells == old(core.cells) + {n}
      ensures core.order == [n]
      ensures size == old(size)
    {
      ghost var t := core.Now();
      core.SetFirst(n);
      core.SetLast(n);
      EndsLinked(t, n, n);
      assert core.Now() == WithEnds(t, n, n);
      GrowRootInsertInv(core.Now(), core.bh, n);
      core.SetHeights(core.bh[n := 0]);
      core.SetRoot(n);
    }

    method SetSize(k: nat)
      modifies this`size
      ensures size == k && core.Now() == old(core.Now()) && core.order == old(core.order) && core.cells == old(core.cells)
      ensures old(RedBlack()) ==> RedBlack()
      ensures old(core.EndsOk()) ==> core.EndsOk()
    {
      size := k;
    }

    /** Links n below parent, or as the root. */
    method LinkNode(n: Node, parent: Node?, isLeft: bool)
      requires RedBlack() && core.EndsOk()
      requires n !in core.cells && n.left == null && n.right == null && n.color == Red && n != core.header
      requires parent == null <==> core.order == []
      requires parent != null ==>
        parent in core.cells && parent != core.header && (if isLeft then parent.left else parent.right) == null
      modifies core, core.cells, n
      ensures InsertInv(core.Now(), core.bh, n) && core.EndsOk() && core.cells == old(core.cells) + {n}
      ensures size == old(size) && |core.order| == |old(core.order)| + 1
      ensures parent == null ==> core.order == [n]
      ensures parent != null ==> parent in old(core.lab) && var k := Slot(old(core.Now()), parent, if isLeft then L else R);
        0 <= k <= |old(core.order)| && core.order == old(core.order)[..k] + [n] + old(core.order)[k..]
    {
      if parent != null {
        LinkBelow(n, parent, isLeft);
      } else {
        LinkAsRoot(n);
      }
    }

    method Rebalance(n: Node)
      requires InsertInv(core.Now(), core.bh, n) && core.EndsOk()
      modifies core, core.cells
      ensures RedBlack() && core.EndsOk() && core.cells == old(core.cells) && core.order == old(core.order) && size == old(size)
    {
      core.InsertRepair(n);
    }

    /** Links n below parent, or as the root, then rebalances. */
    method MakeInsert(n: Node, parent: Node?, isLeft: bool)
      requires RedBlack() && core.EndsOk() && size == |core.order|
      requires n !in core.cells && n.left == null && n.right == null && n.color == Red && n != core.header
      requires parent == null <==> core.order == []
      requires parent != null ==>
        parent in core.cells && parent != core.header && (if isLeft then parent.left else parent.right) == null
      modifies this`size, core, core.cells, n
      ensures RedBlack() && core.EndsOk() && size == |core.order| && core.cells == old(core.cells) + {n}
      ensures parent == null ==> core.order == [n]
      ensures parent != null ==> parent in old(core.lab) && var k := Slot(old(core.Now()), parent, if isLeft then L else R);
        0 <= k <= |old(core.order)| && core.order == old(core.order)[..k] + [n] + old(core.order)[k..]
    {
      LinkNode(n, parent, isLeft);
      Rebalance(n);
      SetSize(size + 1);
    }

    method ShrinkLast(z: Node)
      requires Linked(core.Now()) && core.EndsOk() && z in core.cells && z != core.header
      modifies core.header`right
      ensures core.order != [] && core.Now() == WithEnds(old(core.Now()), core.header.parent, core.header.right)
      ensures var o := core.order;
        core.header.right == if z != o[|o| - 1] then o[|o| - 1] else if |o| == 1 then null else o[|o| - 2]
      ensures core.bh == old(core.bh) && core.cells == old(core.cells) && core.order == old(core.order) && core.lab == old(core.lab)
      ensures core.header.parent == old(core.header.parent)
    {
      assert Link(core.Now(), z) && Link(core.Now(), core.order[|core.order| - 1]);
      if z == core.header.right {
        if z == core.header.parent {
          core.SetLast(null);
        } else {
          var d := core.Decrement(z);
          core.SetLast(d);
        }
      }
    }

    method ShrinkFirst(z: Node)
      requires Linked(core.Now()) && core.order != [] && core.header.parent == core.order[0] && z in core.cells && z != core.header
      requires |core.order| > 1 && z == core.order[0] ==> core.EndsOk()
      modifies core.header`parent
      ensures core.Now() == WithEnds(old(core.Now()), core.header.parent, core.header.right)
      ensures var o := core.order;
        core.header.parent == if z != o[0] then o[0] else if |o| == 1 then null else o[1]
      ensures core.bh == old(core.bh) && core.cells == old(core.cells) && core.order == old(core.order) && core.lab == old(core.lab)
      ensures core.header.right == old(core.header.right)
    {
      assert Link(core.Now(), z);
      if z == core.header.parent {
        var i := core.Increment(z);
        core.SetFirst(i);
      }
    }

    method ShrinkBoth(z: Node)
      requires Linked(core.Now()) && core.EndsOk() && z in core.cells && z != core.header
      modifies core.header
      ensures core.order != [] && core.Now() == WithEnds(old(core.Now()), core.header.parent, core.header.right)
      ensures core.bh == old(core.bh) && core.cells == old(core.cells) && core.order == old(core.order) && core.lab == old(core.lab)
      ensures var o := core.order;
        && core.header.right == (if z != o[|o| - 1] then o[|o| - 1] else if |o| == 1 then null else o[|o| - 2])
        && core.header.parent == if z != o[0] then o[0] else if |o| == 1 then null else o[1]
    {
      ghost var t := core.Now();
      ShrinkLast(z);
      EndsLinked(t, core.header.parent, core.header.right);
      ShrinkFirst(z);
    }

    lemma WithoutEnds(t: Shape, z: Node)
      requires Linked(t) && t.Has(z)
      ensures 0 <= t.lab[z].pos < |t.order| && t.order[t.lab[z].pos] == z
      ensures var o, r := t.order, Without(t.order, t.lab[z].pos);
        && (r != [] ==> r[0] == if z != o[0] then o[0] else o[1])
        && (r != [] ==> r[|r| - 1] == if z != o[|o| - 1] then o[|o| - 1] else o[|o| - 2])
        && (r == [] <==> |o| == 1) && (|o| == 1 ==> z == o[0])
    {
      assert Link(t, z);
    }

    /** Before a node with a free side goes, the header's first and last pointers move off it. */
    method ShrinkEnds(z: Node)
      requires RedBlack() && core.EndsOk() && z in core.cells && z != core.header
      modifies core.header
      ensures RedBlack()
      ensures z in core.lab && 0 <= core.lab[z].pos < |core.order|
      ensures core.Now() == WithEnds(old(core.Now()), core.header.parent, core.header.right)
      ensures EndsOf(Without(core.order, core.lab[z].pos))
      ensures core.bh == old(core.bh) && core.cells == old(core.cells) && core.order == old(core.order) && core.lab == old(core.lab)
    {
      ghost var t := core.Now();
      assert Link(t, z);
      WithoutEnds(t, z);
      ShrinkBoth(z);
      EndsLinked(t, core.header.parent, core.header.right);
      EndsColored(t, core.bh, core.header.parent, core.header.right);
    }

    /** The header points at the first and the last element of o. */
    ghost predicate EndsOf(o: seq<Node>)
      reads core.header`parent, core.header`right
    {
      if o == [] then core.header.parent == null && core.header.right == null
      else core.header.parent == o[0] && core.header.right == o[|o| - 1]
    }

    method DropPhantom(y: Node)
      requires Linked(core.Now()) && Colored(core.Now(), core.bh, y, null, null) && y != core.header
      modifies core`cells, core`lab, core`order, core.cells
      ensures RedBlack() && core.cells == old(core.cells) - {y} && SameEnds(old(core.Mem()), core.Mem(), core.header)
      ensures y in old(core.lab) && 0 <= old(core.lab)[y].pos < |old(core.order)|
      ensures core.order == Without(old(core.order), old(core.lab)[y].pos) && y !in core.lab
    {
      PrunePhantom(core.Now(), core.bh, y);
      LinkedKnowsKids(core.Now(), y);
      core.Detach(y, null);
    }

    method DropRedLeaf(y: Node)
      requires RedBlack() && y in core.cells && y != core.header && y.left == null && y.right == null && y.color == Red
      modifies core`cells, core`lab, core`order, core.cells
      ensures RedBlack() && core.cells == old(core.cells) - {y} && SameEnds(old(core.Mem()), core.Mem(), core.header)
      ensures y in old(core.lab) && 0 <= old(core.lab)[y].pos < |old(core.order)|
      ensures core.order == Without(old(core.order), old(core.lab)[y].pos) && y !in core.lab
    {
      PruneRedLeaf(core.Now(), core.bh, y);
      LinkedKnowsKids(core.Now(), y);
      core.Detach(y, null);
    }

    /** Takes the leaf y out, rebalancing first when it is black. */
    method RemoveLeaf(y: Node)
      requires RedBlack() && y in core.cells && y != core.header && y.left == null && y.right == null
      modifies core, core.cells
      ensures RedBlack() && core.cells == old(core.cells) - {y} && SameEnds(old(core.Mem()), core.Mem(), core.header)
      ensures y in old(core.lab) && 0 <= old(core.lab)[y].pos < |old(core.order)|
      ensures core.order == Without(old(core.order), old(core.lab)[y].pos) && y !in core.lab
    {
      assert Link(core.Now(), y);
      if y.color == Black {
        StartPhantom(core.Now(), core.bh, y);
        core.SetHeights(core.bh[y := 0]);
        ghost var i := core.lab[y].pos;
        core.EraseRepair(y, y);
        assert core.order[i] == y;
        DropPhantom(y);
      } else {
        DropRedLeaf(y);
      }
    }

    /** The last node before z, for a z with a left subtree. */
    method LastBelow(z: Node) returns (y: Node)
      requires Linked(core.Now()) && z in core.cells && z != core.header && z.left != null
      ensures y in core.cells && y != core.header && y != z && y.right == null
      ensures z in core.lab && y in core.lab && core.lab[y].pos == core.lab[z].pos - 1
    {
      assert Link(core.Now(), z);
      y := z.left;
      assert Link(core.Now(), y);
      while y.right != null
        invariant y in core.cells && y != core.header && Link(core.Now(), y) && core.lab[y].hi == core.lab[z].pos
        decreases |core.order| - core.lab[y].lo
      {
        y := y.right;
        assert Link(core.Now(), y);
      }
    }

    /** Puts y, taken out before, in z's place. */
    method StandIn(z: Node, y: Node, ghost d: Node?)
      requires Linked(core.Now()) && Colored(core.Now(), core.bh, null, d, d) && z in core.cells && z != core.header
      requires y !in core.cells && y !in core.lab && y != core.header && d != z && d != y && (d != null ==> core.Now().Has(d))
      modifies core, core.cells, y
      ensures Linked(core.Now()) && Colored(core.Now(), core.bh, null, d, d)
      ensures core.cells == old(core.cells) - {z} + {y} && y.color == old(z.color)
      ensures d != null ==> core.Now().Has(d) && d.color == old(d.color)
      ensures SameEnds(old(core.Mem()), core.Mem(), core.header)
      ensures z in old(core.lab) && 0 <= old(core.lab)[z].pos < |old(core.order)|
      ensures core.order == old(core.order)[old(core.lab)[z].pos := y]
    {
      ghost var t := core.Now();
      RenameLinked(t, z, y);
      RenameColored(t, core.bh, d, z, y);
      LinkedKnowsKids(t, z);
      RenameKeeps(t, z, y, d);
      core.SetHeights(RenameHeights(core.bh, z, y));
      core.Replace(z, y);
    }

    lemma SpliceFacts(y: Node, x: Node)
      requires RedBlack() && y in core.cells && y != core.header
      requires (y.left == x && y.right == null) || (y.left == null && y.right == x)
      ensures x in core.cells && x != core.header && x != y && core.Now().Has(y) && 0 <= core.lab[y].pos < |core.order|
      ensures HangsOnce(core.Now(), y)
      ensures var t' := Prune(core.Now(), y, x);
        && EraseInv(t', core.bh, null, x) && t'.mem[x].color == Red && SameEnds(core.Mem(), t'.mem, core.header)
        && y !in t'.lab && t'.order == Without(core.order, core.lab[y].pos)
    {
      var t := core.Now();
      assert Link(t, y) && Link(t, x);
      PruneAboveChild(t, core.bh, y, x);
      LinkedKnowsKids(t, y);
      PruneEnds(t, y, x);
    }

    /** Splices out y, whose only child is x; x is then red and owed one black. */
    method SpliceOut(y: Node, x: Node)
      requires RedBlack() && y in core.cells && y != core.header
      requires (y.left == x && y.right == null) || (y.left == null && y.right == x)
      modifies core, core.cells
      ensures EraseInv(core.Now(), core.bh, null, x) && x.color == Red && y.color == old(y.color)
      ensures core.cells == old(core.cells) - {y} && SameEnds(old(core.Mem()), core.Mem(), core.header)
      ensures y in old(core.lab) && 0 <= old(core.lab)[y].pos < |old(core.order)|
      ensures core.order == Without(old(core.order), old(core.lab)[y].pos) && y !in core.lab
    {
      SpliceFacts(y, x);
      core.Detach(y, x);
    }

    /** Pays the black owed to the red node x. */
    method PayRed(x: Node)
      requires EraseInv(core.Now(), core.bh, null, x) && x.color == Red
      modifies core`bh, core.cells
      ensures RedBlack() && SameEnds(old(core.Mem()), core.Mem(), core.header)
    {
      FinishErase(core.Now(), core.bh, null, x);
      core.SetHeights(PaidHeights(core.Now(), core.bh, x));
      core.SetColor(x, Black);
    }

    /** y is z itself, or the node just before it. */
    ghost predicate Victim(z: Node, y: Node)
      reads core
    {
      && z in core.cells && z != core.header && y in core.cells && y != core.header && z in core.lab && y in core.lab
      && 0 <= core.lab[z].pos < |core.order| && core.order[core.lab[z].pos] == z
      && (y == z || 0 <= core.lab[y].pos == core.lab[z].pos - 1)
    }

    method EraseLeaf(z: Node, y: Node)
      requires RedBlack() && Victim(z, y) && y.left == null && y.right == null
      modifies core, core.cells
      ensures RedBlack() && core.cells == old(core.cells) - {z} && SameEnds(old(core.Mem()), core.Mem(), core.header)
      ensures core.order == Without(old(core.order), old(core.lab)[z].pos)
    {
      ghost var o, i := core.order, core.lab[z].pos;
      VictimIn(z, y);
      RemoveLeaf(y);
      if y != z {
        VictimOut(o, z, y, i);
        StandIn(z, y, null);
      }
    }

    /** Where the victim and z are once the victim is out. */
    lemma VictimOut(o: seq<Node>, z: Node, y: Node, i: int)
      requires Linked(core.Now()) && 0 < i < |o| && o[i] == z && o[i - 1] == y && core.order == Without(o, i - 1)
      ensures z in core.lab && core.lab[z].pos == i - 1 && core.order[i - 1 := y] == Without(o, i)
    {
      assert core.order[i - 1] == z;
      WithoutThenPut(o, i);
    }

    lemma VictimIn(z: Node, y: Node)
      requires Linked(core.Now()) && Victim(z, y)
      ensures core.order[core.lab[y].pos] == y
    {
      assert Link(core.Now(), y);
    }

    /** Splices out y and puts it, if it is not z itself, in z's place. */
    method MoveUp(z: Node, y: Node, x: Node)
      requires RedBlack() && Victim(z, y) && (y != z ==> y.right == null)
      requires (y.left == x && y.right == null) || (y.left == null && y.right == x)
      modifies core, core.cells
      ensures EraseInv(core.Now(), core.bh, null, x) && x.color == Red
      ensures core.cells == old(core.cells) - {z} && SameEnds(old(core.Mem()), core.Mem(), core.header)
      ensures core.order == Without(old(core.order), old(core.lab)[z].pos)
    {
      ghost var o, i := core.order, core.lab[z].pos;
      assert x != z by {
        assert Link(core.Now(), y) && Link(core.Now(), x);
      }
      VictimIn(z, y);
      SpliceOut(y, x);
      if y != z {
        VictimOut(o, z, y, i);
        StandIn(z, y, x);
      } else {
        y.color := Red;
      }
    }

    method EraseAbove(z: Node, y: Node, x: Node)
      requires RedBlack() && Victim(z, y) && (y != z ==> y.right == null)
      requires (y.left == x && y.right == null) || (y.left == null && y.right == x)
      modifies core, core.cells
      ensures RedBlack() && core.cells == old(core.cells) - {z} && SameEnds(old(core.Mem()), core.Mem(), core.header)
      ensures core.order == Without(old(core.order), old(core.lab)[z].pos)
    {
      MoveUp(z, y, x);
      PayOwed(y, x);
    }

    /** The child that moved up is repaired; it is red, so either branch only turns it black. */
    method PayOwed(y: Node, x: Node)
      requires EraseInv(core.Now(), core.bh, null, x) && x.color == Red
      modifies core`bh, core`lab, core.cells
      ensures RedBlack() && SameEnds(old(core.Mem()), core.Mem(), core.header)
    {
      if y.color == Black {
        core.EraseRepair(x, null);
      } else {
        PayRed(x);
      }
    }

    /** Chooses the node that leaves its place: z, or the node before it when z has two children. */
    method PickVictim(z: Node) returns (y: Node)
      requires RedBlack() && core.EndsOk() && z in core.cells && z != core.header
      modifies core.header
      ensures RedBlack() && Victim(z, y)
      ensures EndsOf(Without(core.order, core.lab[z].pos))
      ensures y == z ==> y.left == null || y.right == null
      ensures y != z ==> y.right == null
    {
      y := z;
      ghost var t := core.Now();
      assert Link(t, z);
      if z.left == null || z.right == null {
        ShrinkEnds(z);
      } else {
        y := LastBelow(z);
        assert Link(t, y) && Link(t, z.left) && Link(t, z.right);
      }
    }

    method EraseVictim(z: Node, y: Node)
      requires RedBlack() && Victim(z, y) && (y == z ==> y.left == null || y.right == null) && (y != z ==> y.right == null)
      modifies core, core.cells
      ensures RedBlack() && core.cells == old(core.cells) - {z} && SameEnds(old(core.Mem()), core.Mem(), core.header)
      ensures core.order == Without(old(core.order), old(core.lab)[z].pos)
      ensures core.header.parent == old(core.header.parent) && core.header.right == old(core.header.right)
    {
      assert Link(core.Now(), y);
      var x := if y.left != null then y.left else y.right;
      if x == null {
        EraseLeaf(z, y);
      } else {
        EraseAbove(z, y, x);
      }
    }

    method Unlink(z: Node)
      requires RedBlack() && core.EndsOk() && z in core.cells && z != core.header
      modifies core, core.cells
      ensures RedBlack() && core.EndsOk() && core.cells == old(core.cells) - {z}
      ensures z in old(core.lab) && var i := old(core.lab)[z].pos;
        0 <= i < |old(core.order)| && old(core.order)[i] == z && core.order == Without(old(core.order), i)
    {
      var y := PickVictim(z);
      EraseVictim(z, y);
    }

    /** Removes node z: the others keep their order, and the tree stays red-black. */
    method DeleteNode(z: Node)
      requires Valid() && z in core.cells && z != core.header
      modifies this`size, core, core.cells
      ensures Valid() && core.cells == old(core.cells) - {z}
      ensures z in old(core.lab) && var i := old(core.lab)[z].pos;
        0 <= i < |old(core.order)| && old(core.order)[i] == z && core.order == Without(old(core.order), i)
    {
      ghost var o, lab := core.order, core.lab;
      Unlink(z);
      WithoutAscending(lt, o, lab[z].pos);
      size := size - 1;
    }

    /** Everything before lo is smaller than k, and everything from hi on is greater. */
    ghost predicate Narrowed(k: Key, lo: int, hi: int)
      reads core
    {
      && 0 <= lo <= hi <= |core.order|
      && (forall j :: 0 <= j < lo ==> lt(core.order[j].key, k))
      && (forall j :: hi <= j < |core.order| ==> lt(k, core.order[j].key))
    }

    lemma NarrowLeft(k: Key, lo: int, hi: int, i: int)
      requires StrictWeakOrder(lt) && Ascending(lt, core.order) && Narrowed(k, lo, hi)
      requires lo <= i < hi && lt(k, core.order[i].key)
      ensures Narrowed(k, lo, i)
    {
    }

    lemma NarrowRight(k: Key, lo: int, hi: int, i: int)
      requires StrictWeakOrder(lt) && Ascending(lt, core.order) && Narrowed(k, lo, hi)
      requires lo <= i < hi && lt(core.order[i].key, k)
      ensures Narrowed(k, i + 1, hi)
    {
    }

    /** A place where k can hang: below parent, on its free side, with smaller keys before and greater after. */
    ghost predicate Place(k: Key, parent: Node, isLeft: bool)
      reads core, core.cells, parent
    {
      && core.Now().Has(parent) && (if isLeft then parent.left else parent.right) == null
      && Fits(lt, core.order, Slot(core.Now(), parent, if isLeft then L else R), k)
    }

    /** The search has come down to current, whose subtree spans lo to hi, or to a free place below parent. */
    ghost predicate Searching(k: Key, current: Node?, parent: Node?, isLeft: bool, lo: int, hi: int)
      reads core, core.cells, parent
    {
      && Narrowed(k, lo, hi) && core.header in core.cells
      && (current != null ==>
            && current in core.cells && current != core.header && Link(core.Now(), current)
            && core.lab[current].lo == lo && core.lab[current].hi == hi)
      && (current == null ==> parent != null && lo == hi && core.Now().Has(parent) && (if isLeft then parent.left else parent.right) == null
                              && Slot(core.Now(), parent, if isLeft then L else R) == lo)
    }

    lemma DownLeft(k: Key, c: Node)
      requires Linked(core.Now()) && Link(core.Now(), c) && c in core.cells && Narrowed(k, core.lab[c].lo, core.lab[c].pos)
      ensures Searching(k, c.left, c, true, core.lab[c].lo, core.lab[c].pos)
    {
      if c.left != null { assert Link(core.Now(), c.left); }
    }

    lemma DownRight(k: Key, c: Node)
      requires Linked(core.Now()) && Link(core.Now(), c) && c in core.cells && Narrowed(k, core.lab[c].pos + 1, core.lab[c].hi)
      ensures Searching(k, c.right, c, false, core.lab[c].pos + 1, core.lab[c].hi)
    {
      if c.right != null { assert Link(core.Now(), c.right); }
    }

    /** Searches on for k or for its place. */
    method SearchFrom(k: Key, start: Node?, above: Node?, onLeft: bool, ghost from: int, ghost to: int)
        returns (current: Node?, parent: Node?, isLeft: bool)
      requires Valid() && Searching(k, start, above, onLeft, from, to)
      ensures current != null ==> current in core.cells && current != core.header && Same(lt, k, current.key)
      ensures current == null ==> parent != null && Place(k, parent, isLeft)
    {
      current, parent, isLeft := start, above, onLeft;
      ghost var lo, hi := from, to;
      while current != null
        invariant Searching(k, current, parent, isLeft, lo, hi)
        decreases hi - lo + if current == null then 0 else 1
      {
        parent := current;
        if lt(k, current.key) {
          NarrowLeft(k, lo, hi, core.lab[current].pos);
          DownLeft(k, current);
          hi := core.lab[current].pos;
          isLeft := true;
          current := current.left;
        } else {
          if !lt(current.key, k) {
            return;
          }
          NarrowRight(k, lo, hi, core.lab[current].pos);
          DownRight(k, current);
          lo := core.lab[current].pos + 1;
          isLeft := false;
          current := current.right;
        }
      }
    }

    /** Searches from the root for k or for its place. */
    method SearchPosition(k: Key) returns (current: Node?, parent: Node?, isLeft: bool)
      requires Valid() && core.order != []
      ensures current != null ==> current in core.cells && current != core.header && Same(lt, k, current.key)
      ensures current == null ==> parent != null && Place(k, parent, isLeft)
    {
      assert Link(core.Now(), core.header.left);
      current, parent, isLeft := SearchFrom(k, core.header.left, null, false, 0, |core.order|);
    }

    /** Between two neighbours nothing is left to search. */
    lemma NarrowBetween(k: Key, i: int)
      requires StrictWeakOrder(lt) && Ascending(lt, core.order) && 0 < i <= |core.order|
      requires lt(core.order[i - 1].key, k) && (i < |core.order| ==> lt(k, core.order[i].key))
      ensures Narrowed(k, i, i)
    {
      NarrowRight(k, 0, |core.order|, i - 1);
      if i < |core.order| {
        NarrowLeft(k, i, |core.order|, i);
      }
    }

    /** The hint says that k belongs next to it: found reports that this settled the search. */
    method TryHint(k: Key, hint: Node?) returns (found: bool, current: Node?, parent: Node?, isLeft: bool)
      requires Valid() && core.order != [] && (hint != null ==> hint in core.cells)
      ensures found && current != null ==> current in core.cells && current != core.header && Same(lt, k, current.key)
      ensures found && current == null ==> parent != null && Place(k, parent, isLeft)
    {
      found, current, parent, isLeft := false, null, null, false;
      if hint == null || hint == core.header.parent || hint == core.header {
        return;
      }
      if lt(k, hint.key) {
        var p := core.Decrement(hint);
        if lt(p.key, k) {
          found := true;
          current, parent, isLeft := SearchBefore(k, hint);
        }
      } else if lt(hint.key, k) {
        found, current, parent, isLeft := TryAfter(k, hint);
      } else {
        found, current := true, hint;
      }
    }

    method TryAfter(k: Key, hint: Node) returns (found: bool, current: Node?, parent: Node?, isLeft: bool)
      requires Valid() && hint in core.cells && hint != core.header && lt(hint.key, k)
      ensures found && current != null ==> current in core.cells && current != core.header && Same(lt, k, current.key)
      ensures found && current == null ==> parent != null && Place(k, parent, isLeft)
    {
      found, current, parent, isLeft := false, null, null, false;
      var p := core.Increment(hint);
      if p == core.header {
        BehindLast(k, hint);
        found, parent, current := true, hint, hint.right;
      } else if lt(k, p.key) {
        found := true;
        current, parent, isLeft := SearchBehind(k, hint);
      }
    }

    /** k lies between the hint and its successor. */
    method SearchBehind(k: Key, hint: Node) returns (current: Node?, parent: Node?, isLeft: bool)
      requires Valid() && hint in core.cells && hint != core.header && hint in core.lab && lt(hint.key, k)
      requires 0 <= core.lab[hint].pos < |core.order| - 1 && core.order[core.lab[hint].pos] == hint && lt(k, core.order[core.lab[hint].pos + 1].key)
      ensures current != null ==> current in core.cells && current != core.header && Same(lt, k, current.key)
      ensures current == null ==> parent != null && Place(k, parent, isLeft)
    {
      assert Link(core.Now(), hint);
      NarrowBetween(k, core.lab[hint].pos + 1);
      DownRight(k, hint);
      current, parent, isLeft := SearchFrom(k, hint.right, hint, false, core.lab[hint].pos + 1, core.lab[hint].hi);
    }

    /** k lies between the hint and its predecessor. */
    method SearchBefore(k: Key, hint: Node) returns (current: Node?, parent: Node?, isLeft: bool)
      requires Valid() && hint in core.cells && hint != core.header && hint in core.lab && lt(k, hint.key)
      requires 0 < core.lab[hint].pos < |core.order| && core.order[core.lab[hint].pos] == hint && lt(core.order[core.lab[hint].pos - 1].key, k)
      ensures current != null ==> current in core.cells && current != core.header && Same(lt, k, current.key)
      ensures current == null ==> parent != null && Place(k, parent, isLeft)
    {
      assert Link(core.Now(), hint);
      NarrowBetween(k, core.lab[hint].pos);
      DownLeft(k, hint);
      current, parent, isLeft := SearchFrom(k, hint.left, hint, true, core.lab[hint].lo, core.lab[hint].pos);
    }

    lemma BehindLast(k: Key, hint: Node)
      requires Valid() && hint in core.cells && hint != core.header && lt(hint.key, k)
      requires hint in core.lab && core.lab[hint].pos == |core.order| - 1
      ensures hint.right == null && Place(k, hint, false)
    {
      assert Link(core.Now(), hint);
      NarrowBetween(k, core.lab[hint].pos + 1);
      DownRight(k, hint);
    }

    /** The hint, the first and the last node are tried before the search. */
    method InsertPosition(k: Key, hint: Node? := null) returns (current: Node?, parent: Node?, isLeft: bool)
      requires Valid() && (hint != null ==> hint in core.cells)
      ensures current != null ==> current in core.cells && current != core.header && Same(lt, k, current.key)
      ensures current == null ==> (parent == null <==> core.order == []) && (parent != null ==> Place(k, parent, isLeft))
    {
      current, parent, isLeft := null, null, true;
      if size == 0 {
        return;
      }
      var found;
      found, current, parent, isLeft := TryHint(k, hint);
      if !found {
        current, parent, isLeft := TryEnds(k);
      }
    }

    method TryEnds(k: Key) returns (current: Node?, parent: Node?, isLeft: bool)
      requires Valid() && core.order != []
      ensures current != null ==> current in core.cells && current != core.header && Same(lt, k, current.key)
      ensures current == null ==> parent != null && Place(k, parent, isLeft)
    {
      current, parent, isLeft := null, null, true;
      var first, last := core.header.parent, core.header.right;
      assert Link(core.Now(), first) && Link(core.Now(), last);
      KidRoom(core.Now(), first, L);
      KidRoom(core.Now(), last, R);
      if lt(k, first.key) {
        parent := first;
        NarrowLeft(k, 0, |core.order|, 0);
        return;
      } else if !lt(first.key, k) {
        current := first;
        return;
      }
      if lt(last.key, k) {
        parent, isLeft := last, false;
        NarrowRight(k, 0, |core.order|, |core.order| - 1);
        return;
      } else if !lt(k, last.key) {
        current := last;
        return;
      }
      current, parent, isLeft := SearchPosition(k);
    }

    /** Inserts k unless an equivalent key is present; either way n holds that key. */
    method InsertUnique(k: Key, hint: Node? := null) returns (n: Node, inserted: bool)
      requires Valid() && (hint != null ==> hint in core.cells)
      modifies this`size, core, core.cells
      ensures Valid() && n in core.cells && n != core.header && Same(lt, k, n.key)
      ensures !inserted ==> core.order == old(core.order) && core.cells == old(core.cells) && n in old(core.cells)
      ensures inserted ==> fresh(n) && n.key == k && core.cells == old(core.cells) + {n}
      ensures inserted ==> exists i :: 0 <= i <= |old(core.order)| && core.order == old(core.order)[..i] + [n] + old(core.order)[i..]
      ensures inserted <==> forall j :: 0 <= j < |old(core.order)| ==> !Same(lt, k, old(core.order)[j].key)
    {
      var node := new Node(k);
      var current, parent, isLeft := InsertPosition(k, hint);
      if current != null {
        assert Link(core.Now(), current);
        return current, false;
      }
      ghost var o := core.order;
      ghost var i := if parent == null then 0 else Slot(core.Now(), parent, if isLeft then L else R);
      assert Fits(lt, o, i, k);
      MakeInsert(node, parent, isLeft);
      assert core.order == o[..i] + [node] + o[i..];
      FitsAscending(lt, o, i, node);
      n, inserted := node, true;
    }

    /** Only in the subtree of current can there be a node with an equivalent key. */
    ghost predicate Finding(k: Key, current: Node?, lo: int, hi: int)
      reads core, core.cells
    {
      && Narrowed(k, lo, hi) && core.header in core.cells
      && (if current == null then lo == hi
          else
            && current in core.cells && current != core.header && Link(core.Now(), current)
            && core.lab[current].lo == lo && core.lab[current].hi == hi)
    }

    /** Finds the node with an equivalent key, or null when there is none. */
    method Find(k: Key) returns (current: Node?)
      requires Valid()
      ensures current != null ==> current in core.cells && current != core.header && Same(lt, k, current.key)
      ensures current == null ==> forall j :: 0 <= j < |core.order| ==> !Same(lt, k, core.order[j].key)
    {
      current := core.header.left;
      ghost var lo, hi := 0, |core.order|;
      if current != null { assert Link(core.Now(), current); }
      while current != null
        invariant Finding(k, current, lo, hi)
        decreases hi - lo + if current == null then 0 else 1
      {
        if lt(k, current.key) {
          NarrowLeft(k, lo, hi, core.lab[current].pos);
          DownLeft(k, current);
          hi := core.lab[current].pos;
          current := current.left;
        } else {
          if !lt(current.key, k) {
            return;
          }
          NarrowRight(k, lo, hi, core.lab[current].pos);
          DownRight(k, current);
          lo := core.lab[current].pos + 1;
          current := current.right;
        }
      }
    }

    /** The first node whose key is not smaller than k, or null when all keys are smaller. */
    method LowerBound(k: Key) returns (saved: Node?)
      requires Valid()
      ensures saved == null ==> forall j :: 0 <= j < |core.order| ==> lt(core.order[j].key, k)
      ensures saved != null ==> saved in core.lab && var i := core.lab[saved].pos;
        && 0 <= i < |core.order| && core.order[i] == saved && !lt(saved.key, k)
        && forall j :: 0 <= j < i ==> lt(core.order[j].key, k)
    {
      var current := core.header.left;
      saved := null;
      ghost var lo, hi := 0, |core.order|;
      if current != null { assert Link(core.Now(), current); }
      while current != null
        invariant 0 <= lo <= hi <= |core.order|
        invariant forall j :: 0 <= j < lo ==> lt(core.order[j].key, k)
        invariant saved == null ==> hi == |core.order|
        invariant saved != null ==> hi < |core.order| && core.order[hi] == saved && !lt(saved.key, k)
        invariant current != null ==> current in core.cells && current != core.header && Link(core.Now(), current)
        invariant current != null ==> core.lab[current].lo == lo && core.lab[current].hi == hi
        invariant current == null ==> lo == hi
        decreases hi - lo + if current == null then 0 else 1
      {
        if !lt(current.key, k) {
          saved := current;
          hi := core.lab[current].pos;
          current := current.left;
        } else {
          lo := core.lab[current].pos + 1;
          current := current.right;
        }
        if current != null { assert Link(core.Now(), current); }
      }
    }

    /**
      The first node whose key is greater than k. The search starts with the root as its answer, so when
      no key is greater the result is the root of a non-empty tree, and null only for an empty one.
     */
    method UpperBound(k: Key) returns (saved: Node?)
      requires Valid()
      ensures (exists j :: 0 <= j < |core.order| && lt(k, core.order[j].key)) ==>
        saved != null && saved in core.lab && var i := core.lab[saved].pos;
          && 0 <= i < |core.order| && core.order[i] == saved && lt(k, saved.key)
          && forall j :: 0 <= j < i ==> !lt(k, core.order[j].key)
      ensures (forall j :: 0 <= j < |core.order| ==> !lt(k, core.order[j].key)) ==> saved == core.header.left
    {
      var current := core.header.left;
      saved := current;
      ghost var lo, hi := 0, |core.order|;
      if current != null { assert Link(core.Now(), current); }
      while current != null
        invariant 0 <= lo <= hi <= |core.order|
        invariant forall j :: 0 <= j < lo ==> !lt(k, core.order[j].key)
        invariant hi == |core.order| ==> saved == core.header.left
        invariant hi < |core.order| ==> core.order[hi] == saved && saved != null && lt(k, saved.key)
        invariant current != null ==> current in core.cells && current != core.header && Link(core.Now(), current)
        invariant current != null ==> core.lab[current].lo == lo && core.lab[current].hi == hi
        invariant current == null ==> lo == hi
        decreases hi - lo + if current == null then 0 else 1
      {
        if lt(k, current.key) {
          saved := current;
          hi := core.lab[current].pos;
          current := current.left;
        } else {
          lo := core.lab[current].pos + 1;
          current := current.right;
        }
        if current != null { assert Link(core.Now(), current); }
      }
      if saved != null { assert Link(core.Now(), saved); }
    }

    /** Stepping on from the leftmost node meets every node once, in order, and ends at the header. */
    method Enumerate() returns (s: seq<Node>)
      requires Valid()
      ensures s == core.order
    {
      s := [];
      if core.header.left == null {
        NoRoot();
        return;
      }
      HasRoot();
      var c: Node := core.header.parent;
      ghost var i := 0;
      while c != core.header
        invariant i <= |core.order| && s == core.order[..i] && c == if i < |core.order| then core.order[i] else core.header
        decreases |core.order| - i
      {
        Listed(i);
        s := s + [c];
        c := core.Increment(c);
        i := i + 1;
      }
    }

    lemma NoRoot()
      requires Valid() && core.header.left == null
      ensures core.order == []
    {
    }

    lemma HasRoot()
      requires Valid() && core.header.left != null
      ensures core.order != [] && core.header.parent == core.order[0]
    {
      assert Link(core.Now(), core.header.left);
    }

    /** A step on and a step back lead to the same node, from every node. */
    method OnAndBack(c: Node) returns (d: Node?)
      requires RedBlack() && core.EndsOk() && c in core.cells && c != core.header
      ensures d == c
    {
      var next := core.Increment(c);
      ghost var i := core.lab[c].pos;
      if i + 1 < |core.order| { Listed(i + 1); }
      d := core.Decrement(next);
    }

    /** A step back and a step on lead to the same node, from every node but the first. */
    method BackAndOn(c: Node) returns (d: Node?)
      requires RedBlack() && core.EndsOk() && c in core.cells && c != core.header && c != core.header.parent
      ensures d == c
    {
      var before := core.Decrement(c);
      Listed(core.lab[c].pos - 1);
      d := core.Increment(before);
    }

    lemma Listed(i: nat)
      requires RedBlack() && i < |core.order|
      ensures core.order[i] in core.cells && core.order[i] != core.header && core.order[i] in core.lab && core.lab[core.order[i]].pos == i
    {
    }
  }
}
