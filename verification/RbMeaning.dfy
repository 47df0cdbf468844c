/**
  What the local conditions mean for the tree as a whole, told by walking down from the root without
  any label: the in-order walk, the black counts of all paths, and the height.
 */
module RbMeaning {
  import opened Common
  import opened RbLinks
  import opened RbColors

  ghost function Width(t: Shape, x: Node?): nat
    requires Linked(t) && (x != null ==> t.Has(x))
  {
    if x == null then 0 else assert Link(t, x); t.lab[x].hi - t.lab[x].lo
  }

  /** The nodes below x in the order an in-order walk meets them. */
  ghost function Walk(t: Shape, x: Node?): seq<Node>
    requires Linked(t) && (x != null ==> t.Has(x))
    decreases Width(t, x)
  {
    if x == null then []
    else
      assert Link(t, x);
      Walk(t, t.mem[x].left) + [x] + Walk(t, t.mem[x].right)
  }

  lemma SplitAt<T>(s: seq<T>, a: int, p: int, b: int)
    requires 0 <= a <= p < b <= |s|
    ensures s[a..b] == s[a..p] + [s[p]] + s[p + 1..b]
  {
  }

  lemma {:induction false} WalkCoversSpan(t: Shape, x: Node?)
    requires Linked(t) && (x != null ==> t.Has(x))
    ensures x != null ==> 0 <= t.lab[x].lo <= t.lab[x].hi <= |t.order| && Walk(t, x) == t.order[t.lab[x].lo..t.lab[x].hi]
    ensures x == null ==> Walk(t, x) == []
    decreases Width(t, x)
  {
    if x != null {
      assert Link(t, x);
      var l, r := t.mem[x].left, t.mem[x].right;
      WalkCoversSpan(t, l);
      WalkCoversSpan(t, r);
      SplitAt(t.order, t.lab[x].lo, t.lab[x].pos, t.lab[x].hi);
    }
  }

  /** The in-order walk from the root is t.order, and it meets every node exactly once. */
  lemma WalkIsOrder(t: Shape)
    requires Linked(t)
    ensures Walk(t, t.Root()) == t.order
    ensures forall x :: x in t.mem && x != t.head <==> x in t.order
    ensures forall i, j :: 0 <= i < j < |t.order| ==> t.order[i] != t.order[j]
  {
    WalkCoversSpan(t, t.Root());
    if t.Root() != null { assert Link(t, t.Root()); }
    forall x | x in t.mem && x != t.head ensures x in t.order { assert Link(t, x); }
  }

  /** Every path from x down to a missing child meets exactly k black nodes and no red child of a red node. */
  ghost predicate AllPaths(t: Shape, x: Node?, k: int)
    requires Linked(t) && (x != null ==> t.Has(x))
    decreases Width(t, x)
  {
    if x == null then k == 0
    else
      assert Link(t, x);
      var w := if t.mem[x].color == Black then 1 else 0;
      && (t.mem[x].color == Red ==> BlackOr(t, null, t.mem[x].left) && BlackOr(t, null, t.mem[x].right))
      && AllPaths(t, t.mem[x].left, k - w) && AllPaths(t, t.mem[x].right, k - w)
  }

  lemma {:induction false} ColoredPaths(t: Shape, bh: Heights, x: Node?)
    requires Linked(t) && Colored(t, bh, null, null, null) && (x != null ==> t.Has(x))
    ensures x == null ==> AllPaths(t, x, 0)
    ensures x != null ==> x in bh && AllPaths(t, x, bh[x])
    decreases Width(t, x)
  {
    if x != null {
      assert Link(t, x) && Sound(t, bh, null, null, null, x);
      ColoredPaths(t, bh, t.mem[x].left);
      ColoredPaths(t, bh, t.mem[x].right);
    }
  }

  function Max(a: int, b: int): int { if a > b then a else b }

  ghost function Height(t: Shape, x: Node?): nat
    requires Linked(t) && (x != null ==> t.Has(x))
    decreases Width(t, x)
  {
    if x == null then 0
    else
      assert Link(t, x);
      1 + Max(Height(t, t.mem[x].left), Height(t, t.mem[x].right))
  }

  lemma {:induction false} HeightBound(t: Shape, bh: Heights, x: Node)
    requires Linked(t) && Colored(t, bh, null, null, null) && t.Has(x)
    ensures x in bh
    ensures Height(t, x) <= 2 * bh[x] + (if t.mem[x].color == Red then 1 else 0)
    ensures Pow2(bh[x]) <= Width(t, x) + 1
    decreases Width(t, x)
  {
    assert Link(t, x) && Sound(t, bh, null, null, null, x);
    var l, r := t.mem[x].left, t.mem[x].right;
    if l != null { HeightBound(t, bh, l); }
    if r != null { HeightBound(t, bh, r); }
    assert Width(t, x) == Width(t, l) + 1 + Width(t, r);
  }

  lemma Pow2Mono(a: nat, b: nat)
    requires a <= b
    ensures Pow2(a) <= Pow2(b)
  {
  }

  /** A red-black tree of n nodes has height at most 2 log2(n + 1), and one black count on all its paths. */
  lemma RedBlackIsBalanced(t: Shape, bh: Heights)
    requires Linked(t) && Colored(t, bh, null, null, null)
    ensures exists k :: AllPaths(t, t.Root(), k)
    ensures Pow2((Height(t, t.Root()) + 1) / 2) <= |t.order| + 1
  {
    var r := t.Root();
    ColoredPaths(t, bh, r);
    if r != null {
      assert Link(t, r);
      HeightBound(t, bh, r);
      Pow2Mono((Height(t, r) + 1) / 2, bh[r]);
      assert AllPaths(t, r, bh[r]);
    }
  }
}
