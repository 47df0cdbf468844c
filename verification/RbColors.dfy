module RbColors {
  import opened RbLinks

  type Heights = map<Node, nat>

  function Paint(t: Shape, x: Node, c: Color): Shape
    requires x in t.mem
  {
    t.(mem := t.mem[x := t.mem[x].(color := c)])
  }

  /** A node's share of the black count. The phantom z, about to be unlinked, counts for nothing. */
  function Weight(t: Shape, z: Node?, x: Node): nat
    requires x in t.mem
  {
    if t.mem[x].color == Black && x != z then 1 else 0
  }

  /** The black count its parent may rely on below c; the deficient node d is owed one. */
  function Owed(bh: Heights, d: Node?, c: Node?): nat
    requires c != null ==> c in bh
  {
    if c == null then 0 else bh[c] + if c == d then 1 else 0
  }

  predicate BlackOr(t: Shape, bad: Node?, c: Node?)
    requires c != null ==> c in t.mem
  {
    c == null || c == bad || t.mem[c].color == Black
  }

  ghost predicate Balanced(t: Shape, bh: Heights, z: Node?, d: Node?, x: Node)
    requires x in t.mem
  {
    && x in bh
    && (t.mem[x].left != null ==> t.mem[x].left in bh) && (t.mem[x].right != null ==> t.mem[x].right in bh)
    && Owed(bh, d, t.mem[x].left) == Owed(bh, d, t.mem[x].right)
    && bh[x] == Owed(bh, d, t.mem[x].left) + Weight(t, z, x)
  }

  ghost predicate NoRedRed(t: Shape, bad: Node?, x: Node)
    requires x in t.mem
  {
    && (t.mem[x].left != null ==> t.mem[x].left in t.mem) && (t.mem[x].right != null ==> t.mem[x].right in t.mem)
    && (t.mem[x].color == Red ==> BlackOr(t, bad, t.mem[x].left) && BlackOr(t, bad, t.mem[x].right))
  }

  ghost predicate Sound(t: Shape, bh: Heights, z: Node?, d: Node?, bad: Node?, x: Node)
    requires x in t.mem
  {
    Balanced(t, bh, z, d, x) && NoRedRed(t, bad, x)
  }

  ghost predicate Phantom(t: Shape, z: Node?)
  {
    z != null ==> z in t.mem && t.mem[z].color == Black && t.mem[z].left == null && t.mem[z].right == null
  }

  ghost predicate RootBlack(t: Shape, bad: Node?)
    requires t.head in t.mem
  {
    t.Root() != null ==> t.Root() in t.mem && BlackOr(t, bad, t.Root())
  }

  /** The red-black conditions, up to a phantom z, a deficit at d and a possible red parent of bad. */
  ghost predicate Colored(t: Shape, bh: Heights, z: Node?, d: Node?, bad: Node?)
  {
    && t.head in t.mem
    && RootBlack(t, bad)
    && Phantom(t, z)
    && (forall x {:trigger Sound(t, bh, z, d, bad, x)} :: x in t.mem && x != t.head ==> Sound(t, bh, z, d, bad, x))
  }

  lemma PaintLinked(t: Shape, x: Node, c: Color)
    requires Linked(t) && x in t.mem
    ensures Linked(Paint(t, x, c))
  {
    forall y | y in t.mem && y != t.head ensures Link(Paint(t, x, c), y) {
      assert Link(t, y);
    }
  }

  /** A red node and its black parent change places and colours. */
  ghost function Lift(t: Shape, top: Node, base: Node, s: Side): Shape
    requires t.Has(top) && t.Has(base)
  {
    Rotate(Paint(Paint(t, top, Black), base, Red), top, base, s)
  }

  function LiftHeights(bh: Heights, top: Node, base: Node): Heights
    requires base in bh && bh[base] > 0
  {
    bh[top := bh[base]][base := bh[base] - 1]
  }

  ghost predicate CanLift(t: Shape, bh: Heights, z: Node?, d: Node?, bad: Node?, top: Node, base: Node, s: Side)
  {
    && t.head in t.mem && t.Has(base) && t.Has(top) && t.mem[base].Kid(s) == top
    && t.mem[top].color == Red && t.mem[base].color == Black
    && top != d && base != d && top != z && base != z
    && Link(t, top) && Link(t, base)
    && Sound(t, bh, z, d, bad, top) && Sound(t, bh, z, d, bad, base)
    && BlackOr(t, null, t.mem[base].Kid(s.Opp())) && BlackOr(t, null, t.mem[top].Kid(s.Opp()))
  }

  lemma LiftSoundTop(t: Shape, bh: Heights, z: Node?, d: Node?, bad: Node?, top: Node, base: Node, s: Side)
    requires CanLift(t, bh, z, d, bad, top, base, s) && bh[base] > 0
    ensures Sound(Lift(t, top, base, s), LiftHeights(bh, top, base), z, d, bad, top)
  {
    if s == L { } else { }
  }

  lemma LiftSoundBase(t: Shape, bh: Heights, z: Node?, d: Node?, bad: Node?, top: Node, base: Node, s: Side)
    requires CanLift(t, bh, z, d, bad, top, base, s) && bh[base] > 0
    ensures Sound(Lift(t, top, base, s), LiftHeights(bh, top, base), z, d, bad, base)
  {
    if s == L { } else { }
  }

  lemma LiftSoundOther(t: Shape, bh: Heights, z: Node?, d: Node?, bad: Node?, top: Node, base: Node, s: Side, x: Node)
    requires CanLift(t, bh, z, d, bad, top, base, s) && bh[base] > 0
    requires x in t.mem && x != t.head && x != top && x != base
    requires Link(t, x) && Sound(t, bh, z, d, bad, x)
    ensures Sound(Lift(t, top, base, s), LiftHeights(bh, top, base), z, d, bad, x)
  {
    LiftBalancedOther(t, bh, z, d, bad, top, base, s, x);
    LiftRedOther(t, bh, z, d, bad, top, base, s, x);
  }

  lemma LiftBalancedOther(t: Shape, bh: Heights, z: Node?, d: Node?, bad: Node?, top: Node, base: Node, s: Side, x: Node)
    requires CanLift(t, bh, z, d, bad, top, base, s) && bh[base] > 0
    requires x in t.mem && x != t.head && x != top && x != base && Link(t, x) && Sound(t, bh, z, d, bad, x)
    ensures Balanced(Lift(t, top, base, s), LiftHeights(bh, top, base), z, d, x)
  {
  }

  lemma LiftRedOther(t: Shape, bh: Heights, z: Node?, d: Node?, bad: Node?, top: Node, base: Node, s: Side, x: Node)
    requires CanLift(t, bh, z, d, bad, top, base, s)
    requires x in t.mem && x != t.head && x != top && x != base && Link(t, x) && Sound(t, bh, z, d, bad, x)
    ensures NoRedRed(Lift(t, top, base, s), bad, x)
  {
  }

  lemma LiftColored(t: Shape, bh: Heights, z: Node?, d: Node?, bad: Node?, top: Node, base: Node, s: Side)
    requires Linked(t) && Colored(t, bh, z, d, bad)
    requires CanLift(t, bh, z, d, bad, top, base, s)
    ensures bh[base] > 0
    ensures Colored(Lift(t, top, base, s), LiftHeights(bh, top, base), z, d, bad)
  {
    LiftSoundTop(t, bh, z, d, bad, top, base, s);
    LiftSoundBase(t, bh, z, d, bad, top, base, s);
    var t', bh' := Lift(t, top, base, s), LiftHeights(bh, top, base);
    forall x | x in t'.mem && x != t.head ensures Sound(t', bh', z, d, bad, x) {
      if x != top && x != base {
        assert Link(t, x) && Sound(t, bh, z, d, bad, x);
        LiftSoundOther(t, bh, z, d, bad, top, base, s, x);
      }
    }
  }

  /** Recolouring leaves a rotation possible. */
  lemma LiftTurnable(t: Shape, top: Node, base: Node, s: Side)
    requires Linked(t) && base in t.mem && base != t.head && t.mem[base].Kid(s) == top
    ensures t.Has(top) && t.Has(base)
    ensures var t' := Paint(Paint(t, top, Black), base, Red); HangsOnce(t', base) && Turnable(t', top, base, s)
  {
    LinkedTurnable(t, top, base, s);
  }

  lemma LiftLinked(t: Shape, top: Node, base: Node, s: Side)
    requires Linked(t)
    requires base in t.mem && base != t.head && t.mem[base].Kid(s) == top
    ensures t.Has(top) && t.Has(base)
    ensures Linked(Lift(t, top, base, s))
  {
    assert Link(t, base);
    PaintLinked(t, top, Black);
    PaintLinked(Paint(t, top, Black), base, Red);
    RotateLinked(Paint(Paint(t, top, Black), base, Red), top, base, s);
  }
}
