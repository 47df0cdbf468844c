module RbLinks {

  datatype Color = Red | Black

  datatype Side = L | R
  {
    function Opp(): Side { if this == L then R else L }
  }

  type Key(==, 0, !new)

  class Node {
    var parent: Node?
    var left: Node?
    var right: Node?
    var color: Color
    const key: Key

    constructor Header()
      ensures parent == null && left == null && right == null && color == Black
    {
      parent, left, right, color := null, null, null, Black;
    }

    constructor (k: Key)
      ensures key == k && parent == null && left == null && right == null && color == Red
    {
      key := k;
      parent, left, right, color := null, null, null, Red;
    }
  }

  /** The fields of one node, as a value. */
  datatype Cell = Cell(parent: Node?, left: Node?, right: Node?, color: Color)
  {
    function Kid(s: Side): Node? { if s == L then left else right }
    function WithKid(s: Side, v: Node?): Cell { if s == L then this.(left := v) else this.(right := v) }
  }

  type Heap = map<Node, Cell>

  /** Where a node stands in the in-order sequence, and which stretch its subtree covers. */
  datatype Label = Label(pos: int, lo: int, hi: int)
  {
    function From(s: Side): int { if s == L then lo else pos + 1 }
    function To(s: Side): int { if s == L then pos else hi }
  }

  type Labels = map<Node, Label>

  /**
    A tree as a value: the cells of all nodes and of the header, the label of every node, the nodes
    in order, and the header. The header's left field is the root.
   */
  datatype Shape = Shape(mem: Heap, lab: Labels, order: seq<Node>, head: Node)
  {
    ghost predicate Has(x: Node?) { x != null && x in mem && x in lab && x != head }
    function Root(): Node? requires head in mem { mem[head].left }
  }

  ghost predicate KidOk(t: Shape, x: Node, s: Side)
    requires t.Has(x)
  {
    var c := t.mem[x].Kid(s);
    if c == null then t.lab[x].From(s) == t.lab[x].To(s)
    else t.Has(c) && t.mem[c].parent == x && t.lab[c].lo == t.lab[x].From(s) && t.lab[c].hi == t.lab[x].To(s)
  }

  ghost predicate UpOk(t: Shape, x: Node)
    requires t.Has(x) && t.head in t.mem
  {
    var p := t.mem[x].parent;
    if p == t.head then t.Root() == x && t.lab[x].lo == 0 && t.lab[x].hi == |t.order|
    else t.Has(p) && (t.mem[p].left == x || t.mem[p].right == x)
  }

  ghost predicate Link(t: Shape, x: Node)
    requires t.head in t.mem
  {
    && t.Has(x)
    && 0 <= t.lab[x].lo <= t.lab[x].pos < t.lab[x].hi <= |t.order|
    && t.order[t.lab[x].pos] == x
    && KidOk(t, x, L) && KidOk(t, x, R)
    && UpOk(t, x)
  }

  ghost predicate RootOk(t: Shape)
    requires t.head in t.mem
  {
    if t.Root() == null then t.order == [] else t.order != [] && t.Has(t.Root()) && t.mem[t.Root()].parent == t.head
  }

  /** Parent and child fields agree, and the tree's in-order sequence is exactly t.order. */
  ghost predicate Linked(t: Shape)
  {
    && t.head in t.mem
    && RootOk(t)
    && (forall x {:trigger Link(t, x)} :: x in t.mem && x != t.head ==> Link(t, x))
    && (forall i {:trigger t.order[i]} :: 0 <= i < |t.order| ==> t.Has(t.order[i]) && t.lab[t.order[i]].pos == i)
  }

  /** The cells once n hangs where p hung. */
  function Relinked(t: Shape, p: Node, n: Node?): Heap
  {
    map x | x in t.mem :: t.mem[x].(left := if t.mem[x].left == p then n else t.mem[x].left,
                                    right := if t.mem[x].right == p && x != t.head then n else t.mem[x].right)
  }

  /** The cells once p hangs below n, its child on side s, and n's inner child below p. */
  function Swung(m: Heap, n: Node, p: Node, s: Side): Heap
    requires n in m && p in m
  {
    map x | x in m ::
      if x == n then m[x].(parent := m[p].parent).WithKid(s.Opp(), p)
      else if x == p then m[x].(parent := n).WithKid(s, m[n].Kid(s.Opp()))
      else if x == m[n].Kid(s.Opp()) then m[x].(parent := p)
      else m[x]
  }

  /** Node x's cell once n, p's child on side s, has been lifted above p. */
  function RotatedCell(t: Shape, n: Node, p: Node, s: Side, x: Node): Cell
    requires x in t.mem && n in t.mem && p in t.mem
  {
    var c := t.mem[x];
    if x == n then c.(parent := t.mem[p].parent).WithKid(s.Opp(), p)
    else if x == p then c.(parent := n).WithKid(s, t.mem[n].Kid(s.Opp()))
    else if x == t.head then c.(left := if c.left == p then n else c.left)
    else Cell(if x == t.mem[n].Kid(s.Opp()) then p else c.parent,
              if c.left == p then n else c.left, if c.right == p then n else c.right, c.color)
  }

  ghost function RotateLabels(t: Shape, n: Node, p: Node, s: Side): Labels
    requires n in t.lab && p in t.lab
  {
    var newP := if s == R then t.lab[p].(hi := t.lab[n].pos) else t.lab[p].(lo := t.lab[n].pos + 1);
    t.lab[n := t.lab[n].(lo := t.lab[p].lo, hi := t.lab[p].hi)][p := newP]
  }

  /** The rotation that lifts n, p's child on side s, above p. */
  ghost function Rotate(t: Shape, n: Node, p: Node, s: Side): Shape
    requires t.Has(n) && t.Has(p)
  {
    t.(mem := map x | x in t.mem :: RotatedCell(t, n, p, s, x), lab := RotateLabels(t, n, p, s))
  }

  /** What a rotation touches: p, its child n, n's inner child and p's parent. */
  ghost predicate Around(t: Shape, n: Node, p: Node, s: Side)
  {
    && t.head in t.mem && t.Has(p) && t.mem[p].Kid(s) == n
    && Link(t, p) && Link(t, n)
    && (var tmp := t.mem[n].Kid(s.Opp()); tmp != null ==> Link(t, tmp))
    && (var gp := t.mem[p].parent; gp != t.head ==> Link(t, gp))
  }

  /** p hangs in exactly one place: the header's left field, or one field of its parent. */
  ghost predicate HangsOnce(t: Shape, p: Node)
  {
    && t.head in t.mem && t.Has(p) && t.mem[p].parent != null && t.mem[p].parent in t.mem
    && (t.Root() == p <==> t.mem[p].parent == t.head)
    && (t.mem[p].parent != t.head ==> (t.mem[t.mem[p].parent].left == p <==> t.mem[t.mem[p].parent].right != p))
    && forall x :: x in t.mem && x != t.head && x != t.mem[p].parent ==> t.mem[x].left != p && t.mem[x].right != p
  }

  /** n is p's child on side s, and a rotation there touches four different nodes. */
  ghost predicate Turnable(t: Shape, n: Node, p: Node, s: Side)
  {
    && t.Has(n) && t.Has(p) && t.mem[p].Kid(s) == n && n != p && t.mem[p].parent != n && t.mem[p].parent != p
    && var tmp := t.mem[n].Kid(s.Opp());
       tmp != null ==> t.Has(tmp) && tmp != n && tmp != p && tmp != t.mem[p].parent
  }

  lemma LinkedTurnable(t: Shape, n: Node, p: Node, s: Side)
    requires Linked(t) && p in t.mem && p != t.head && t.mem[p].Kid(s) == n
    ensures HangsOnce(t, p) && Turnable(t, n, p, s)
  {
    LinkedAround(t, n, p, s);
    forall x | x in t.mem && x != t.head && x != t.mem[p].parent ensures t.mem[x].left != p && t.mem[x].right != p {
      assert Link(t, x);
    }
  }

  /** A rotation is a relinking above p followed by a swing below it. */
  lemma RotateInSteps(t: Shape, n: Node, p: Node, s: Side)
    requires HangsOnce(t, p) && Turnable(t, n, p, s)
    ensures Relinked(t, p, n)[n] == t.mem[n] && Relinked(t, p, n)[p] == t.mem[p]
    ensures Rotate(t, n, p, s).mem == Swung(Relinked(t, p, n), n, p, s)
  {
  }

  lemma RotateLinked(t: Shape, n: Node, p: Node, s: Side)
    requires Linked(t)
    requires p in t.mem && p != t.head && t.mem[p].Kid(s) == n
    ensures t.Has(n) && t.Has(p)
    ensures Linked(Rotate(t, n, p, s))
  {
    LinkedAround(t, n, p, s);
    var t' := Rotate(t, n, p, s);
    RotateRoot(t, n, p, s);
    forall x | x in t'.mem && x != t.head ensures Link(t', x) {
      assert Link(t, x);
      RotateLink(t, n, p, s, x);
    }
  }

  lemma LinkedAround(t: Shape, n: Node, p: Node, s: Side)
    requires Linked(t)
    requires p in t.mem && p != t.head && t.mem[p].Kid(s) == n
    ensures Around(t, n, p, s)
  {
    assert Link(t, p);
    assert Link(t, n);
    var gp, tmp := t.mem[p].parent, t.mem[n].Kid(s.Opp());
    if tmp != null { assert Link(t, tmp); }
    if gp != t.head { assert Link(t, gp); }
  }

  lemma RotateRoot(t: Shape, n: Node, p: Node, s: Side)
    requires Around(t, n, p, s) && RootOk(t)
    requires t.mem[t.head].left != null ==> Link(t, t.mem[t.head].left)
    ensures RootOk(Rotate(t, n, p, s))
  {
  }

  lemma RotateLink(t: Shape, n: Node, p: Node, s: Side, x: Node)
    requires Around(t, n, p, s)
    requires x in t.mem && x != t.head && Link(t, x)
    ensures Link(Rotate(t, n, p, s), x)
  {
    RotateUp(t, n, p, s, x);
    if x == n || x == p {
      RotatePair(t, n, p, s);
    } else {
      RotateOtherKid(t, n, p, s, x, L);
      RotateOtherKid(t, n, p, s, x, R);
    }
  }

  lemma RotatePair(t: Shape, n: Node, p: Node, s: Side)
    requires Around(t, n, p, s)
    ensures var t' := Rotate(t, n, p, s);
      && KidOk(t', n, L) && KidOk(t', n, R)
      && KidOk(t', p, L) && KidOk(t', p, R)
  {
    if s == L { } else { }
  }

  lemma RotateOtherKid(t: Shape, n: Node, p: Node, s: Side, x: Node, k: Side)
    requires Around(t, n, p, s)
    requires x in t.mem && x != t.head && x != n && x != p && Link(t, x)
    ensures KidOk(Rotate(t, n, p, s), x, k)
  {
    assert KidOk(t, x, k);
  }

  lemma RotateUp(t: Shape, n: Node, p: Node, s: Side, x: Node)
    requires Around(t, n, p, s)
    requires x in t.mem && x != t.head && Link(t, x)
    ensures UpOk(Rotate(t, n, p, s), x)
  {
    if x == n || x == p || x == t.mem[n].Kid(s.Opp()) {
      RotateUpAround(t, n, p, s, x);
    } else {
      RotateUpOther(t, n, p, s, x);
    }
  }

  lemma RotateUpAround(t: Shape, n: Node, p: Node, s: Side, x: Node)
    requires Around(t, n, p, s)
    requires x in t.mem && x != t.head && Link(t, x) && (x == n || x == p || x == t.mem[n].Kid(s.Opp()))
    ensures UpOk(Rotate(t, n, p, s), x)
  {
  }

  lemma RotateUpOther(t: Shape, n: Node, p: Node, s: Side, x: Node)
    requires Around(t, n, p, s)
    requires x in t.mem && x != t.head && Link(t, x) && x != n && x != p && x != t.mem[n].Kid(s.Opp())
    ensures UpOk(Rotate(t, n, p, s), x)
  {
  }

  /** A subtree covers at least one position. */
  lemma KidRoom(t: Shape, x: Node, s: Side)
    requires Linked(t) && x in t.mem && x != t.head
    ensures t.Has(x) && (t.mem[x].Kid(s) != null ==> t.lab[x].From(s) < t.lab[x].To(s))
  {
    assert Link(t, x);
    var c := t.mem[x].Kid(s);
    if c != null { assert Link(t, c); }
  }
}
