/** The ring of memory nodes, doubly linked, as a value: a sequence that starts at the active node. */
module NodeRing {
  import opened Common
  import opened MemNodes
  import opened FreeLists
  import opened Allocators

  datatype Link = Link(next: MemNode?, prev: MemNode?, free: nat)

  type Links = map<MemNode, Link>

  function Succ(s: seq<MemNode>, i: nat): MemNode
    requires i < |s|
  {
    if i + 1 < |s| then s[i + 1] else s[0]
  }

  /** The i-th node of the ring and the one after it point at each other. */
  ghost predicate Joined(mem: Links, s: seq<MemNode>, i: nat)
    requires i < |s|
  {
    s[i] in mem && Succ(s, i) in mem && mem[s[i]].next == Succ(s, i) && mem[Succ(s, i)].prev == s[i]
  }

  /** One cycle through s, nothing else. */
  ghost predicate Ring(mem: Links, s: seq<MemNode>)
  {
    s != [] && NoDup(s) && forall i {:trigger Joined(mem, s, i)} :: 0 <= i < |s| ==> Joined(mem, s, i)
  }

  function SetNext(mem: Links, n: MemNode, x: MemNode?): Links
    requires n in mem
  {
    mem[n := mem[n].(next := x)]
  }

  function SetPrev(mem: Links, n: MemNode, x: MemNode?): Links
    requires n in mem
  {
    mem[n := mem[n].(prev := x)]
  }

  /** MemNode::remove. */
  function Removed(mem: Links, n: MemNode): Links
    requires n in mem && mem[n].next != null && mem[n].prev != null && mem[n].next in mem && mem[n].prev in mem
  {
    SetPrev(SetNext(mem, mem[n].prev, mem[n].next), mem[n].next, mem[n].prev)
  }

  /** MemNode::insert: n comes before point. */
  function Inserted(mem: Links, n: MemNode, point: MemNode): Links
    requires n in mem && point in mem && mem[point].prev != null && mem[point].prev in mem
  {
    var p := mem[point].prev;
    SetPrev(SetNext(SetNext(SetPrev(mem, n, p), p, n), n, point), point, n)
  }

  lemma RingAt(mem: Links, s: seq<MemNode>, i: nat)
    requires Ring(mem, s) && i < |s|
    ensures s[i] in mem && Succ(s, i) in mem && mem[s[i]].next == Succ(s, i) && mem[Succ(s, i)].prev == s[i]
  {
    assert Joined(mem, s, i);
  }

  lemma RemoveJoined(mem: Links, s: seq<MemNode>, k: nat, i: nat)
    requires Ring(mem, s) && 0 < k < |s| && i < |s| - 1
    ensures s[k] in mem && mem[s[k]].next != null && mem[s[k]].prev != null && mem[s[k]].next in mem && mem[s[k]].prev in mem
    ensures Joined(Removed(mem, s[k]), Without(s, k), i)
  {
    RingAt(mem, s, k);
    RingAt(mem, s, k - 1);
    RingAt(mem, s, if i < k then i else i + 1);
  }

  /** Taking a node other than the active one out of the ring. */
  lemma RemoveRing(mem: Links, s: seq<MemNode>, k: nat)
    requires Ring(mem, s) && 0 < k < |s|
    ensures s[k] in mem && mem[s[k]].next == Succ(s, k) && mem[s[k]].prev == s[k - 1] && Succ(s, k) in mem && s[k - 1] in mem
    ensures Ring(Removed(mem, s[k]), Without(s, k)) && Removed(mem, s[k]).Keys == mem.Keys
  {
    RingAt(mem, s, k);
    RingAt(mem, s, k - 1);
    forall i {:trigger Joined(Removed(mem, s[k]), Without(s, k), i)} | 0 <= i < |s| - 1 ensures Joined(Removed(mem, s[k]), Without(s, k), i) {
      RemoveJoined(mem, s, k, i);
    }
  }

  function Put(s: seq<MemNode>, k: nat, n: MemNode): seq<MemNode>
    requires k <= |s|
  {
    s[..k] + [n] + s[k..]
  }

  /** Where a ring is cut open does not matter. */
  lemma RingTurn(mem: Links, s: seq<MemNode>)
    requires Ring(mem, s)
    ensures Ring(mem, s[1..] + [s[0]])
  {
    var s' := s[1..] + [s[0]];
    forall i {:trigger Joined(mem, s', i)} | 0 <= i < |s'| ensures Joined(mem, s', i) {
      RingAt(mem, s, if i + 1 < |s| then i + 1 else 0);
    }
  }

  /** Inserting before the first node: the new node may be seen as the new first, or as the last. */
  lemma InsertFirst(mem: Links, s: seq<MemNode>, n: MemNode)
    requires Ring(mem, s) && n in mem && n !in s
    ensures s[0] in mem && mem[s[0]].prev == s[|s| - 1] && s[|s| - 1] in mem
    ensures Ring(Inserted(mem, n, s[0]), [n] + s) && Inserted(mem, n, s[0]).Keys == mem.Keys
  {
    RingAt(mem, s, |s| - 1);
    var mem', s' := Inserted(mem, n, s[0]), [n] + s;
    forall i {:trigger Joined(mem', s', i)} | 0 <= i < |s'| ensures Joined(mem', s', i) {
      if i > 0 { RingAt(mem, s, i - 1); }
    }
  }

  lemma InsertLast(mem: Links, s: seq<MemNode>, n: MemNode)
    requires Ring(mem, s) && n in mem && n !in s
    ensures s[0] in mem && mem[s[0]].prev == s[|s| - 1] && s[|s| - 1] in mem
    ensures Ring(Inserted(mem, n, s[0]), s + [n])
  {
    InsertFirst(mem, s, n);
    RingTurn(Inserted(mem, n, s[0]), [n] + s);
    assert ([n] + s)[1..] == s;
  }

  /** Inserting before a later node. */
  lemma InsertMiddle(mem: Links, s: seq<MemNode>, k: nat, n: MemNode)
    requires Ring(mem, s) && 0 < k < |s| && n in mem && n !in s
    ensures s[k] in mem && mem[s[k]].prev == s[k - 1] && s[k - 1] in mem
    ensures Ring(Inserted(mem, n, s[k]), Put(s, k, n))
  {
    RingAt(mem, s, k - 1);
    var mem', s' := Inserted(mem, n, s[k]), Put(s, k, n);
    forall i {:trigger Joined(mem', s', i)} | 0 <= i < |s'| ensures Joined(mem', s', i) {
      if i + 1 < k { RingAt(mem, s, i); }
      if i > k { RingAt(mem, s, i - 1); }
    }
  }

  // ---- order by free space ----

  function FreeAt(mem: Links, s: seq<MemNode>, i: nat): nat
    requires i < |s|
  {
    if s[i] in mem then mem[s[i]].free else 0
  }

  /** From position from on, from most to least free. */
  ghost predicate Descending(mem: Links, s: seq<MemNode>, from: nat)
  {
    forall i, j {:trigger FreeAt(mem, s, i), FreeAt(mem, s, j)} :: from <= i < j < |s| ==> FreeAt(mem, s, i) >= FreeAt(mem, s, j)
  }

  /** Behind the active node, the others go from most to least free. */
  ghost predicate InOrder(mem: Links, s: seq<MemNode>)
  {
    s != [] && Descending(mem, s, 1)
  }

  /** The p-th node of a ring, where one past the end is the first again. */
  function NodeAt(s: seq<MemNode>, p: nat): MemNode
    requires s != [] && p <= |s|
  {
    if p < |s| then s[p] else s[0]
  }

  /** The second node, moved before the p-th. */
  function Moved(s: seq<MemNode>, p: nat): (r: seq<MemNode>)
    requires 2 <= p <= |s|
    ensures |r| == |s| && forall i :: 0 <= i < |s| ==> r[i] == s[if i == 0 then 0 else if i < p - 1 then i + 1 else if i == p - 1 then 1 else i]
  {
    Put(Without(s, 1), p - 1, s[1])
  }

  lemma MovedInOrder(mem: Links, s: seq<MemNode>, p: nat)
    requires 2 <= p <= |s| && FreeAt(mem, s, 0) == 0 && Descending(mem, s, 2)
    requires p < |s| ==> FreeAt(mem, s, p) <= FreeAt(mem, s, 1)
    requires forall q {:trigger FreeAt(mem, s, q)} :: 2 <= q < p ==> FreeAt(mem, s, q) > FreeAt(mem, s, 1)
    ensures InOrder(mem, Moved(s, p))
  {
    var r := Moved(s, p);
    forall i, j {:trigger FreeAt(mem, r, i), FreeAt(mem, r, j)} | 1 <= i < j < |r| ensures FreeAt(mem, r, i) >= FreeAt(mem, r, j) {
      var i', j' := if i < p - 1 then i + 1 else if i == p - 1 then 1 else i, if j < p - 1 then j + 1 else if j == p - 1 then 1 else j;
      assert FreeAt(mem, r, i) == FreeAt(mem, s, i') && FreeAt(mem, r, j) == FreeAt(mem, s, j');
      assert p < |s| ==> FreeAt(mem, s, p) <= FreeAt(mem, s, 1);
    }
  }

  lemma SameOrder(mem: Links, mem': Links, s: seq<MemNode>)
    requires InOrder(mem, s) && forall i :: 0 <= i < |s| ==> s[i] in mem && s[i] in mem' && mem'[s[i]].free == mem[s[i]].free
    ensures InOrder(mem', s)
  {
    forall i | 0 <= i < |s| ensures FreeAt(mem', s, i) == FreeAt(mem, s, i) {}
  }

  function SetFree(mem: Links, n: MemNode, f: nat): Links
    requires n in mem
  {
    mem[n := mem[n].(free := f)]
  }

  lemma SetFreeRing(mem: Links, s: seq<MemNode>, n: MemNode, f: nat)
    requires Ring(mem, s) && n in mem
    ensures Ring(SetFree(mem, n, f), s)
  {
    var mem' := SetFree(mem, n, f);
    forall i {:trigger Joined(mem', s, i)} | 0 <= i < |s| ensures Joined(mem', s, i) { RingAt(mem, s, i); }
  }

  lemma SetFreeSecond(mem: Links, s: seq<MemNode>, f: nat)
    requires NoDup(s) && |s| >= 2 && s[1] in mem && FreeAt(mem, s, 0) == 0 && Descending(mem, s, 2)
    ensures FreeAt(SetFree(mem, s[1], f), s, 0) == 0 && Descending(SetFree(mem, s[1], f), s, 2)
  {
    var mem' := SetFree(mem, s[1], f);
    assert forall i :: 0 <= i < |s| && i != 1 ==> FreeAt(mem', s, i) == FreeAt(mem, s, i);
  }

  /** Links outside the ring do not matter. */
  lemma RingSame(mem: Links, mem': Links, s: seq<MemNode>)
    requires Ring(mem, s) && forall i :: 0 <= i < |s| && s[i] in mem ==> s[i] in mem' && mem'[s[i]] == mem[s[i]]
    ensures Ring(mem', s)
  {
    forall i {:trigger Joined(mem', s, i)} | 0 <= i < |s| ensures Joined(mem', s, i) {
      RingAt(mem, s, i);
      RingAt(mem, s, if i + 1 < |s| then i + 1 else 0);
    }
  }

  lemma SameDescending(mem: Links, mem': Links, s: seq<MemNode>, from: nat)
    requires Descending(mem, s, from) && forall i :: 0 <= i < |s| ==> s[i] in mem && s[i] in mem' && mem'[s[i]].free == mem[s[i]].free
    ensures Descending(mem', s, from)
  {
    forall i | 0 <= i < |s| ensures FreeAt(mem', s, i) == FreeAt(mem, s, i) {}
  }

  /** Taking out the second node leaves the rest in order. */
  lemma DropDescending(mem: Links, s: seq<MemNode>)
    requires |s| >= 2 && Descending(mem, s, 1)
    ensures Descending(mem, Without(s, 1), 1)
  {
    var r := Without(s, 1);
    assert forall i :: 1 <= i < |r| ==> FreeAt(mem, r, i) == FreeAt(mem, s, i + 1);
  }

  /** A node with nothing free in front of the others. */
  lemma FrontDescending(mem: Links, s: seq<MemNode>, n: MemNode)
    requires Descending(mem, s, 1) && n in mem && mem[n].free == 0
    ensures FreeAt(mem, [n] + s, 0) == 0 && Descending(mem, [n] + s, 2)
  {
    assert forall i :: 1 <= i < |s| + 1 ==> FreeAt(mem, [n] + s, i) == FreeAt(mem, s, i - 1);
  }

  lemma RemovedFrees(mem: Links, n: MemNode)
    requires n in mem && mem[n].next != null && mem[n].prev != null && mem[n].next in mem && mem[n].prev in mem
    ensures Removed(mem, n).Keys == mem.Keys && forall x :: x in mem ==> Removed(mem, n)[x].free == mem[x].free
  {
  }

  lemma InsertedFrees(mem: Links, n: MemNode, point: MemNode)
    requires n in mem && point in mem && mem[point].prev != null && mem[point].prev in mem
    ensures Inserted(mem, n, point).Keys == mem.Keys && forall x :: x in mem ==> Inserted(mem, n, point)[x].free == mem[x].free
  {
  }

  /** The ring may be cut open before any of its nodes. */
  lemma {:induction false} RingFrom(mem: Links, s: seq<MemNode>, k: nat)
    requires Ring(mem, s) && k < |s|
    ensures Ring(mem, s[k..] + s[..k])
  {
    if k == 0 {
      assert s[0..] + s[..0] == s;
    } else {
      RingFrom(mem, s, k - 1);
      var r := s[k - 1..] + s[..k - 1];
      RingTurn(mem, r);
      assert r[1..] + [r[0]] == s[k..] + s[..k];
    }
  }

  /** Only in a ring of one does the first node follow itself. */
  lemma OnlyOne(s: seq<MemNode>)
    requires s != [] && NoDup(s)
    ensures Succ(s, 0) == s[0] <==> |s| == 1
  {
  }

  lemma TurnElems(s: seq<MemNode>, k: nat)
    requires k <= |s|
    ensures forall n :: n in s[k..] + s[..k] <==> n in s
  {
    assert s == s[..k] + s[k..];
  }

  function Turned(s: seq<MemNode>, k: nat): (r: seq<MemNode>)
    requires k < |s|
    ensures |r| == |s| && r[0] == s[k]
  {
    s[k..] + s[..k]
  }

  lemma TurnedRing(mem: Links, s: seq<MemNode>, k: nat)
    requires Ring(mem, s) && k < |s|
    ensures Ring(mem, Turned(s, k)) && s[k] in mem
    ensures mem[s[k]].prev == Turned(s, k)[|s| - 1] && mem[s[k]].next == Succ(Turned(s, k), 0)
  {
    RingFrom(mem, s, k);
    RingAt(mem, Turned(s, k), |s| - 1);
    RingAt(mem, Turned(s, k), 0);
  }
}
