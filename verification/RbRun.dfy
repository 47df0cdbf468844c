/** Any run of the tree against the finite set of keys it stands for. */
module RbRuns {
  import opened Common
  import opened Latches
  import opened RbLinks
  import opened RbEngine
  import opened RbSplice
  import opened RbTrees

  /** A call: insert, erase_unique or find of a key. */
  datatype Call = Insert(key: Key) | Erase(key: Key) | Find(key: Key)

  ghost predicate Holds(lt: (Key, Key) -> bool, s: set<Key>, k: Key) { exists x :: x in s && Same(lt, x, k) }

  /** What a call does to the set: an equivalent key keeps a new one out, and goes when its like is erased. */
  ghost function Effect(lt: (Key, Key) -> bool, s: set<Key>, c: Call): set<Key>
  {
    match c
    case Insert(k) => if Holds(lt, s, k) then s else s + {k}
    case Erase(k) => set x | x in s && !Same(lt, x, k)
    case Find(_) => s
  }

  /** The answer: whether it was inserted, whether something was erased, whether it was found. */
  ghost predicate Right(lt: (Key, Key) -> bool, s: set<Key>, c: Call, a: bool)
  {
    a == if c.Insert? then !Holds(lt, s, c.key) else Holds(lt, s, c.key)
  }

  /** The set after the first n calls. */
  ghost function After(lt: (Key, Key) -> bool, s: set<Key>, calls: seq<Call>, n: nat): set<Key>
    requires n <= |calls|
  {
    if n == 0 then s else Effect(lt, After(lt, s, calls, n - 1), calls[n - 1])
  }

  ghost predicate AllRight(lt: (Key, Key) -> bool, s: set<Key>, calls: seq<Call>, answers: seq<bool>)
  {
    |answers| <= |calls| && forall i :: 0 <= i < |answers| ==> Right(lt, After(lt, s, calls, i), calls[i], answers[i])
  }

  lemma RightNext(lt: (Key, Key) -> bool, s: set<Key>, calls: seq<Call>, answers: seq<bool>, a: bool)
    requires AllRight(lt, s, calls, answers) && |answers| < |calls| && Right(lt, After(lt, s, calls, |answers|), calls[|answers|], a)
    ensures AllRight(lt, s, calls, answers + [a])
  {
  }

  /** The keys in order. */
  ghost function Keys(o: seq<Node>): set<Key> { set n | n in o :: n.key }

  /** The tree is in order and stands for s. */
  ghost predicate Stands(t: RbTree, s: set<Key>)
    reads t, t.core, t.core.cells
  {
    forall l {:trigger Lifted(l)} :: Lifted(l) ==> t.Valid() && Keys(t.core.order) == s && |s| == t.size
  }

  lemma StandsMeans(t: RbTree, s: set<Key>)
    requires Stands(t, s)
    ensures t.Valid() && Keys(t.core.order) == s && |s| == t.size
  {
    assert Lifted(Latch);
  }

  lemma LastNew(lt: (Key, Key) -> bool, p: seq<Node>, n: Node)
    requires Ascending(lt, p + [n]) && !lt(n.key, n.key)
    ensures n.key !in Keys(p)
  {
    forall x | x in p
      ensures x.key != n.key
    {
      var j :| 0 <= j < |p| && p[j] == x;
      assert (p + [n])[j] == x && (p + [n])[|p|] == n;
    }
  }

  lemma {:induction false} KeysCount(lt: (Key, Key) -> bool, o: seq<Node>)
    requires (forall a :: !lt(a, a)) && Ascending(lt, o)
    ensures |Keys(o)| == |o|
  {
    if o != [] {
      var p, n := o[..|o| - 1], o[|o| - 1];
      assert o == p + [n];
      KeysCount(lt, p);
      LastNew(lt, p, n);
      assert Keys(o) == Keys(p) + {n.key};
    }
  }

  /** Holding a key is having an equivalent one somewhere in order. */
  lemma HoldsIn(lt: (Key, Key) -> bool, o: seq<Node>, k: Key)
    ensures Holds(lt, Keys(o), k) <==> exists j :: 0 <= j < |o| && Same(lt, k, o[j].key)
  {
    if j :| 0 <= j < |o| && Same(lt, k, o[j].key) {
      assert o[j].key in Keys(o);
    }
  }

  lemma KeysInsert(o: seq<Node>, i: int, n: Node)
    requires 0 <= i <= |o|
    ensures Keys(o[..i] + [n] + o[i..]) == Keys(o) + {n.key}
  {
    assert forall x :: x in o[..i] + [n] + o[i..] <==> x in o || x == n;
  }

  lemma KeysErase(lt: (Key, Key) -> bool, o: seq<Node>, i: int, k: Key)
    requires StrictWeakOrder(lt) && Ascending(lt, o) && 0 <= i < |o| && Same(lt, k, o[i].key)
    ensures Keys(Without(o, i)) == set x | x in Keys(o) && !Same(lt, x, k)
  {
    forall j | 0 <= j < |o|
      ensures Same(lt, o[j].key, k) <==> j == i
    {
      assert j < i ==> lt(o[j].key, o[i].key);
      assert i < j ==> lt(o[i].key, o[j].key);
    }
    var s := Without(o, i);
    forall x
      ensures x in Keys(s) <==> x in Keys(o) && !Same(lt, x, k)
    {
      if x in Keys(s) {
        var j :| 0 <= j < |s| && s[j].key == x;
        assert s[j] == o[if j < i then j else j + 1];
      }
      if x in Keys(o) && !Same(lt, x, k) {
        var j :| 0 <= j < |o| && o[j].key == x;
        assert o[j] == s[if j < i then j else j - 1];
      }
    }
  }

  /** An insertion, as a step of the set. */
  lemma InsertStep(lt: (Key, Key) -> bool, o: seq<Node>, o': seq<Node>, k: Key, n: Node, inserted: bool)
    requires inserted <==> forall j :: 0 <= j < |o| ==> !Same(lt, k, o[j].key)
    requires inserted ==> n.key == k && exists i :: 0 <= i <= |o| && o' == o[..i] + [n] + o[i..]
    requires !inserted ==> o' == o
    ensures Keys(o') == Effect(lt, Keys(o), Insert(k)) && Right(lt, Keys(o), Insert(k), inserted)
  {
    HoldsIn(lt, o, k);
    if inserted {
      var i :| 0 <= i <= |o| && o' == o[..i] + [n] + o[i..];
      KeysInsert(o, i, n);
    }
  }

  method InsertTree(t: RbTree, k: Key, ghost o: seq<Node>) returns (a: bool)
    requires t.Valid() && t.core.order == o
    modifies t`size, t.core, t.core.cells
    ensures t.Valid() && Keys(t.core.order) == Effect(t.lt, Keys(o), Insert(k)) && Right(t.lt, Keys(o), Insert(k), a)
    ensures fresh(t.core.cells - old(t.core.cells))
  {
    var n;
    n, a := t.InsertUnique(k);
    InsertStep(t.lt, o, t.core.order, k, n, a);
  }

  method InsertOne(t: RbTree, k: Key, ghost s: set<Key>) returns (a: bool)
    requires Stands(t, s)
    modifies t`size, t.core, t.core.cells
    ensures Stands(t, Effect(t.lt, s, Insert(k))) && Right(t.lt, s, Insert(k), a) && fresh(t.core.cells - old(t.core.cells))
  {
    StandsMeans(t, s);
    a := InsertTree(t, k, t.core.order);
    KeysCount(t.lt, t.core.order);
  }

  method EraseOne(t: RbTree, k: Key, ghost s: set<Key>) returns (a: bool)
    requires Stands(t, s)
    modifies t`size, t.core, t.core.cells
    ensures Stands(t, Effect(t.lt, s, Erase(k))) && Right(t.lt, s, Erase(k), a) && t.core.cells <= old(t.core.cells)
  {
    StandsMeans(t, s);
    ghost var o := t.core.order;
    HoldsIn(t.lt, o, k);
    var node := t.Find(k);
    a := node != null;
    if node != null {
      assert Link(t.core.Now(), node);
      ghost var i := t.core.lab[node].pos;
      t.DeleteNode(node);
      KeysErase(t.lt, o, i, k);
    }
    KeysCount(t.lt, t.core.order);
  }

  method FindOne(t: RbTree, k: Key, ghost s: set<Key>) returns (a: bool)
    requires Stands(t, s)
    ensures Right(t.lt, s, Find(k), a)
  {
    StandsMeans(t, s);
    HoldsIn(t.lt, t.core.order, k);
    var node := t.Find(k);
    a := node != null;
    if a {
      assert Link(t.core.Now(), node);
    }
  }

  method Answer(t: RbTree, c: Call, ghost s: set<Key>) returns (a: bool)
    requires Stands(t, s)
    modifies t`size, t.core, t.core.cells
    ensures Stands(t, Effect(t.lt, s, c)) && Right(t.lt, s, c, a) && fresh(t.core.cells - old(t.core.cells))
  {
    match c
    case Insert(k) => a := InsertOne(t, k, s);
    case Erase(k) => a := EraseOne(t, k, s);
    case Find(k) => a := FindOne(t, k, s);
  }

  /** Any run of calls on the tree does what it does to the set, and every answer is right. */
  method Run(t: RbTree, calls: seq<Call>, ghost s: set<Key>) returns (answers: seq<bool>)
    requires Stands(t, s)
    modifies t`size, t.core, t.core.cells
    ensures Stands(t, After(t.lt, s, calls, |calls|)) && |answers| == |calls| && AllRight(t.lt, s, calls, answers)
    ensures fresh(t.core.cells - old(t.core.cells))
  {
    answers := [];
    for n := 0 to |calls|
      invariant Stands(t, After(t.lt, s, calls, n)) && |answers| == n && AllRight(t.lt, s, calls, answers)
      invariant fresh(t.core.cells - old(t.core.cells))
    {
      var a := Answer(t, calls[n], After(t.lt, s, calls, n));
      RightNext(t.lt, s, calls, answers, a);
      answers := answers + [a];
    }
  }

  /** From the empty tree: the nodes met one after another are then the set in ascending order. */
  method RunNew(lt: (Key, Key) -> bool, calls: seq<Call>) returns (t: RbTree, answers: seq<bool>, walk: seq<Node>)
    requires StrictWeakOrder(lt)
    ensures fresh(t) && t.Valid() && |answers| == |calls| && AllRight(lt, {}, calls, answers)
    ensures Keys(walk) == After(lt, {}, calls, |calls|) && Ascending(lt, walk) && |walk| == t.size
  {
    t := new RbTree(lt);
    answers := Run(t, calls, {});
    StandsMeans(t, After(lt, {}, calls, |calls|));
    walk := t.Enumerate();
  }
}
