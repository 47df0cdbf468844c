/** Registering cleanups with a pool and killing them again. */
module PoolCleanups {
  import opened MemNodes
  import opened Allocators
  import P = Pools
  import opened PoolHouses
  import opened PoolTrees

  const SIZEOF_CLEANUP := 32

  /** The two lists of a pool, newest first. */
  datatype Lists = Lists(pre: seq<Cleanup>, post: seq<Cleanup>)

  function ListsOf(p: PoolNode): Lists
    reads p
  {
    Lists(p.preCleanups, p.cleanups)
  }

  predicate Match(c: Cleanup, data: int, fn: int) { c.data == data && c.fn == fn }

  predicate AnyMatch(cs: seq<Cleanup>, data: int, fn: int) { exists i :: 0 <= i < |cs| && Match(cs[i], data, fn) }

  /** The list without the newest cleanup that matches. */
  function Killed(cs: seq<Cleanup>, data: int, fn: int): seq<Cleanup>
  {
    if cs == [] then [] else if Match(cs[0], data, fn) then cs[1..] else [cs[0]] + Killed(cs[1..], data, fn)
  }

  /** What cleanup_kill leaves: it takes one match from either list. */
  function KilledBoth(l: Lists, data: int, fn: int): Lists
  {
    Lists(Killed(l.pre, data, fn), Killed(l.post, data, fn))
  }

  lemma {:induction false} NoneKilled(cs: seq<Cleanup>, data: int, fn: int)
    ensures Killed(cs, data, fn) == cs <==> !AnyMatch(cs, data, fn)
    ensures |Killed(cs, data, fn)| == |cs| - if AnyMatch(cs, data, fn) then 1 else 0
  {
    if cs != [] {
      var r := cs[1..];
      NoneKilled(r, data, fn);
      assert AnyMatch(cs, data, fn) <==> Match(cs[0], data, fn) || AnyMatch(r, data, fn) by {
        assert forall i :: 0 < i < |cs| ==> cs[i] == r[i - 1];
        assert forall i :: 0 <= i < |r| ==> r[i] == cs[i + 1];
      }
      assert cs == [cs[0]] + r;
    }
  }

  lemma {:induction false} KilledAt(cs: seq<Cleanup>, data: int, fn: int, i: nat)
    requires i < |cs| && Match(cs[i], data, fn) && forall j :: 0 <= j < i ==> !Match(cs[j], data, fn)
    ensures Killed(cs, data, fn) == cs[..i] + cs[i + 1..]
  {
    if i > 0 {
      var r := cs[1..];
      assert forall j :: 0 <= j < |r| ==> r[j] == cs[j + 1];
      KilledAt(r, data, fn, i - 1);
      assert [cs[0]] + (r[..i - 1] + r[i..]) == cs[..i] + cs[i + 1..];
    }
  }

  /** Every other cleanup stays as often as it was. */
  lemma {:induction false} KilledOthers(cs: seq<Cleanup>, data: int, fn: int, c: Cleanup)
    ensures c.data != data || c.fn != fn ==> multiset(Killed(cs, data, fn))[c] == multiset(cs)[c]
  {
    if cs != [] {
      assert cs == [cs[0]] + cs[1..];
      KilledOthers(cs[1..], data, fn, c);
    }
  }

  /** The newest cleanup with this data and this callback goes, and the list is one shorter if and only if there is one. */
  ghost predicate NewestGone(cs: seq<Cleanup>, data: int, fn: int, r: seq<Cleanup>)
  {
    && (|r| == |cs| - 1 <==> exists i :: 0 <= i < |cs| && cs[i].data == data && cs[i].fn == fn)
    && (|r| != |cs| - 1 ==> r == cs)
    && forall i | 0 <= i < |cs| && cs[i].data == data && cs[i].fn == fn :: (forall j :: 0 <= j < i ==> cs[j].data != data || cs[j].fn != fn)
         ==> r == cs[..i] + cs[i + 1..]
  }

  lemma KilledNewest(cs: seq<Cleanup>, data: int, fn: int)
    ensures NewestGone(cs, data, fn, Killed(cs, data, fn))
  {
    NoneKilled(cs, data, fn);
    forall i | 0 <= i < |cs| && cs[i].data == data && cs[i].fn == fn && forall j :: 0 <= j < i ==> cs[j].data != data || cs[j].fn != fn
      ensures Killed(cs, data, fn) == cs[..i] + cs[i + 1..]
    {
      KilledAt(cs, data, fn, i);
    }
    if exists i :: 0 <= i < |cs| && cs[i].data == data && cs[i].fn == fn {
      var i :| 0 <= i < |cs| && cs[i].data == data && cs[i].fn == fn;
      assert Match(cs[i], data, fn);
    }
  }

  /** Killing what was just registered restores the lists if and only if no pre-cleanup matches too. */
  lemma KillUndoesRegister(l: Lists, c: Cleanup)
    ensures KilledBoth(Lists(l.pre, [c] + l.post), c.data, c.fn) == l
      <==> forall i :: 0 <= i < |l.pre| ==> l.pre[i].data != c.data || l.pre[i].fn != c.fn
  {
    KilledNewest(l.pre, c.data, c.fn);
    assert ([c] + l.post)[1..] == l.post;
    NoneKilled(l.pre, c.data, c.fn);
  }

  /** The same the other way round. */
  lemma KillUndoesPreRegister(l: Lists, c: Cleanup)
    ensures KilledBoth(Lists([c] + l.pre, l.post), c.data, c.fn) == l
      <==> forall i :: 0 <= i < |l.post| ==> l.post[i].data != c.data || l.post[i].fn != c.fn
  {
    KilledNewest(l.post, c.data, c.fn);
    assert ([c] + l.pre)[1..] == l.pre;
    NoneKilled(l.post, c.data, c.fn);
  }

  /** A pre-cleanup registered before is lost with the cleanup. */
  lemma KillTakesBoth(data: int, fn: int)
    ensures var c := Cleanup(data, fn, false); KilledBoth(Lists([c], [c]), data, fn) == Lists([], [])
  {
    var c := Cleanup(data, fn, false);
    assert [c][1..] == [];
  }

  // ---- on the pool ----

  /** A record: one that is free for reuse, or a new block of the pool. */
  method GetRecord(p: PoolNode, ghost ps: set<P.Pool>, alloc: Allocator)
    requires House(ps, alloc) && p.memory in ps
    modifies p`freeCleanups, p.memory, alloc, p.memory.Nodes(), alloc.CachedNodes()
    ensures House(ps, alloc) && ListsOf(p) == old(ListsOf(p))
    ensures old(p.freeCleanups) > 0 ==> p.memory.blocks == old(p.memory.blocks) && p.freeCleanups == old(p.freeCleanups) - 1
    ensures old(p.freeCleanups) == 0 ==> |p.memory.blocks| == |old(p.memory.blocks)| + 1 && p.freeCleanups == 0
    ensures alloc.CachedNodes() <= old(alloc.CachedNodes()) && fresh(p.memory.Nodes() - old(p.memory.Nodes() + alloc.CachedNodes()))
    ensures fresh(Reach(ps, alloc) - old(Reach(ps, alloc)))
  {
    if p.freeCleanups > 0 {
      Reuse(p, ps, alloc);
    } else {
      var ok, node, off := AllocHouse(p.memory, P.Request(SIZEOF_CLEANUP, false), ps, alloc);
    }
  }

  method Reuse(p: PoolNode, ghost ps: set<P.Pool>, ghost alloc: Allocator)
    requires House(ps, alloc) && p.freeCleanups > 0
    modifies p`freeCleanups
    ensures House(ps, alloc) && p.freeCleanups == old(p.freeCleanups) - 1
    ensures Reach(ps, alloc) == old(Reach(ps, alloc))
  {
    p.freeCleanups := p.freeCleanups - 1;
  }

  /** cleanup_register. */
  method Register(p: PoolNode, c: Cleanup, ghost ps: set<P.Pool>, alloc: Allocator)
    requires House(ps, alloc) && p.memory in ps
    modifies p`freeCleanups, p`cleanups, p.memory, alloc, p.memory.Nodes(), alloc.CachedNodes()
    ensures House(ps, alloc) && ListsOf(p) == Lists(old(p.preCleanups), [c] + old(p.cleanups))
    ensures alloc.CachedNodes() <= old(alloc.CachedNodes()) && fresh(p.memory.Nodes() - old(p.memory.Nodes() + alloc.CachedNodes()))
    ensures fresh(Reach(ps, alloc) - old(Reach(ps, alloc)))
  {
    GetRecord(p, ps, alloc);
    Enlist(p, c, ps, alloc);
  }

  method Enlist(p: PoolNode, c: Cleanup, ghost ps: set<P.Pool>, ghost alloc: Allocator)
    requires House(ps, alloc)
    modifies p`cleanups
    ensures House(ps, alloc) && p.cleanups == [c] + old(p.cleanups)
    ensures Reach(ps, alloc) == old(Reach(ps, alloc))
  {
    p.cleanups := [c] + p.cleanups;
  }

  /** pre_cleanup_register. */
  method PreRegister(p: PoolNode, c: Cleanup, ghost ps: set<P.Pool>, alloc: Allocator)
    requires House(ps, alloc) && p.memory in ps
    modifies p`freeCleanups, p`preCleanups, p.memory, alloc, p.memory.Nodes(), alloc.CachedNodes()
    ensures House(ps, alloc) && ListsOf(p) == Lists([c] + old(p.preCleanups), old(p.cleanups))
    ensures alloc.CachedNodes() <= old(alloc.CachedNodes()) && fresh(p.memory.Nodes() - old(p.memory.Nodes() + alloc.CachedNodes()))
    ensures fresh(Reach(ps, alloc) - old(Reach(ps, alloc)))
  {
    GetRecord(p, ps, alloc);
    EnlistPre(p, c, ps, alloc);
  }

  method EnlistPre(p: PoolNode, c: Cleanup, ghost ps: set<P.Pool>, ghost alloc: Allocator)
    requires House(ps, alloc)
    modifies p`preCleanups
    ensures House(ps, alloc) && p.preCleanups == [c] + old(p.preCleanups)
    ensures Reach(ps, alloc) == old(Reach(ps, alloc))
  {
    p.preCleanups := [c] + p.preCleanups;
  }

  /** The scan of one list, with the number of records it sets free. */
  method KillIn(cs: seq<Cleanup>, data: int, fn: int) returns (r: seq<Cleanup>, freed: nat)
    ensures r == Killed(cs, data, fn) && freed == |cs| - |r| && NewestGone(cs, data, fn, r)
  {
    var i := 0;
    while i < |cs| && !Match(cs[i], data, fn)
      invariant i <= |cs| && forall j :: 0 <= j < i ==> !Match(cs[j], data, fn)
    {
      i := i + 1;
    }
    KilledNewest(cs, data, fn);
    NoneKilled(cs, data, fn);
    if i < |cs| {
      KilledAt(cs, data, fn, i);
      return cs[..i] + cs[i + 1..], 1;
    }
    return cs, 0;
  }

  /** cleanup_kill. */
  method Kill(p: PoolNode, data: int, fn: int)
    modifies p`cleanups, p`preCleanups, p`freeCleanups
    ensures ListsOf(p) == KilledBoth(old(ListsOf(p)), data, fn)
    ensures p.freeCleanups + |p.cleanups| + |p.preCleanups| == old(p.freeCleanups + |p.cleanups| + |p.preCleanups|)
  {
    var post, a := KillIn(p.cleanups, data, fn);
    p.cleanups := post;
    var pre, b := KillIn(p.preCleanups, data, fn);
    p.preCleanups := pre;
    p.freeCleanups := p.freeCleanups + a + b;
  }
}
