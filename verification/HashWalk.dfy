/** Walking over all chains, and moving every entry into a larger bucket array while walking. */
module HashWalk {
  import opened Common
  import opened HashChains

  /** The entries of buckets b, b + 1, ... in the order the iterator visits them. */
  function Flat(chains: seq<seq<Entry>>, b: nat): seq<Entry>
    requires b <= |chains|
    decreases |chains| - b
  {
    if b == |chains| then [] else chains[b] + Flat(chains, b + 1)
  }

  lemma {:induction false} FlatIn(chains: seq<seq<Entry>>, b: nat, c: nat, e: Entry)
    requires b <= c < |chains| && e in chains[c]
    ensures e in Flat(chains, b)
    decreases |chains| - b
  {
    if b < c { FlatIn(chains, b + 1, c, e); }
  }

  lemma {:induction false} FlatFrom(chains: seq<seq<Entry>>, b: nat, e: Entry) returns (c: nat)
    requires b <= |chains| && e in Flat(chains, b)
    ensures b <= c < |chains| && e in chains[c]
    decreases |chains| - b
  {
    if e in chains[b] {
      c := b;
    } else {
      c := FlatFrom(chains, b + 1, e);
    }
  }

  lemma NoDupConcat(u: seq<Entry>, v: seq<Entry>)
    requires NoDup(u) && NoDup(v) && forall e :: e in u ==> e !in v
    ensures NoDup(u + v)
  {
    forall i, j | 0 <= i < j < |u + v| ensures (u + v)[i] != (u + v)[j] {
      if i < |u| <= j {
        assert u[i] in u && v[j - |u|] in v;
      }
    }
  }

  /** No entry is visited twice. */
  lemma {:induction false} FlatNoDup(t: Table, h: Hash, b: nat)
    requires Inv(t, h) && b <= |t.heads|
    ensures NoDup(Flat(t.chains, b))
    decreases |t.heads| - b
  {
    if b < |t.heads| {
      FlatNoDup(t, h, b + 1);
      assert Bucket(t, h, b);
      forall e | e in t.chains[b] ensures e !in Flat(t.chains, b + 1) {
        if e in Flat(t.chains, b + 1) {
          var c := FlatFrom(t.chains, b + 1, e);
          ChainsApart(t, h, b, c);
        }
      }
      NoDupConcat(t.chains[b], Flat(t.chains, b + 1));
    }
  }

  /** What is visited is exactly what is live. */
  lemma FlatLive(t: Table, h: Hash, e: Entry)
    requires Inv(t, h)
    ensures e in Flat(t.chains, 0) <==> Live(t, e)
  {
    if e in Flat(t.chains, 0) {
      var c := FlatFrom(t.chains, 0, e);
      ChainLive(t, h, c);
    }
    if Live(t, e) {
      assert Owned(t, h, t.mem[e].key);
      FlatIn(t.chains, 0, h(t.mem[e].key) % |t.heads|, e);
    }
  }

  // ---- counting ----

  /** A sequence of live entries without repetition has as many entries as keys. */
  lemma {:induction false} CountKeys(t: Table, s: seq<Entry>) returns (ks: set<Key>)
    requires NoDup(s) && forall e :: e in s ==> Live(t, e)
    ensures |ks| == |s| && forall k :: k in ks <==> k in t.owner && t.owner[k] in s && t.owner[k] in t.mem && t.mem[t.owner[k]].key == k
  {
    if s == [] {
      ks := {};
    } else {
      var rest := CountKeys(t, s[1..]);
      assert Live(t, s[0]);
      ks := rest + {t.mem[s[0]].key};
      assert forall e :: e in s <==> e == s[0] || e in s[1..];
    }
  }

  lemma FlatCount(t: Table, h: Hash)
    requires Inv(t, h)
    ensures |Flat(t.chains, 0)| == |t.owner|
  {
    var s := Flat(t.chains, 0);
    FlatNoDup(t, h, 0);
    forall e | e in s ensures Live(t, e) { FlatLive(t, h, e); }
    var ks := CountKeys(t, s);
    forall k ensures k in ks <==> k in t.owner {
      assert Owned(t, h, k);
      if k in t.owner { FlatLive(t, h, t.owner[k]); }
    }
    assert ks == t.owner.Keys;
  }

  lemma {:induction false} FlatSame(chains: seq<seq<Entry>>, chains': seq<seq<Entry>>, b: nat)
    requires b <= |chains| == |chains'| && forall c :: b <= c < |chains| ==> chains[c] == chains'[c]
    ensures Flat(chains, b) == Flat(chains', b)
    decreases |chains| - b
  {
    if b < |chains| { FlatSame(chains, chains', b + 1); }
  }

  lemma NoDupParts(u: seq<Entry>, v: seq<Entry>)
    requires NoDup(u + v)
    ensures NoDup(u) && NoDup(v) && (u != [] ==> (u + v)[0] == u[0] && u[0] !in v) && (u == [] ==> u + v == v)
  {
    assert forall j :: 0 <= j < |u| ==> u[j] == (u + v)[j];
    assert forall j :: 0 <= j < |v| ==> v[j] == (u + v)[|u| + j];
  }

  lemma DropHead(u: seq<Entry>, v: seq<Entry>)
    requires u != []
    ensures Without(u, 0) + v == (u + v)[1..]
  {
  }

  /** Removing the entry that comes first shortens the walk by it, and it was first in its chain. */
  lemma {:induction false} FlatDropFirst(chains: seq<seq<Entry>>, from: nat, b: nat, i: nat)
    requires from <= b < |chains| && i < |chains[b]| && NoDup(Flat(chains, from))
    requires Flat(chains, from) != [] && Flat(chains, from)[0] == chains[b][i]
    ensures i == 0 && Flat(chains[b := Without(chains[b], i)], from) == Flat(chains, from)[1..]
    decreases b - from
  {
    NoDupParts(chains[from], Flat(chains, from + 1));
    if b == from {
      FlatSame(chains, chains[b := Without(chains[b], i)], from + 1);
      DropHead(chains[b], Flat(chains, from + 1));
    } else {
      FlatIn(chains, from + 1, b, chains[b][i]);
      FlatDropFirst(chains, from + 1, b, i);
    }
  }

  // ---- the iterator ----

  ghost predicate Matches(mem: Mem)
    reads mem.Keys
  {
    forall e :: e in mem ==> e.next == mem[e].next
  }

  class HashIndex {
    var self: Entry?
    var next: Entry?
    var index: nat
    ghost var run: seq<Entry>

    /** The memory still holds the rest of the current chain and all later buckets. */
    ghost predicate Walking(mem: Mem, heads: seq<Entry?>, chains: seq<seq<Entry>>)
      reads this`next, this`index, this`run
    {
      && index <= |heads| == |chains| && Linked(mem, run, next)
      && forall b {:trigger chains[b]} :: index <= b < |heads| ==> Linked(mem, chains[b], heads[b])
    }

    ghost function Rest(chains: seq<seq<Entry>>): seq<Entry>
      requires index <= |chains|
      reads this`index, this`run
    {
      run + Flat(chains, index)
    }

    constructor (ghost mem: Mem, ghost heads: seq<Entry?>, ghost chains: seq<seq<Entry>>)
      requires |heads| == |chains| && forall b {:trigger chains[b]} :: 0 <= b < |heads| ==> Linked(mem, chains[b], heads[b])
      ensures Walking(mem, heads, chains) && Rest(chains) == Flat(chains, 0)
    {
      self, next, index, run := null, null, 0, [];
      new;
      assert [] + Flat(chains, 0) == Flat(chains, 0);
    }

    /** The next entry, or the end. The link past it is fetched before the caller may change it. */
    method Next(slots: array<Entry?>, ghost mem: Mem, ghost chains: seq<seq<Entry>>) returns (more: bool)
      requires Walking(mem, slots[..], chains) && Matches(mem)
      modifies this
      ensures Walking(mem, slots[..], chains) && old(index) <= |chains|
      ensures more <==> old(Rest(chains)) != []
      ensures more ==> self == old(Rest(chains))[0] && Rest(chains) == old(Rest(chains))[1..]
    {
      ghost var rest := Rest(chains);
      self := next;
      while self == null
        invariant index <= |chains| && Linked(mem, run, self) && Rest(chains) == rest
        invariant forall b {:trigger chains[b]} :: index <= b < |chains| ==> Linked(mem, chains[b], slots[b])
        decreases |chains| - index
      {
        if index >= slots.Length {
          next := null;
          return false;
        }
        self := slots[index];
        run := chains[index];
        index := index + 1;
      }
      LinkedTail(mem, run, self);
      next := self.next;
      run := run[1..];
      more := true;
    }
  }
}
