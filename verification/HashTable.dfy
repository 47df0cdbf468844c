/** The chained hash table as it runs. */
module HashTables {
  import opened Common
  import opened Latches
  import opened HashChains
  import opened HashWalk
  import opened HashGrow
  import opened HashMerge

  const INITIAL_MAX := 15

  /** What makes hash & max the same as the remainder modulo max + 1. */
  ghost predicate PowerOfTwo(n: nat) { exists k: nat :: Pow2(k) == n }

  lemma Doubled(max: nat, max': nat)
    requires PowerOfTwo(max + 1) && max' == 2 * max + 1
    ensures PowerOfTwo(max' + 1)
  {
    var k: nat :| Pow2(k) == max + 1;
    assert Pow2(k + 1) == max' + 1;
  }

  function MergedMax(a: nat, b: nat, sum: nat): (m: nat)
    ensures a + b >= sum ==> m >= sum
  {
    var m := if b > a then b else a;
    if sum > m then m * 2 + 1 else m
  }

  lemma MergedPower(a: nat, b: nat, sum: nat, m: nat)
    requires PowerOfTwo(a + 1) && PowerOfTwo(b + 1) && m == MergedMax(a, b, sum)
    ensures PowerOfTwo(m + 1)
  {
    var c := if b > a then b else a;
    if sum > c { Doubled(c, m); }
  }

  datatype Foreign = Nobody | Foreign(from: array<Entry?>, t: Table)

  /** The buckets and the entries are as the table says. */
  ghost predicate Readable(from: array<Entry?>, t: Table)
    reads from, t.mem.Keys
  {
    from[..] == t.heads && forall l {:trigger Lifted(l)} :: Lifted(l) ==> Holds(t.mem)
  }

  class HashTable {
    var slots: array<Entry?>
    var max: nat
    var count: nat
    var free: Entry?
    const hash: Hash

    ghost var entries: set<Entry>
    ghost var chains: seq<seq<Entry>>
    ghost var owner: map<Key, Entry>
    ghost var recycled: seq<Entry>

    ghost function Mem(): Mem
      reads this`entries, entries
    {
      map e | e in entries :: Cell(e.next, e.hash, e.key, e.val)
    }

    ghost function State(): Table
      reads this`slots, this`free, this`chains, this`owner, this`recycled, this`entries, slots, entries
    {
      Table(slots[..], Mem(), free, chains, owner, recycled)
    }

    /** The structural part; count may be one ahead of max in the middle of a set. */
    ghost predicate Sound()
      reads this, slots, entries
    {
      forall l {:trigger Lifted(l)} :: Lifted(l) ==> Sized(State(), hash, max + 1, count)
    }

    lemma SoundMeans()
      requires Sound()
      ensures Sized(State(), hash, max + 1, count)
    {
      assert Lifted(Latch);
    }

    ghost predicate Valid()
      reads this, slots, entries
    {
      Sound() && count <= max && PowerOfTwo(max + 1)
    }

    ghost function Map(): map<Key, Value>
      reads this`slots, this`free, this`chains, this`owner, this`recycled, this`entries, slots, entries
    {
      Contents(State())
    }

    /** Another table that is only read here: its buckets and entries stay as they are. */
    ghost predicate Steady(f: Foreign)
      reads this`slots, this`entries, if f.Foreign? then {f.from} else {}, if f.Foreign? then f.t.mem.Keys else {}
    {
      f.Foreign? ==> f.from != slots && Readable(f.from, f.t) && forall l {:trigger Lifted(l)} :: Lifted(l) ==> Away(f.t.mem)
    }

    lemma SteadyMeans(f: Foreign)
      requires Steady(f) && f.Foreign?
      ensures Away(f.t.mem) && Holds(f.t.mem)
    {
      assert Lifted(Latch);
    }

    /** The invariant of another table, handed on while its entries are read. */
    static ghost predicate Firm(t: Table, h: Hash)
    {
      |t.heads| == |t.chains| && forall l {:trigger Lifted(l)} :: Lifted(l) ==> Inv(t, h)
    }

    static lemma FirmMeans(t: Table, h: Hash)
      requires Firm(t, h)
      ensures Inv(t, h)
    {
      assert Lifted(Latch);
    }

    /** This table's entries are its own. */
    ghost predicate Away(mem: Mem)
      reads this`entries
    {
      forall e :: e in entries ==> e !in mem
    }

    // ---- assignments ----

    method SetHead(b: nat, e: Entry?, ghost f: Foreign := Nobody)
      requires Steady(f)
      requires b < slots.Length
      modifies slots
      ensures State() == old(State()).(heads := old(State()).heads[b := e])
      ensures count == old(count) && max == old(max) && slots == old(slots)
      ensures Steady(f)
    {
      slots[b] := e;
    }

    method SetNext(p: Entry, e: Entry?, ghost f: Foreign := Nobody)
      requires Steady(f)
      requires p in entries
      modifies p
      ensures p in old(State()).mem && State() == old(State()).(mem := old(State()).mem[p := old(State()).mem[p].(next := e)])
      ensures count == old(count) && max == old(max) && slots == old(slots)
      ensures Steady(f)
    {
      if f.Foreign? { SteadyMeans(f); }
      p.next := e;
    }

    method SetValue(p: Entry, val: Value, ghost f: Foreign := Nobody)
      requires Steady(f)
      requires p in entries
      modifies p
      ensures p in old(State()).mem && State() == SetVal(old(State()), p, val)
      ensures count == old(count) && max == old(max) && slots == old(slots)
      ensures Steady(f)
    {
      if f.Foreign? { SteadyMeans(f); }
      p.val := val;
    }

    /** The assignment through the cursor: to the bucket, or to the entry before. */
    method Assign(b: nat, prev: Entry?, e: Entry?, ghost i: nat, ghost f: Foreign := Nobody)
      requires Steady(f)
      requires b < slots.Length && b < |chains| && i <= |chains[b]| && (if i == 0 then prev == null else prev == chains[b][i - 1] && prev in entries)
      modifies slots, prev
      ensures State() == Point(old(State()), b, i, e)
      ensures count == old(count) && max == old(max) && slots == old(slots)
      ensures Steady(f)
    {
      if prev == null {
        SetHead(b, e, f);
      } else {
        SetNext(prev, e, f);
      }
    }

    method SetCount(n: nat, ghost f: Foreign := Nobody)
      requires Steady(f)
      modifies this`count
      ensures count == n && State() == old(State()) && Map() == old(Map())
      ensures max == old(max) && slots == old(slots) && entries == old(entries) && chains == old(chains)
      ensures Steady(f)
    {
      count := n;
    }

    // ---- find_entry ----

    /** The search: the entry that holds the key, or null with the cursor at the end of the chain. */
    method Scan(key: Key) returns (b: nat, prev: Entry?, he: Entry?, ghost i: nat)
      requires Sound()
      ensures b < |slots[..]| && b == hash(key) % (max + 1) && b < |chains| && i <= |chains[b]|
      ensures he == At(chains[b], i) && (if i == 0 then prev == null else prev == chains[b][i - 1] && prev in entries)
      ensures he != null ==> key in owner && owner[key] == he && he in entries
      ensures he == null ==> key !in owner && i == |chains[b]|
      ensures Sound() && State() == old(State())
    {
      SoundMeans();
      b := hash(key) % (max + 1);
      prev, he, i := null, slots[b], 0;
      ghost var t := State();
      assert Bucket(t, hash, b);
      ChainLive(t, hash, b);
      while he != null && !(he.hash == hash(key) && he.key == key)
        invariant i <= |chains[b]| && he == At(chains[b], i)
        invariant if i == 0 then prev == null else prev == chains[b][i - 1] && prev in entries
        invariant forall j :: 0 <= j < i ==> t.mem[chains[b][j]].key != key
        decreases |chains[b]| - i
      {
        LinkedIn(t.mem, chains[b], slots[b], i);
        FindHit(t, hash, b, i);
        assert Placed(t, hash, b, he);
        prev, he, i := he, he.next, i + 1;
      }
      if he == null {
        FindMiss(t, hash, key);
      } else {
        FindHit(t, hash, b, i);
      }
    }

    method FillEntry(he: Entry, key: Key, val: Value)
      requires he in entries
      modifies he
      ensures State() == Fill(old(State()), he, hash(key), key, val)
      ensures count == old(count) && max == old(max) && slots == old(slots)
    {
      he.next, he.hash, he.key, he.val := null, hash(key), key, val;
    }

    method PopFree() returns (he: Entry)
      requires free != null && free in entries && recycled != []
      modifies this`free, this`recycled
      ensures he == old(free) && State() == Popped(old(State()))
      ensures count == old(count) && max == old(max) && slots == old(slots)
    {
      he := free;
      free := he.next;
      recycled := recycled[1..];
    }

    method NewEntry(key: Key, val: Value, ghost f: Foreign := Nobody) returns (he: Entry)
      requires Steady(f)
      modifies this`entries
      ensures fresh(he) && he !in old(entries) && entries == old(entries) + {he}
      ensures State() == Fill(old(State()), he, hash(key), key, val)
      ensures count == old(count) && max == old(max) && slots == old(slots)
      ensures Steady(f)
    {
      if f.Foreign? { SteadyMeans(f); }
      he := new Entry(hash(key), key, val);
      entries := entries + {he};
    }

    /** An entry for a new key: a recycled one if there is one, else a fresh one. */
    method TakeEntry(key: Key, val: Value) returns (he: Entry, ghost t: Table)
      requires Inv(State(), hash)
      modifies this`free, this`recycled, this`entries, entries
      ensures he in entries && entries >= old(entries) && (forall e :: e in entries && e !in old(entries) ==> fresh(e))
      ensures Taken(old(State()), t, hash, he)
      ensures State() == Fill(t, he, hash(key), key, val)
      ensures count == old(count) && max == old(max) && slots == old(slots)
    {
      t := State();
      if free != null {
        PopInv(t, hash);
        he := PopFree();
        t := Popped(t);
        FillEntry(he, key, val);
      } else {
        he := NewEntry(key, val);
        FreshLoose(t, hash, he);
      }
    }

    ghost predicate Taken(t: Table, t': Table, h: Hash, he: Entry)
    {
      Inv(t', h) && Loose(t', he) && Contents(t') == Contents(t) && t'.owner == t.owner && t'.chains == t.chains && t'.heads == t.heads
    }

    ghost method RecordAppend(b: nat, he: Entry, key: Key, f: Foreign := Nobody)
      requires Steady(f)
      requires b < |chains|
      modifies this`chains, this`owner
      ensures State() == Appended(old(State()), b, he, key)
      ensures Steady(f)
    {
      chains := chains[b := chains[b] + [he]];
      owner := owner[key := he];
    }

    lemma AppendSound(t0: Table, t: Table, t': Table, h: Hash, he: Entry, key: Key, val: Value)
      requires Taken(t0, t, h, he) && key !in t.owner && t' == Append(t, h, he, key, val)
      ensures Sized(t', h, |t0.heads|, |t0.owner| + 1) && Contents(t') == Contents(t0)[key := val]
    {
      AppendInv(t, h, he, key, val);
      AppendContents(t, h, he, key, val);
    }

    method LinkNew(key: Key, val: Value, he: Entry, b: nat, prev: Entry?, ghost i: nat, ghost t: Table, ghost f: Foreign := Nobody)
      requires Steady(f)
      requires State() == Fill(t, he, hash(key), key, val) && he in entries
      requires b < slots.Length && b < |chains| && i == |chains[b]|
      requires if i == 0 then prev == null else prev == chains[b][i - 1] && prev in t.mem && prev in entries
      modifies this`chains, this`owner, slots, prev
      ensures State() == AppendAt(t, b, hash(key), he, key, val)
      ensures count == old(count) && max == old(max) && slots == old(slots)
      ensures Steady(f)
    {
      Assign(b, prev, he, i, f);
      RecordAppend(b, he, key, f);
    }

    method AddTaken(key: Key, val: Value, he: Entry, b: nat, prev: Entry?, ghost i: nat, ghost t0: Table, ghost t: Table)
      requires State() == Fill(t, he, hash(key), key, val) && Taken(t0, t, hash, he) && key !in t.owner && he in entries
      requires b < slots.Length && b < |chains| && i == |chains[b]| && b == hash(key) % slots.Length
      requires if i == 0 then prev == null else prev == chains[b][i - 1] && prev in entries
      modifies this`chains, this`owner, slots, prev
      ensures Sized(State(), hash, |t0.heads|, |t0.owner| + 1) && Map() == Contents(t0)[key := val] && entries == old(entries)
      ensures count == old(count) && max == old(max) && slots == old(slots)
    {
      LastKnown(t, hash, b);
      LinkNew(key, val, he, b, prev, i, t);
      AppendSound(t0, t, State(), hash, he, key, val);
    }

    /** A new entry behind the i entries of chain b; the caller counts it. */
    method AddEntry(key: Key, val: Value, b: nat, prev: Entry?, ghost i: nat)
      requires Inv(State(), hash) && slots.Length == max + 1 && key !in owner && b == hash(key) % (max + 1) && b < |chains| && i == |chains[b]|
      requires if i == 0 then prev == null else prev == chains[b][i - 1] && prev in entries
      modifies this`free, this`recycled, this`entries, this`chains, this`owner, slots, entries
      ensures Sized(State(), hash, max + 1, |old(owner)| + 1) && Map() == old(Map())[key := val]
      ensures entries >= old(entries) && (forall e :: e in entries && e !in old(entries) ==> fresh(e))
      ensures count == old(count) && max == old(max) && slots == old(slots)
    {
      ghost var t0, t := State(), State();
      var he;
      he, t := TakeEntry(key, val);
      AddTaken(key, val, he, b, prev, i, t0, t);
    }

    method CountEntry(key: Key, val: Value, b: nat, prev: Entry?, ghost i: nat)
      requires Sound() && key !in owner && b == hash(key) % (max + 1) && b < |chains| && i == |chains[b]|
      requires if i == 0 then prev == null else prev == chains[b][i - 1] && prev in entries
      modifies this`free, this`recycled, this`entries, this`chains, this`owner, this`count, slots, entries
      ensures Sound() && Map() == old(Map())[key := val] && count == old(count) + 1
      ensures forall e :: e in entries && e !in old(entries) ==> fresh(e)
      ensures max == old(max) && slots == old(slots)
    {
      SoundMeans();
      AddEntry(key, val, b, prev, i);
      SetCount(count + 1);
    }

    method PushFree(he: Entry)
      requires he in entries
      modifies he, this`free
      ensures he in old(State()).mem && State() == Recycle(old(State()), he)
      ensures count == old(count) && max == old(max) && slots == old(slots)
    {
      he.next := free;
      free := he;
    }

    ghost method RecordUnlink(b: nat, i: nat, key: Key)
      requires b < |chains| && i < |chains[b]|
      modifies this`chains, this`owner, this`recycled
      ensures State() == old(State()).(chains := chains, owner := owner, recycled := recycled)
      ensures chains == old(chains)[b := Without(old(chains)[b], i)] && owner == old(owner) - {key} && recycled == [old(chains)[b][i]] + old(recycled)
    {
      recycled := [chains[b][i]] + recycled;
      chains := chains[b := Without(chains[b], i)];
      owner := owner - {key};
    }

    lemma UnlinkSound(t: Table, t': Table, h: Hash, b: nat, i: nat, key: Key)
      requires Inv(t, h) && b < |t.chains| && i < |t.chains[b]| && key in t.owner && t.owner[key] == t.chains[b][i]
      requires t' == Unlink(t, h, b, i)
      ensures Sized(t', h, |t.heads|, |t.owner| - 1) && Contents(t') == Contents(t) - {key}
    {
      UnlinkInv(t, h, b, i);
      UnlinkContents(t, h, b, i);
      assert Owned(t, h, key);
    }

    lemma KeyOfOwner(t: Table, h: Hash, k: Key)
      requires Inv(t, h) && k in t.owner
      ensures t.owner[k] in t.mem && t.mem[t.owner[k]].key == k
    {
      assert Owned(t, h, k);
    }

    ghost predicate Unlinked(t: Table, t': Table, b: nat, i: nat)
    {
      && b < |t.heads| && b < |t.chains| && i < |t.chains[b]| && t.chains[b][i] in t.mem && (i > 0 ==> t.chains[b][i - 1] in t.mem)
      && t' == UnlinkAt(t, b, i)
    }

    method CutOut(key: Key, he: Entry, b: nat, prev: Entry?, ghost i: nat)
      requires he in entries && b < slots.Length && b < |chains| && i < |chains[b]| && chains[b][i] == he && he.key == key
      requires if i == 0 then prev == null else prev == chains[b][i - 1] && prev in entries
      modifies this`free, this`recycled, this`chains, this`owner, slots, prev, he
      ensures Unlinked(old(State()), State(), b, i)
      ensures count == old(count) && max == old(max) && slots == old(slots)
    {
      Assign(b, prev, he.next, i);
      PushFree(he);
      RecordUnlink(b, i, key);
    }

    method CutSound(key: Key, he: Entry, b: nat, prev: Entry?, ghost i: nat)
      requires Inv(State(), hash) && slots.Length == max + 1 && key in owner && owner[key] == he && he in entries
      requires b < |chains| && i < |chains[b]| && chains[b][i] == he
      requires if i == 0 then prev == null else prev == chains[b][i - 1] && prev in entries
      modifies this`free, this`recycled, this`chains, this`owner, slots, entries
      ensures Sized(State(), hash, max + 1, |old(owner)| - 1) && Map() == old(Map()) - {key} && Unlinked(old(State()), State(), b, i)
      ensures count == old(count) && max == old(max) && slots == old(slots)
    {
      ghost var t := State();
      KeyOfOwner(t, hash, key);
      CutOut(key, he, b, prev, i);
      UnlinkSound(t, State(), hash, b, i, key);
    }

    method RemoveEntry(key: Key, he: Entry, b: nat, prev: Entry?, ghost i: nat)
      requires Sound() && key in owner && owner[key] == he && he in entries && b < |chains| && i < |chains[b]| && chains[b][i] == he
      requires if i == 0 then prev == null else prev == chains[b][i - 1] && prev in entries
      modifies this`free, this`recycled, this`chains, this`owner, this`count, slots, entries
      ensures Sound() && Map() == old(Map()) - {key} && count == old(count) - 1 && Unlinked(old(State()), State(), b, i)
      ensures max == old(max) && slots == old(slots)
    {
      SoundMeans();
      CutSound(key, he, b, prev, i);
      SetCount(count - 1);
    }

    // ---- expand_array ----

    /** One entry, to the front of its bucket in the new array. */
    method MoveEntry(e: Entry, i: nat, newSlots: array<Entry?>, ghost newChains: seq<seq<Entry>>) returns (ghost newChains': seq<seq<Entry>>)
      requires e in entries && i < newSlots.Length == |newChains| && newSlots != slots
      modifies e, newSlots
      ensures e in old(Mem()) && Build(Mem(), newSlots[..], newChains') == MoveOne(Build(old(Mem()), old(newSlots[..]), newChains), e, i)
    {
      e.next := newSlots[i];
      newSlots[i] := e;
      newChains' := newChains[i := [e] + newChains[i]];
    }

    ghost predicate MovedSoFar(t: Table, newSlots: array<Entry?>, newChains: seq<seq<Entry>>, done: seq<Entry>)
      reads this`entries, entries, newSlots
    {
      |newChains| == newSlots.Length && forall l {:trigger Lifted(l)} :: Lifted(l) ==> Moving(t, Build(Mem(), newSlots[..], newChains), done)
    }

    lemma MovedMeans(t: Table, newSlots: array<Entry?>, newChains: seq<seq<Entry>>, done: seq<Entry>)
      requires MovedSoFar(t, newSlots, newChains, done)
      ensures Moving(t, Build(Mem(), newSlots[..], newChains), done)
    {
      assert Lifted(Latch);
    }

    ghost predicate MoveState(it: HashIndex, t: Table, newSlots: array<Entry?>, newChains: seq<seq<Entry>>, done: seq<Entry>, more: bool)
      reads this`entries, entries, newSlots, it
    {
      && it.Walking(Mem(), t.heads, t.chains) && MovedSoFar(t, newSlots, newChains, done)
      && (if more then it.self != null && Flat(t.chains, 0) == done + [it.self] + it.Rest(t.chains)
          else Flat(t.chains, 0) == done)
    }

    lemma Middle(t: Table, h: Hash, done: seq<Entry>, e: Entry, rest: seq<Entry>)
      requires Inv(t, h) && Flat(t.chains, 0) == done + [e] + rest
      ensures e !in done && e !in rest && Live(t, e)
    {
      var s := done + [e] + rest;
      FlatNoDup(t, h, 0);
      FlatLive(t, h, e);
      assert s[|done|] == e;
      forall i | 0 <= i < |done| ensures done[i] != e { assert s[i] == done[i]; }
      forall i | 0 <= i < |rest| ensures rest[i] != e { assert s[|done| + 1 + i] == rest[i]; }
    }

    static lemma Shift(done: seq<Entry>, rest: seq<Entry>)
      ensures if rest != [] then done + rest == done + [rest[0]] + rest[1..] else done + rest == done
    {
      if rest != [] {
        assert rest == [rest[0]] + rest[1..];
      }
    }

    method Step(it: HashIndex, ghost t: Table, ghost done: seq<Entry>, ghost rest: seq<Entry>) returns (more: bool)
      requires it.Walking(Mem(), t.heads, t.chains) && t.heads == slots[..] && rest == it.Rest(t.chains) && Flat(t.chains, 0) == done + rest
      modifies it
      ensures it.Walking(Mem(), t.heads, t.chains)
      ensures if more then it.self != null && Flat(t.chains, 0) == done + [it.self] + it.Rest(t.chains) else Flat(t.chains, 0) == done
    {
      Shift(done, rest);
      more := it.Next(slots, Mem(), t.chains);
    }

    method MoveNext(it: HashIndex, ghost t: Table, newSlots: array<Entry?>, ghost newChains: seq<seq<Entry>>, ghost done: seq<Entry>)
      returns (more: bool, ghost newChains': seq<seq<Entry>>)
      requires MoveState(it, t, newSlots, newChains, done, true) && t.heads == slots[..] && newSlots != slots && Firm(t, hash)
      modifies it, newSlots, entries
      ensures MoveState(it, t, newSlots, newChains', done + [old(it.self)], more) && t.heads == slots[..]
    {
      ghost var rest := it.Rest(t.chains);
      ghost var e: Entry := it.self;
      newChains' := MoveThis(it, t, newSlots, newChains, done);
      more := Step(it, t, done + [e], rest);
    }

    /** The entry the walk has reached; the walk itself stays where it is. */
    method MoveThis(it: HashIndex, ghost t: Table, newSlots: array<Entry?>, ghost newChains: seq<seq<Entry>>, ghost done: seq<Entry>)
      returns (ghost newChains': seq<seq<Entry>>)
      requires MoveState(it, t, newSlots, newChains, done, true) && newSlots != slots && Firm(t, hash)
      modifies newSlots, entries
      ensures it.Walking(Mem(), t.heads, t.chains) && MovedSoFar(t, newSlots, newChains', done + [it.self])
      ensures slots[..] == old(slots[..])
    {
      FirmMeans(t, hash);
      MovedMeans(t, newSlots, newChains, done);
      ghost var w := Build(Mem(), newSlots[..], newChains);
      ghost var e: Entry := it.self;
      Middle(t, hash, done, e, it.Rest(t.chains));
      MoveStep(t, w, done, e);
      newChains' := MoveEntry(it.self, it.self.hash % newSlots.Length, newSlots, newChains);
      WalkOn(w.mem, Mem(), t.heads, t.chains, it.run, it.next, it.index, e);
    }

    lemma HeadsLinked(t: Table, h: Hash)
      requires Inv(t, h)
      ensures forall b {:trigger t.chains[b]} :: 0 <= b < |t.heads| ==> Linked(t.mem, t.chains[b], t.heads[b])
    {
      forall b {:trigger t.chains[b]} | 0 <= b < |t.heads| ensures Linked(t.mem, t.chains[b], t.heads[b]) { assert Bucket(t, h, b); }
    }

    method MoveFirst(newSlots: array<Entry?>, ghost t: Table) returns (it: HashIndex, more: bool, ghost newChains: seq<seq<Entry>>)
      requires t == State() && Firm(t, hash) && newSlots.Length > 0 && forall i :: 0 <= i < newSlots.Length ==> newSlots[i] == null
      ensures fresh(it) && |newChains| == newSlots.Length && MoveState(it, t, newSlots, newChains, [], more)
    {
      FirmMeans(t, hash);
      newChains := seq(newSlots.Length, i => []);
      HeadsLinked(t, hash);
      MoveStart(t, newSlots[..], newChains);
      it := new HashIndex(t.mem, t.heads, t.chains);
      more := Step(it, t, [], Flat(t.chains, 0));
    }

    method MoveAll(newSlots: array<Entry?>) returns (ghost newChains: seq<seq<Entry>>)
      requires Firm(State(), hash) && newSlots != slots && newSlots.Length > 0 && forall i :: 0 <= i < newSlots.Length ==> newSlots[i] == null
      modifies newSlots, entries
      ensures |newChains| == newSlots.Length && slots[..] == old(slots[..])
      ensures MovedSoFar(old(State()), newSlots, newChains, Flat(old(State()).chains, 0))
    {
      ghost var t, done: seq<Entry> := State(), [];
      var it, more;
      it, more, newChains := MoveFirst(newSlots, t);
      while more
        invariant MoveState(it, t, newSlots, newChains, done, more) && t.heads == slots[..]
        decreases |Flat(t.chains, 0)| - |done|, more
      {
        ghost var e: Entry := it.self;
        more, newChains := MoveNext(it, t, newSlots, newChains, done);
        done := done + [e];
      }
    }

    lemma GrownSound(t: Table, t': Table, h: Hash, w: Build)
      requires Firm(t, h) && Moving(t, w, Flat(t.chains, 0)) && t' == Grown(t, w)
      ensures Sized(t', h, |w.heads|, |t.owner|) && Contents(t') == Contents(t)
    {
      FirmMeans(t, h);
      forall e ensures e in Flat(t.chains, 0) <==> Live(t, e) { FlatLive(t, h, e); }
      GrownInv(t, h, w, Flat(t.chains, 0));
      GrownContents(t, h, w, Flat(t.chains, 0));
    }

    lemma SoundFirm()
      requires Sound()
      ensures Firm(State(), hash) && slots.Length == max + 1 && |owner| == count
    {
      SoundMeans();
    }

    method SetSlots(newSlots: array<Entry?>, newMax: nat, ghost newChains: seq<seq<Entry>>)
      modifies this`slots, this`max, this`chains
      ensures State() == old(State()).(heads := newSlots[..], chains := newChains)
      ensures max == newMax && slots == newSlots && count == old(count) && entries == old(entries) && Mem() == old(Mem())
    {
      slots, max, chains := newSlots, newMax, newChains;
    }

    /** The new array in place of the old one. */
    method Adopt(newSlots: array<Entry?>, newMax: nat, ghost newChains: seq<seq<Entry>>, ghost t: Table)
      requires Firm(t, hash) && newSlots.Length == newMax + 1 && State() == t.(mem := Mem()) && |t.owner| == count
      requires MovedSoFar(t, newSlots, newChains, Flat(t.chains, 0))
      modifies this`slots, this`max, this`chains
      ensures Sound() && Map() == Contents(t) && max == newMax && slots == newSlots && count == old(count) && entries == old(entries)
    {
      MovedMeans(t, newSlots, newChains, Flat(t.chains, 0));
      ghost var w := Build(Mem(), newSlots[..], newChains);
      SetSlots(newSlots, newMax, newChains);
      GrownSound(t, State(), hash, w);
    }

    /** Twice the buckets, the same map. */
    method ExpandArray()
      requires Sound()
      modifies this`slots, this`max, this`chains, entries
      ensures Sound() && Map() == old(Map()) && max == 2 * old(max) + 1 && count == old(count) && entries == old(entries) && fresh(slots)
    {
      SoundFirm();
      ghost var t := State();
      var newMax := max * 2 + 1;
      var newSlots := new Entry?[newMax + 1](_ => null);
      ghost var newChains := MoveAll(newSlots);
      Adopt(newSlots, newMax, newChains, t);
    }

    // ---- the map operations ----

    method Get(key: Key) returns (r: Option<Value>)
      requires Valid()
      ensures r == if key in Map() then Some(Map()[key]) else None
    {
      SoundMeans();
      var b, prev, he, i := Scan(key);
      ContentsKeys(State(), hash, key);
      r := if he == null then None else Some(he.val);
    }

    lemma SetValSound(t: Table, t': Table, h: Hash, key: Key, val: Value)
      requires Inv(t, h) && key in t.owner && t.owner[key] in t.mem && t' == SetVal(t, t.owner[key], val)
      ensures Sized(t', h, |t.heads|, |t.owner|) && Contents(t') == Contents(t)[key := val]
    {
      assert Owned(t, h, key);
      SetValInv(t, h, t.owner[key], val);
      SetValContents(t, h, t.owner[key], val);
    }

    method ReplaceValue(key: Key, he: Entry, val: Value, ghost f: Foreign := Nobody)
      requires Steady(f)
      requires Sound() && key in owner && owner[key] == he && he in entries
      modifies he
      ensures Sound() && Map() == old(Map())[key := val]
      ensures count == old(count) && max == old(max) && slots == old(slots)
      ensures Steady(f)
    {
      SoundMeans();
      ghost var t := State();
      SetValue(he, val, f);
      SetValSound(t, State(), hash, key, val);
    }

    /** Stores or replaces; a new key may leave one entry too many. */
    method Store(key: Key, val: Value)
      requires Sound()
      modifies this`free, this`recycled, this`entries, this`chains, this`owner, this`count, slots, entries
      ensures Sound() && Map() == old(Map())[key := val] && count <= old(count) + 1 && (forall e :: e in entries && e !in old(entries) ==> fresh(e))
      ensures max == old(max) && slots == old(slots)
    {
      SoundMeans();
      var b, prev, he, i := Scan(key);
      if he == null {
        CountEntry(key, val, b, prev, i);
        return;
      }
      ReplaceValue(key, he, val);
    }

    method Put(key: Key, val: Value)
      requires Valid()
      modifies this, slots, entries
      ensures Valid() && Map() == old(Map())[key := val] && (forall e :: e in entries && e !in old(entries) ==> fresh(e))
      ensures slots == old(slots) || fresh(slots)
    {
      Store(key, val);
      if count > max {
        ghost var was := max;
        ExpandArray();
        Doubled(was, max);
      }
    }

    /** When the key is there, b and i say where its entry was. */
    method Delete(key: Key) returns (ghost b: nat, ghost i: nat)
      requires Sound()
      modifies this`free, this`recycled, this`chains, this`owner, this`count, slots, entries
      ensures Sound() && Map() == old(Map()) - {key} && count <= old(count)
      ensures key in old(owner) ==> Unlinked(old(State()), State(), b, i) && old(chains)[b][i] == old(owner)[key]
      ensures max == old(max) && slots == old(slots)
    {
      SoundMeans();
      var b', prev, he, i' := Scan(key);
      b, i := b', i';
      ContentsKeys(State(), hash, key);
      if he != null {
        RemoveEntry(key, he, b', prev, i);
      }
    }

    /** A value stores or replaces; no value deletes, and does nothing for a missing key. */
    method Set(key: Key, val: Option<Value>)
      requires Valid()
      modifies this, slots, entries
      ensures Valid() && Map() == if val.Some? then old(Map())[key := val.value] else old(Map()) - {key}
      ensures (forall e :: e in entries && e !in old(entries) ==> fresh(e)) && (slots == old(slots) || fresh(slots))
    {
      match val
      case None =>
        ghost var b, i := Delete(key);
      case Some(v) => Put(key, v);
    }

    // ---- clear ----

    /** Deleting the entry that the walk has just reached leaves the rest of the walk as it was. */
    lemma DropFirst(t: Table, t': Table, h: Hash, b: nat, i: nat, run: seq<Entry>, next: Entry?, index: nat)
      requires Inv(t, h) && Unlinked(t, t', b, i) && index <= |t.chains| && Linked(t.mem, run, next)
      requires Flat(t.chains, 0) == [t.chains[b][i]] + (run + Flat(t.chains, index))
      ensures Linked(t'.mem, run, next) && Flat(t'.chains, 0) == run + Flat(t'.chains, index) && |Flat(t'.chains, 0)| == |Flat(t.chains, 0)| - 1
      ensures |t'.heads| == |t'.chains| == |t.chains|
      ensures forall c {:trigger t'.chains[c]} :: index <= c < |t'.heads| ==> Linked(t'.mem, t'.chains[c], t'.heads[c])
    {
      var e, rest := t.chains[b][i], run + Flat(t.chains, index);
      FlatNoDup(t, h, 0);
      assert Flat(t.chains, 0)[0] == e && Flat(t.chains, 0)[1..] == rest;
      FlatDropFirst(t.chains, 0, b, i);
      Middle(t, h, [], e, rest);
      HeadsLinked(t, h);
      WalkOn(t.mem, t'.mem, t.heads, t.chains, run, next, index, e);
      if index <= b { FlatIn(t.chains, index, b, e); }
      FlatSame(t.chains, t'.chains, index);
    }

    ghost predicate Clearing(it: HashIndex, more: bool)
      reads this`slots, this`entries, this`chains, slots, entries, it
    {
      && it.Walking(Mem(), slots[..], chains)
      && (if more then it.self != null && Flat(chains, 0) == [] + [it.self] + it.Rest(chains) else Flat(chains, 0) == [])
    }

    method DropCurrent(it: HashIndex)
      requires Sound() && Clearing(it, true)
      modifies this`free, this`recycled, this`chains, this`owner, this`count, slots, entries
      ensures Sound() && it.Walking(Mem(), slots[..], chains) && Flat(chains, 0) == it.Rest(chains)
      ensures |recycled| == |old(recycled)| + 1 && |Flat(chains, 0)| == |Flat(old(chains), 0)| - 1
      ensures max == old(max) && slots == old(slots)
    {
      SoundMeans();
      ghost var t, rest := State(), it.Rest(chains);
      ghost var e: Entry := it.self;
      assert [] + [e] + rest == [e] + rest;
      Middle(t, hash, [], e, rest);
      ghost var b, i := Delete(it.self.key);
      DropFirst(t, State(), hash, b, i, it.run, it.next, it.index);
    }

    method ClearNext(it: HashIndex) returns (more: bool)
      requires Sound() && Clearing(it, true)
      modifies this`free, this`recycled, this`chains, this`owner, this`count, slots, entries, it
      ensures Sound() && Clearing(it, more) && |recycled| == |old(recycled)| + 1 && |Flat(chains, 0)| == |Flat(old(chains), 0)| - 1
      ensures max == old(max) && slots == old(slots)
    {
      DropCurrent(it);
      more := Step(it, State(), [], it.Rest(chains));
    }

    method ClearFirst() returns (it: HashIndex, more: bool)
      requires Inv(State(), hash)
      ensures fresh(it) && Clearing(it, more)
    {
      HeadsLinked(State(), hash);
      it := new HashIndex(Mem(), slots[..], chains);
      more := Step(it, State(), [], Flat(chains, 0));
    }

    /** Deletes every entry while walking over them: nothing is left, and all entries are recycled. */
    method Clear()
      requires Valid()
      modifies this`free, this`recycled, this`chains, this`owner, this`count, slots, entries
      ensures Valid() && Map() == map[] && count == 0 && |recycled| == |old(recycled)| + old(count)
    {
      SoundMeans();
      ghost var t := State();
      FlatCount(t, hash);
      var it, more := ClearFirst();
      while more
        invariant Sound() && Clearing(it, more) && |recycled| + |Flat(chains, 0)| == |t.recycled| + |t.owner|
        decreases |Flat(chains, 0)|
      {
        more := ClearNext(it);
      }
      SoundMeans();
      FlatCount(State(), hash);
    }

    /** The empty table. */
    static method Make(hash: Hash) returns (ht: HashTable)
      ensures fresh(ht) && fresh(ht.slots) && ht.entries == {} && ht.max == 15
      ensures ht.Valid() && ht.Map() == map[] && ht.hash == hash
    {
      ht := new HashTable(INITIAL_MAX, hash);
      assert Pow2(4) == INITIAL_MAX + 1;
    }

    // ---- merge ----

    constructor (max: nat, hash: Hash, ghost f: Foreign := Nobody)
      requires f.Foreign? ==> Readable(f.from, f.t)
      ensures Steady(f)
      ensures Sound() && Map() == map[] && entries == {} && owner == map[] && this.max == max && this.hash == hash && count == 0 && fresh(slots)
      ensures free == null && |chains| == max + 1 && Blank(0)
    {
      this.max, this.hash, count, free := max, hash, 0, null;
      slots := new Entry?[max + 1](_ => null);
      entries, owner, recycled := {}, map[], [];
      chains := seq(max + 1, b => []);
      new;
      EmptyInv(State(), hash);
    }

    lemma EmptyInv(t: Table, h: Hash)
      requires |t.heads| == |t.chains| > 0 && (forall b :: 0 <= b < |t.heads| ==> t.heads[b] == null && t.chains[b] == [])
      requires t.owner == map[] && t.recycled == [] && t.free == null
      ensures Inv(t, h)
    {
      assert forall b {:trigger Bucket(t, h, b)} :: 0 <= b < |t.heads| ==> Bucket(t, h, b);
    }

    ghost method RecordPush(b: nat, he: Entry, key: Key, f: Foreign := Nobody)
      requires Steady(f)
      requires b < |chains|
      modifies this`chains, this`owner
      ensures State() == old(State()).(chains := old(chains)[b := [he] + old(chains)[b]], owner := old(owner)[key := he])
      ensures Steady(f)
    {
      chains := chains[b := [he] + chains[b]];
      owner := owner[key := he];
    }

    lemma PushSteps(t: Table, b: nat, he: Entry, hv: nat, key: Key, val: Value)
      requires b < |t.heads| && b < |t.chains|
      ensures var t1 := Fill(t, he, hv, key, val);
        var t2 := t1.(mem := t1.mem[he := t1.mem[he].(next := t.heads[b])], heads := t1.heads[b := he]);
        t2.(chains := t.chains[b := [he] + t.chains[b]], owner := t.owner[key := he]) == PushAt(t, b, hv, he, key, val)
    {
    }

    method PushLink(b: nat, hv: nat, key: Key, val: Value, ghost f: Foreign := Nobody) returns (he: Entry)
      requires Steady(f)
      requires b < slots.Length && b < |chains| && hv == hash(key)
      modifies this`entries, this`chains, this`owner, slots
      ensures fresh(he) && he !in old(entries) && entries == old(entries) + {he}
      ensures State() == PushAt(old(State()), b, hv, he, key, val)
      ensures count == old(count) && max == old(max) && slots == old(slots)
      ensures Steady(f)
    {
      ghost var t := State();
      he := NewEntry(key, val, f);
      SetNext(he, slots[b], f);
      SetHead(b, he, f);
      RecordPush(b, he, key, f);
      PushSteps(t, b, he, hv, key, val);
    }

    lemma PushSound(t: Table, t': Table, h: Hash, e: Entry, key: Key, val: Value)
      requires Inv(t, h) && e !in t.mem && key !in t.owner && t' == PushAt(t, h(key) % |t.heads|, h(key), e, key, val)
      ensures Inv(t', h) && |t'.owner| == |t.owner| + 1 && Contents(t') == Contents(t)[key := val]
    {
      FreshLoose(t, h, e);
      PushInv(t, h, e, key, val);
      PushContents(t, h, e, key, val);
    }

    /** A new entry at the front of its chain. */
    method PushFront(b: nat, hv: nat, key: Key, val: Value, ghost f: Foreign := Nobody)
      requires Steady(f)
      requires Inv(State(), hash) && slots.Length == max + 1 && key !in owner && hv == hash(key) && b == hv % (max + 1)
      modifies this`entries, this`chains, this`owner, slots
      ensures Inv(State(), hash) && Map() == old(Map())[key := val] && |owner| == |old(owner)| + 1
      ensures forall e :: e in entries && e !in old(entries) ==> fresh(e)
      ensures count == old(count) && max == old(max) && slots == old(slots)
      ensures Steady(f)
    {
      ghost var t := State();
      var he := PushLink(b, hv, key, val, f);
      PushSound(t, State(), hash, he, key, val);
    }

    lemma BaseStep(t: Table, h: Hash, k: nat, i: nat, done: seq<Entry>, iter: Entry)
      requires Firm(t, h) && Place(t, k, i, done, iter)
      ensures Live(t, iter) && t.mem[iter].hash == h(t.mem[iter].key) && t.mem[iter].key !in Part(t.mem, done)
      ensures Part(t.mem, done + [iter]) == Part(t.mem, done)[t.mem[iter].key := t.mem[iter].val]
      ensures Place(t, k, i + 1, done + [iter], t.mem[iter].next) && |done| < |t.owner|
    {
      FirmMeans(t, h);
      PlaceNext(t, h, k, i, done, iter);
      LiveHashed(t, h, iter);
      PartFresh(t, h, done, iter);
      PartSnoc(t.mem, done, iter);
      FlatCount(t, h);
    }

    /** res holds exactly what of t the walk has passed. */
    ghost predicate Copied(t: Table, done: seq<Entry>)
      reads this, slots, entries
    {
      && |owner| == |done| && |chains| == slots.Length == max + 1
      && forall l {:trigger Lifted(l)} :: Lifted(l) ==> Inv(State(), hash) && Map() == Part(t.mem, done)
    }

    lemma CopiedMeans(t: Table, done: seq<Entry>)
      requires Copied(t, done)
      ensures Inv(State(), hash) && slots.Length == max + 1 && Map() == Part(t.mem, done)
    {
      assert Lifted(Latch);
    }

    method CopyEntry(hv: nat, key: Key, val: Value, ghost t: Table, ghost done: seq<Entry>, ghost iter: Entry, ghost f: Foreign := Nobody)
      requires Steady(f)
      requires Copied(t, done) && hv == hash(key) && key !in Part(t.mem, done) && Part(t.mem, done + [iter]) == Part(t.mem, done)[key := val]
      modifies this`entries, this`chains, this`owner, slots
      ensures Copied(t, done + [iter])
      ensures forall e :: e in entries && e !in old(entries) ==> fresh(e)
      ensures count == old(count) && max == old(max) && slots == old(slots)
      ensures Steady(f)
    {
      CopiedMeans(t, done);
      ContentsKeys(State(), hash, key);
      PushFront(hv % (max + 1), hv, key, val, f);
    }

    /** One entry of the base, copied into this table. */
    method BaseEntry(iter: Entry, ghost t: Table, ghost done: seq<Entry>, ghost k: nat, ghost i: nat, ghost f: Foreign) returns (next: Entry?)
      requires f.Foreign? && f.t == t && Steady(f) && Firm(t, hash) && Place(t, k, i, done, iter) && Copied(t, done)
      modifies this`entries, this`chains, this`owner, slots
      ensures Steady(f) && Place(t, k, i + 1, done + [iter], next) && |done| < |t.owner| && Copied(t, done + [iter])
      ensures forall e :: e in entries && e !in old(entries) ==> fresh(e)
      ensures max == old(max) && slots == old(slots)
    {
      SteadyMeans(f);
      BaseStep(t, hash, k, i, done, iter);
      next := iter.next;
      CopyEntry(iter.hash, iter.key, iter.val, t, done, iter, f);
    }

    lemma FirmPlace(t: Table, h: Hash, k: nat, done: seq<Entry>)
      requires Firm(t, h) && k < |t.chains| && Passed(t, k, done)
      ensures k < |t.heads| && Place(t, k, 0, done, t.heads[k])
    {
      FirmMeans(t, h);
      PlaceStart(t, h, k, done);
    }

    /** One chain of the base. j counts the reserved entries in use; there are room of them. */
    method BaseChain(first: Entry?, k: nat, j0: nat, room: nat, ghost t: Table, ghost done0: seq<Entry>, ghost f: Foreign)
        returns (j: nat, ghost done: seq<Entry>)
      requires f.Foreign? && f.t == t && Steady(f) && Firm(t, hash) && |t.owner| <= room && k < |t.chains| && first == t.heads[k]
      requires Passed(t, k, done0) && Copied(t, done0) && j0 == |done0|
      modifies this`entries, this`chains, this`owner, slots
      ensures Steady(f) && Passed(t, k + 1, done) && Copied(t, done) && j == |done|
      ensures forall e :: e in entries && e !in old(entries) ==> fresh(e)
      ensures max == old(max) && slots == old(slots)
    {
      j, done := j0, done0;
      FirmPlace(t, hash, k, done);
      var iter := first;
      ghost var i := 0;
      while iter != null
        invariant Steady(f) && Place(t, k, i, done, iter) && Copied(t, done) && j == |done|
        invariant forall e :: e in entries && e !in old(entries) ==> fresh(e)
        invariant max == old(max) && slots == old(slots)
        decreases |Flat(t.chains, 0)| - |done|
      {
        ghost var e: Entry := iter;
        iter := BaseEntry(iter, t, done, k, i, f);
        assert j < room;
        done, i, j := done + [e], i + 1, j + 1;
      }
      PlaceEnd(t, k, i, done);
    }

    lemma WalkedAll(t: Table, h: Hash, done: seq<Entry>)
      requires Firm(t, h) && Passed(t, |t.heads|, done)
      ensures Part(t.mem, done) == Contents(t) && |done| == |t.owner|
    {
      FirmMeans(t, h);
      assert done == Flat(t.chains, 0);
      PartAll(t, h);
      FlatCount(t, h);
    }

    /** All chains of the base. */
    method BaseAll(from: array<Entry?>, room: nat, ghost t: Table, ghost f: Foreign) returns (j: nat)
      requires f == Foreign(from, t) && Steady(f) && Firm(t, hash) && |t.owner| <= room && Copied(t, []) && entries == {}
      modifies this`entries, this`chains, this`owner, slots
      ensures Sized(State(), hash, max + 1, |t.owner|) && Map() == Contents(t) && j == |t.owner|
      ensures forall e :: e in entries ==> fresh(e)
      ensures max == old(max) && slots == old(slots)
    {
      ghost var done: seq<Entry> := [];
      j := 0;
      var k := 0;
      var n := from.Length;
      while k < n
        invariant k <= |t.heads| == n && Passed(t, k, done)
        invariant Steady(f) && Copied(t, done)
        invariant j == |done| && |chains| > 0
        invariant forall e :: e in entries ==> fresh(e)
        invariant max == old(max) && slots == old(slots)
      {
        j, done := BaseChain(from[k], k, j, room, t, done, f);
        k := k + 1;
      }
      WalkedAll(t, hash, done);
      CopiedMeans(t, done);
    }

    /** The search of merge, which compares keys only. */
    method FindKey(b: nat, key: Key) returns (ent: Entry?)
      requires Inv(State(), hash) && slots.Length == max + 1 && b == hash(key) % (max + 1)
      ensures if ent == null then key !in owner else key in owner && owner[key] == ent && ent in entries
    {
      ent := slots[b];
      ghost var t, i := State(), 0;
      assert Bucket(t, hash, b);
      ChainLive(t, hash, b);
      while ent != null && ent.key != key
        invariant i <= |chains[b]| && ent == At(chains[b], i) && forall j :: 0 <= j < i ==> t.mem[chains[b][j]].key != key
        decreases |chains[b]| - i
      {
        LinkedIn(t.mem, chains[b], slots[b], i);
        ent, i := ent.next, i + 1;
      }
      if ent == null {
        FindMiss(t, hash, key);
      } else {
        FindHit(t, hash, b, i);
      }
    }

    method PushCounted(b: nat, hv: nat, key: Key, val: Value, ghost f: Foreign := Nobody)
      requires Steady(f)
      requires Sound() && key !in owner && hv == hash(key) && b == hv % (max + 1)
      modifies this`entries, this`chains, this`owner, this`count, slots
      ensures Sound() && Map() == old(Map())[key := val] && count == old(count) + 1
      ensures forall e :: e in entries && e !in old(entries) ==> fresh(e)
      ensures max == old(max) && slots == old(slots)
      ensures Steady(f)
    {
      SoundMeans();
      PushFront(b, hv, key, val, f);
      SetCount(count + 1, f);
    }

    /** Where key is, and what is known of it. */
    method FindOld(b: nat, key: Key) returns (ent: Entry?)
      requires Sound() && b == hash(key) % (max + 1)
      ensures if ent == null then key !in owner && key !in Map()
        else key in owner && owner[key] == ent && ent in entries && key in Map() && Map()[key] == ent.val
    {
      SoundMeans();
      ent := FindKey(b, key);
      ContentsKeys(State(), hash, key);
    }

    /** The overlay's entry for key, written over the base's or added. */
    method OverlayEntry(key: Key, val: Value, m: Option<Merger>, ghost f: Foreign := Nobody)
      requires Steady(f)
      requires Sound()
      modifies this`entries, this`chains, this`owner, this`count, slots, entries
      ensures Sound() && count <= old(count) + 1
      ensures Map() == Overlay(old(Map()), key, val, m)
      ensures forall e :: e in entries && e !in old(entries) ==> fresh(e)
      ensures max == old(max) && slots == old(slots)
      ensures Steady(f)
    {
      var hv := hash(key);
      var i := hv % (max + 1);
      var ent := FindOld(i, key);
      if ent != null {
        ReplaceValue(key, ent, Combine(m, key, val, ent.val), f);
      } else {
        PushCounted(i, hv, key, val, f);
      }
    }

    ghost predicate Overlaid(t: Table, base: map<Key, Value>, done: seq<Entry>, m: Option<Merger>)
      reads this, slots, entries
    {
      && Sound() && count <= |base| + |done|
      && forall l {:trigger Lifted(l)} :: Lifted(l) ==> Map() == Merged(base, Part(t.mem, done), m)
    }

    lemma OverlaidMeans(t: Table, base: map<Key, Value>, done: seq<Entry>, m: Option<Merger>)
      requires Overlaid(t, base, done, m)
      ensures Map() == Merged(base, Part(t.mem, done), m)
    {
      assert Lifted(Latch);
    }

    lemma OverlayStep(t: Table, h: Hash, base: map<Key, Value>, m: Option<Merger>, k: nat, i: nat, done: seq<Entry>, iter: Entry)
      requires Firm(t, h) && Place(t, k, i, done, iter)
      ensures Live(t, iter) && Place(t, k, i + 1, done + [iter], t.mem[iter].next) && |done| < |t.owner|
      ensures var key, val, r := t.mem[iter].key, t.mem[iter].val, Merged(base, Part(t.mem, done), m);
        Merged(base, Part(t.mem, done + [iter]), m) == Overlay(r, key, val, m)
    {
      FirmMeans(t, h);
      BaseStep(t, h, k, i, done, iter);
      MergedNew(base, Part(t.mem, done), m, t.mem[iter].key, t.mem[iter].val);
    }

    method OverlayOne(iter: Entry, m: Option<Merger>, ghost h: Hash, ghost t: Table, ghost base: map<Key, Value>, ghost done: seq<Entry>,
                      ghost k: nat, ghost i: nat, ghost f: Foreign) returns (next: Entry?)
      requires f.Foreign? && f.t == t && Steady(f) && Firm(t, h) && Place(t, k, i, done, iter) && Overlaid(t, base, done, m)
      modifies this`entries, this`chains, this`owner, this`count, slots, entries
      ensures Steady(f) && Place(t, k, i + 1, done + [iter], next) && |done| < |t.owner| && Overlaid(t, base, done + [iter], m)
      ensures forall e :: e in entries && e !in old(entries) ==> fresh(e)
      ensures max == old(max) && slots == old(slots)
    {
      SteadyMeans(f);
      OverlaidMeans(t, base, done, m);
      OverlayStep(t, h, base, m, k, i, done, iter);
      next := iter.next;
      OverlayEntry(iter.key, iter.val, m, f);
    }

    /** One chain of the overlay; count is also the number of reserved entries in use. */
    method OverlayChain(first: Entry?, b: nat, m: Option<Merger>, room: nat, ghost h: Hash, ghost t: Table, ghost base: map<Key, Value>,
                        ghost done0: seq<Entry>, ghost f: Foreign) returns (ghost done: seq<Entry>)
      requires f.Foreign? && f.t == t && Steady(f) && Firm(t, h) && |base| + |t.owner| <= room && b < |t.chains| && first == t.heads[b]
      requires Passed(t, b, done0) && Overlaid(t, base, done0, m)
      modifies this`entries, this`chains, this`owner, this`count, slots, entries
      ensures Steady(f) && Passed(t, b + 1, done) && Overlaid(t, base, done, m)
      ensures forall e :: e in entries && e !in old(entries) ==> fresh(e)
      ensures max == old(max) && slots == old(slots)
    {
      done := done0;
      FirmPlace(t, h, b, done);
      var iter := first;
      ghost var i := 0;
      while iter != null
        invariant Steady(f) && Place(t, b, i, done, iter) && Overlaid(t, base, done, m)
        invariant forall e :: e in entries && e !in old(entries) ==> fresh(e)
        invariant max == old(max) && slots == old(slots)
        decreases |Flat(t.chains, 0)| - |done|
      {
        ghost var e: Entry := iter;
        ghost var used := count;
        iter := OverlayOne(iter, m, h, t, base, done, b, i, f);
        assert used < room;
        done, i := done + [e], i + 1;
      }
      PlaceEnd(t, b, i, done);
    }

    lemma OverlaidNone(t: Table, base: map<Key, Value>, m: Option<Merger>)
      requires Sound() && Map() == base && count == |base|
      ensures Overlaid(t, base, [], m)
    {
    }

    lemma OverlaidAll(t: Table, h: Hash, base: map<Key, Value>, done: seq<Entry>, m: Option<Merger>)
      requires Firm(t, h) && Passed(t, |t.heads|, done) && Overlaid(t, base, done, m)
      ensures Sound() && Map() == Merged(base, Contents(t), m) && count <= |base| + |t.owner|
    {
      OverlaidMeans(t, base, done, m);
      WalkedAll(t, h, done);
    }

    method OverlayAll(from: array<Entry?>, m: Option<Merger>, room: nat, ghost h: Hash, ghost t: Table, ghost base: map<Key, Value>, ghost f: Foreign)
      requires f == Foreign(from, t) && Steady(f) && Firm(t, h) && |base| + |t.owner| <= room && Sound() && Map() == base && count == |base|
      modifies this`entries, this`chains, this`owner, this`count, slots, entries
      ensures Sound() && Map() == Merged(base, Contents(t), m) && count <= room && max == old(max)
      ensures slots == old(slots) && forall e :: e in entries && e !in old(entries) ==> fresh(e)
    {
      OverlaidNone(t, base, m);
      ghost var done := OverlayChains(from, m, room, h, t, base, f);
      OverlaidAll(t, h, base, done, m);
    }

    method OverlayChains(from: array<Entry?>, m: Option<Merger>, room: nat,
                         ghost h: Hash, ghost t: Table, ghost base: map<Key, Value>, ghost f: Foreign)
      returns (ghost done: seq<Entry>)
      requires f == Foreign(from, t) && Steady(f) && Firm(t, h) && |base| + |t.owner| <= room && Overlaid(t, base, [], m)
      modifies this`entries, this`chains, this`owner, this`count, slots, entries
      ensures Passed(t, |t.heads|, done) && Overlaid(t, base, done, m) && max == old(max)
      ensures slots == old(slots) && forall e :: e in entries && e !in old(entries) ==> fresh(e)
    {
      done := [];
      var b := 0;
      var n := from.Length;
      while b < n
        invariant b <= |t.heads| == n && Passed(t, b, done)
        invariant Steady(f) && Overlaid(t, base, done, m)
        invariant forall e :: e in entries && e !in old(entries) ==> fresh(e)
        invariant max == old(max) && slots == old(slots)
      {
        done := OverlayChain(from[b], b, m, room, h, t, base, done, f);
        b := b + 1;
      }
    }

    lemma HoldsState()
      ensures Holds(State().mem) && Readable(slots, State())
    {
    }

    static method MergeBase(newMax: nat, hash: Hash, first: array<Entry?>, size: nat, room: nat, ghost t: Table, ghost g: Foreign)
        returns (res: HashTable)
      requires Firm(t, hash) && Readable(first, t) && size == |t.owner| <= room
      requires g.Foreign? && Readable(g.from, g.t)
      ensures fresh(res) && fresh(res.slots) && (forall e :: e in res.entries ==> fresh(e)) && res.Steady(g)
      ensures res.Sound() && res.Map() == Contents(t) && res.count == |t.owner| && res.max == newMax && res.hash == hash
    {
      res := new HashTable(newMax, hash, Foreign(first, t));
      res.StartCopy(t);
      var j := res.BaseAll(first, room, t, Foreign(first, t));
      res.SetCount(size);
    }

    /** An empty table holds what a walk has passed before it starts. */
    lemma StartCopy(t: Table)
      requires Sound() && Map() == map[] && owner == map[]
      ensures Copied(t, [])
    {
      SoundMeans();
    }

    static method MergeInto(newMax: nat, hash: Hash, first: array<Entry?>, second: array<Entry?>, size: nat, room: nat, m: Option<Merger>,
                            ghost t: Table, ghost ot: Table, ghost h: Hash) returns (res: HashTable)
      requires Firm(t, hash) && Readable(first, t) && size == |t.owner|
      requires Firm(ot, h) && Readable(second, ot) && room == |t.owner| + |ot.owner|
      ensures fresh(res) && fresh(res.slots) && forall e :: e in res.entries ==> fresh(e)
      ensures res.Sound() && res.count <= room && res.max == newMax && res.Map() == Merged(Contents(t), Contents(ot), m) && res.hash == hash
    {
      SizeOf(t, hash);
      res := MergeBase(newMax, hash, first, size, room, t, Foreign(second, ot));
      res.OverlayAll(second, m, room, h, ot, Contents(t), Foreign(second, ot));
    }

    /** A new table: this one's entries overridden, key by key, by the overlay's. */
    method Merge(overlay: HashTable, m: Option<Merger>) returns (res: HashTable)
      requires Valid() && overlay.Valid()
      ensures fresh(res) && fresh(res.slots) && forall e :: e in res.entries ==> fresh(e)
      ensures res.Valid() && res.Map() == Merged(old(Map()), old(overlay.Map()), m) && res.hash == hash
      ensures forall k :: k in res.Map() <==> k in old(Map()) || k in old(overlay.Map())
      ensures m.Some? ==> forall k :: k in old(Map()) && k in old(overlay.Map()) ==>
        res.Map()[k] == m.value(k, old(overlay.Map())[k], old(Map())[k])
      ensures m.None? ==> forall k :: k in old(overlay.Map()) ==> res.Map()[k] == old(overlay.Map())[k]
      ensures forall k :: k in old(Map()) && k !in old(overlay.Map()) ==> res.Map()[k] == old(Map())[k]
      ensures forall k :: k !in old(Map()) && k in old(overlay.Map()) ==> res.Map()[k] == old(overlay.Map())[k]
    {
      SoundFirm();
      overlay.SoundFirm();
      HoldsState();
      overlay.HoldsState();
      var room := count + overlay.count;
      var newMax := MergedMax(max, overlay.max, room);
      MergedPower(max, overlay.max, room, newMax);
      res := MergeInto(newMax, hash, slots, overlay.slots, count, room, m, State(), overlay.State(), overlay.hash);
    }

    static lemma SizeOf(t: Table, h: Hash)
      requires Firm(t, h)
      ensures |Contents(t)| == |t.owner|
    {
      FirmMeans(t, h);
      forall k ensures k in Contents(t) <==> k in t.owner { ContentsKeys(t, h, k); }
      assert Contents(t).Keys == t.owner.Keys;
    }

    // ---- copy ----

    ghost predicate Tail(b: nat, prev: Entry?)
      reads this`chains, this`entries
    {
      b < |chains| && if chains[b] == [] then prev == null else prev == chains[b][|chains[b]| - 1] && prev in entries
    }

    /** Nothing yet in the buckets from b up. */
    ghost predicate Blank(b: nat)
      reads this`chains
    {
      forall c {:trigger chains[c]} :: b <= c < |chains| ==> chains[c] == []
    }

    lemma FreshTaken(t: Table, h: Hash, he: Entry)
      requires Inv(t, h) && he !in t.mem
      ensures Taken(t, t, h, he)
    {
      FreshLoose(t, h, he);
    }

    /** A new entry at the end of chain b. */
    method AppendTail(key: Key, val: Value, b: nat, prev: Entry?, ghost f: Foreign := Nobody) returns (he: Entry)
      requires Steady(f)
      requires Inv(State(), hash) && slots.Length == max + 1 && key !in owner && b == hash(key) % (max + 1) && Tail(b, prev)
      modifies this`entries, this`chains, this`owner, slots, entries
      ensures Inv(State(), hash) && Map() == old(Map())[key := val] && |owner| == |old(owner)| + 1 && Tail(b, he)
      ensures b < |old(chains)| && chains == old(chains)[b := old(chains)[b] + [he]]
      ensures forall e :: e in entries && e !in old(entries) ==> fresh(e)
      ensures count == old(count) && max == old(max) && slots == old(slots)
      ensures Steady(f)
    {
      ghost var t := State();
      LastKnown(t, hash, b);
      he := NewEntry(key, val, f);
      FreshTaken(t, hash, he);
      LinkNew(key, val, he, b, prev, |chains[b]|, t, f);
      AppendSound(t, t, State(), hash, he, key, val);
    }

    method CopyOne(iter: Entry, k: nat, prev: Entry?, ghost t: Table, ghost done: seq<Entry>, ghost i: nat, ghost f: Foreign)
        returns (next: Entry?, he: Entry)
      requires f.Foreign? && f.t == t && Steady(f) && Firm(t, hash) && Place(t, k, i, done, iter) && Copied(t, done)
      requires max + 1 == |t.heads| && Tail(k, prev) && Blank(k + 1)
      modifies this`entries, this`chains, this`owner, slots, entries
      ensures Steady(f) && Place(t, k, i + 1, done + [iter], next) && |done| < |t.owner| && Copied(t, done + [iter]) && Tail(k, he) && Blank(k + 1)
      ensures forall e :: e in entries && e !in old(entries) ==> fresh(e)
      ensures max == old(max) && slots == old(slots)
    {
      FirmMeans(t, hash);
      CopiedMeans(t, done);
      SteadyMeans(f);
      BaseStep(t, hash, k, i, done, iter);
      assert Bucket(t, hash, k) && Placed(t, hash, k, iter);
      next := iter.next;
      ContentsKeys(State(), hash, iter.key);
      he := AppendTail(iter.key, iter.val, k, prev, f);
    }

    method CopyChain(first: Entry?, k: nat, j0: nat, room: nat, ghost t: Table, ghost done0: seq<Entry>, ghost f: Foreign)
        returns (j: nat, ghost done: seq<Entry>)
      requires f.Foreign? && f.t == t && Steady(f) && Firm(t, hash) && |t.owner| <= room && k < |t.chains|
      requires first == t.heads[k] && max + 1 == |t.heads|
      requires Passed(t, k, done0) && Copied(t, done0) && j0 == |done0| && |chains| > k && Blank(k)
      modifies this`entries, this`chains, this`owner, slots, entries
      ensures Steady(f) && Passed(t, k + 1, done) && Copied(t, done) && j == |done| && Blank(k + 1)
      ensures forall e :: e in entries && e !in old(entries) ==> fresh(e)
      ensures max == old(max) && slots == old(slots)
    {
      j, done := j0, done0;
      FirmPlace(t, hash, k, done);
      var iter, prev: Entry? := first, null;
      ghost var i := 0;
      while iter != null
        invariant Steady(f) && Place(t, k, i, done, iter) && Copied(t, done) && j == |done| && Tail(k, prev) && Blank(k + 1)
        invariant forall e :: e in entries && e !in old(entries) ==> fresh(e)
        invariant max == old(max) && slots == old(slots)
        decreases |Flat(t.chains, 0)| - |done|
      {
        ghost var e: Entry := iter;
        iter, prev := CopyOne(iter, k, prev, t, done, i, f);
        assert j < room;
        done, i, j := done + [e], i + 1, j + 1;
      }
      PlaceEnd(t, k, i, done);
    }

    method CopyAll(from: array<Entry?>, room: nat, ghost t: Table, ghost f: Foreign) returns (j: nat)
      requires f == Foreign(from, t) && Steady(f) && Firm(t, hash) && |t.owner| <= room && max + 1 == |t.heads|
      requires Copied(t, []) && entries == {} && Blank(0)
      modifies this`entries, this`chains, this`owner, slots
      ensures Sized(State(), hash, max + 1, |t.owner|) && Map() == Contents(t) && j == |t.owner|
      ensures max == old(max) && slots == old(slots) && forall e :: e in entries ==> fresh(e)
    {
      ghost var done: seq<Entry> := [];
      j := 0;
      var k := 0;
      var n := from.Length;
      while k < n
        invariant k <= |t.heads| == n && Passed(t, k, done)
        invariant Steady(f) && Copied(t, done) && j == |done| && |chains| == |t.chains| && Blank(k)
        invariant forall e :: e in entries ==> fresh(e)
        invariant max == old(max) && slots == old(slots)
      {
        j, done := CopyChain(from[k], k, j, room, t, done, f);
        k := k + 1;
      }
      WalkedAll(t, hash, done);
      CopiedMeans(t, done);
    }

    static method CopyInto(max: nat, hash: Hash, from: array<Entry?>, size: nat, ghost t: Table) returns (res: HashTable)
      requires Firm(t, hash) && max + 1 == |t.heads| && Readable(from, t) && size == |t.owner|
      ensures fresh(res) && fresh(res.slots) && forall e :: e in res.entries ==> fresh(e)
      ensures res.Sound() && res.Map() == Contents(t) && res.count == size && res.max == max && res.hash == hash && res.free == null
    {
      res := new HashTable(max, hash, Foreign(from, t));
      res.StartCopy(t);
      var j := res.CopyAll(from, size, t, Foreign(from, t));
      res.SetCount(size);
    }

    /** A new table with the same map, the same buckets and no recycled entries. */
    method Copy() returns (res: HashTable)
      requires Valid()
      ensures fresh(res) && fresh(res.slots) && forall e :: e in res.entries ==> fresh(e)
      ensures res.Valid() && res.Map() == old(Map()) && res.count == old(count) && res.max == old(max) && res.hash == hash && res.free == null
    {
      SoundMeans();
      HoldsState();
      res := CopyInto(max, hash, slots, count, State());
    }

    // ---- foreach ----

    static lemma VisitedOne(t: Table, h: Hash, e: Entry)
      requires Inv(t, h) && e in Flat(t.chains, 0)
      ensures e in t.mem && t.mem[e].key in Contents(t) && Contents(t)[t.mem[e].key] == t.mem[e].val
    {
      FlatLive(t, h, e);
      ContentsKeys(t, h, t.mem[e].key);
    }

    lemma VisitedVerdict(t: Table, h: Hash, comp: (Key, Value) -> bool, r: bool)
      requires Inv(t, h)
      requires r ==> Flat(t.chains, 0) != [] && forall e :: e in Flat(t.chains, 0) ==> e in t.mem && comp(t.mem[e].key, t.mem[e].val)
      requires !r ==> Flat(t.chains, 0) == [] || exists e :: e in Flat(t.chains, 0) && e in t.mem && !comp(t.mem[e].key, t.mem[e].val)
      ensures r <==> Contents(t) != map[] && forall k :: k in Contents(t) ==> comp(k, Contents(t)[k])
    {
      forall k | k in Contents(t) ensures Flat(t.chains, 0) != [] && (r ==> comp(k, Contents(t)[k])) {
        ContentsKeys(t, h, k);
        assert Owned(t, h, k);
        FlatIn(t.chains, 0, h(k) % |t.heads|, t.owner[k]);
      }
      forall e | e in Flat(t.chains, 0) ensures e in t.mem && t.mem[e].key in Contents(t) && Contents(t)[t.mem[e].key] == t.mem[e].val {
        VisitedOne(t, h, e);
      }
      if Flat(t.chains, 0) != [] { VisitedOne(t, h, Flat(t.chains, 0)[0]); }
    }

    static ghost predicate Visiting(it: HashIndex, t: Table, visited: seq<Entry>, more: bool)
      reads it
    {
      && it.Walking(t.mem, t.heads, t.chains)
      && (if more then it.self != null && Flat(t.chains, 0) == visited + [it.self] + it.Rest(t.chains) else Flat(t.chains, 0) == visited)
    }

    static method VisitNext(slots: array<Entry?>, it: HashIndex, ghost t: Table, ghost visited: seq<Entry>, ghost rest: seq<Entry>)
        returns (more: bool)
      requires it.Walking(t.mem, t.heads, t.chains) && t.heads == slots[..] && Matches(t.mem)
      requires rest == it.Rest(t.chains) && Flat(t.chains, 0) == visited + rest
      modifies it
      ensures Visiting(it, t, visited, more)
    {
      Shift(visited, rest);
      more := it.Next(slots, t.mem, t.chains);
    }

    static method ForEachFrom(slots: array<Entry?>, comp: (Key, Value) -> bool, it: HashIndex, ghost t: Table, ghost h: Hash)
        returns (r: bool, ghost visited: seq<Entry>)
      requires Inv(t, h) && slots[..] == t.heads && Holds(t.mem) && Visiting(it, t, [], true)
      modifies it
      ensures visited <= Flat(t.chains, 0) && (r ==> visited == Flat(t.chains, 0))
      ensures r ==> forall e :: e in Flat(t.chains, 0) ==> e in t.mem && comp(t.mem[e].key, t.mem[e].val)
      ensures !r ==> exists e :: e in Flat(t.chains, 0) && e in t.mem && !comp(t.mem[e].key, t.mem[e].val)
    {
      visited := [];
      var more := true;
      while more
        invariant Visiting(it, t, visited, more) && forall e :: e in visited ==> e in t.mem && comp(t.mem[e].key, t.mem[e].val)
        decreases |Flat(t.chains, 0)| - |visited|, more
      {
        ghost var e: Entry, rest, before := it.self, it.Rest(t.chains), visited;
        VisitedOne(t, h, Flat(t.chains, 0)[|before|]);
        visited := visited + [e];
        if !comp(it.self.key, it.self.val) {
          return false, visited;
        }
        more := VisitNext(slots, it, t, visited, rest);
      }
      r := true;
    }

    /** Calls comp on the entries in turn until it says no; true exactly when there are entries and it never does. */
    method ForEach(comp: (Key, Value) -> bool) returns (r: bool, ghost visited: seq<Entry>)
      requires Valid()
      ensures r <==> old(Map()) != map[] && forall k :: k in old(Map()) ==> comp(k, old(Map())[k])
      ensures visited <= Flat(chains, 0) && (r ==> visited == Flat(chains, 0))
    {
      SoundMeans();
      ghost var t := State();
      HeadsLinked(t, hash);
      HoldsState();
      var it := new HashIndex(t.mem, t.heads, t.chains);
      var more := VisitNext(slots, it, t, [], Flat(t.chains, 0));
      r, visited := false, [];
      if more {
        r, visited := ForEachFrom(slots, comp, it, t, hash);
      }
      VisitedVerdict(t, hash, comp, r);
    }
  }
}
