/** Filling one table from another: new entries go to the front of their chains. */
module HashMerge {
  import opened Common
  import opened HashChains
  import opened HashWalk

  ghost function PushAt(t: Table, b: nat, hash: nat, e: Entry, key: Key, val: Value): Table
    requires b < |t.heads| && b < |t.chains|
  {
    Table(t.heads[b := e], t.mem[e := Cell(t.heads[b], hash, key, val)], t.free,
          t.chains[b := [e] + t.chains[b]], t.owner[key := e], t.recycled)
  }

  lemma PushBucket(t: Table, h: Hash, e: Entry, key: Key, val: Value, b: nat)
    requires Inv(t, h) && Loose(t, e) && key !in t.owner && b < |t.heads|
    ensures Bucket(PushAt(t, h(key) % |t.heads|, h(key), e, key, val), h, b)
  {
    var t' := PushAt(t, h(key) % |t.heads|, h(key), e, key, val);
    assert Bucket(t, h, b);
    if b == h(key) % |t.heads| {
      LinkedCons(t.mem, t'.mem, e, t.chains[b], t.heads[b]);
      forall x | x in t'.chains[b] ensures Placed(t', h, b, x) {
        if x != e { assert Placed(t, h, b, x); }
      }
    } else {
      BucketKept(t, t', h, b);
    }
  }

  lemma PushInv(t: Table, h: Hash, e: Entry, key: Key, val: Value)
    requires Inv(t, h) && Loose(t, e) && key !in t.owner
    ensures Inv(PushAt(t, h(key) % |t.heads|, h(key), e, key, val), h)
  {
    var t' := PushAt(t, h(key) % |t.heads|, h(key), e, key, val);
    forall b {:trigger Bucket(t', h, b)} | 0 <= b < |t'.heads| ensures Bucket(t', h, b) { PushBucket(t, h, e, key, val, b); }
    forall k {:trigger Owned(t', h, k)} ensures Owned(t', h, k) { assert Owned(t, h, k); }
    SpareKept(t, t');
  }

  lemma PushContents(t: Table, h: Hash, e: Entry, key: Key, val: Value)
    requires Inv(t, h) && Loose(t, e) && key !in t.owner
    ensures Contents(PushAt(t, h(key) % |t.heads|, h(key), e, key, val)) == Contents(t)[key := val]
  {
    var t' := PushAt(t, h(key) % |t.heads|, h(key), e, key, val);
    ChainsHold(t, h, e);
    forall k | k in t.owner ensures k in Contents(t) && k in Contents(t') && Contents(t')[k] == Contents(t)[k] {
      assert Owned(t, h, k);
    }
  }

  // ---- the part of a table already walked over ----

  ghost function Part(mem: Mem, s: seq<Entry>): map<Key, Value>
  {
    if s == [] then map[]
    else
      var e := s[|s| - 1];
      if e in mem then Part(mem, s[..|s| - 1])[mem[e].key := mem[e].val] else Part(mem, s[..|s| - 1])
  }

  lemma {:induction false} PartKeys(t: Table, s: seq<Entry>, k: Key)
    requires forall e :: e in s ==> Live(t, e)
    ensures k in Part(t.mem, s) <==> k in t.owner && t.owner[k] in s && t.owner[k] in t.mem && t.mem[t.owner[k]].key == k
    ensures k in Part(t.mem, s) ==> Part(t.mem, s)[k] == t.mem[t.owner[k]].val
  {
    if s != [] {
      var r, e := s[..|s| - 1], s[|s| - 1];
      assert s == r + [e];
      PartKeys(t, r, k);
      assert Live(t, e);
    }
  }

  lemma PartSnoc(mem: Mem, s: seq<Entry>, e: Entry)
    requires e in mem
    ensures Part(mem, s + [e]) == Part(mem, s)[mem[e].key := mem[e].val]
  {
    assert (s + [e])[..|s + [e]| - 1] == s;
  }

  /** Walking over everything gathers the whole map. */
  lemma PartAll(t: Table, h: Hash)
    requires Inv(t, h)
    ensures Part(t.mem, Flat(t.chains, 0)) == Contents(t)
  {
    var s := Flat(t.chains, 0);
    forall e | e in s ensures Live(t, e) { FlatLive(t, h, e); }
    forall k ensures (k in Part(t.mem, s) <==> k in Contents(t)) && (k in Contents(t) ==> Part(t.mem, s)[k] == Contents(t)[k]) {
      PartKeys(t, s, k);
      ContentsKeys(t, h, k);
      if k in t.owner { FlatLive(t, h, t.owner[k]); assert Owned(t, h, k); }
    }
  }

  /** The entry about to be visited brings a key not seen before. */
  lemma PartFresh(t: Table, h: Hash, done: seq<Entry>, e: Entry)
    requires Inv(t, h) && (forall x :: x in done ==> Live(t, x)) && Live(t, e) && e !in done
    ensures t.mem[e].key !in Part(t.mem, done)
  {
    PartKeys(t, done, t.mem[e].key);
  }

  // ---- overlaying ----

  type Merger = (Key, Value, Value) -> Value

  function Combine(m: Option<Merger>, k: Key, over: Value, base: Value): Value
  {
    if m.Some? then m.value(k, over, base) else over
  }

  /** One entry of the overlay put over the map. */
  function Overlay(r: map<Key, Value>, k: Key, v: Value, m: Option<Merger>): map<Key, Value>
  {
    r[k := if k in r then Combine(m, k, v, r[k]) else v]
  }

  /** base overridden by over; keys of both go through the merger. */
  ghost function Merged(base: map<Key, Value>, over: map<Key, Value>, m: Option<Merger>): map<Key, Value>
  {
    map k | k in base.Keys + over.Keys ::
      if k !in over then base[k] else if k in base then Combine(m, k, over[k], base[k]) else over[k]
  }

  lemma MergedNew(base: map<Key, Value>, over: map<Key, Value>, m: Option<Merger>, k: Key, v: Value)
    requires k !in over
    ensures Merged(base, over[k := v], m) == Merged(base, over, m)[k := if k in base then Combine(m, k, v, base[k]) else v]
    ensures (k in Merged(base, over, m) <==> k in base) && (k in base ==> Merged(base, over, m)[k] == base[k])
  {
  }

  /** What stands under every key: of a key in both maps what the merger makes of key, overlay's value and base's value, or
      the overlay's value without a merger; of any other key the one value there is. */
  lemma MergedIs(base: map<Key, Value>, over: map<Key, Value>, m: Option<Merger>)
    ensures var r := Merged(base, over, m);
      && (forall k :: k in r <==> k in base || k in over)
      && (m.Some? ==> forall k :: k in base && k in over ==> r[k] == m.value(k, over[k], base[k]))
      && (m.None? ==> forall k :: k in base && k in over ==> r[k] == over[k])
      && (forall k :: k in base && k !in over ==> r[k] == base[k])
      && (forall k :: k !in base && k in over ==> r[k] == over[k])
  {
  }

  /** Without a merger this is the plain map override. */
  lemma MergedPlain(base: map<Key, Value>, over: map<Key, Value>)
    ensures Merged(base, over, None) == base + over
    ensures Merged(base, map[], None) == base
  {
  }

  // ---- two nested loops over a table ----

  /** The walk has passed done and stands at iter, the i-th entry of bucket k. */
  ghost predicate Place(t: Table, k: nat, i: nat, done: seq<Entry>, iter: Entry?)
  {
    && k < |t.chains| && i <= |t.chains[k]| && iter == At(t.chains[k], i)
    && done + t.chains[k][i..] + Flat(t.chains, k + 1) == Flat(t.chains, 0)
  }

  /** The walk has passed the first k buckets. */
  ghost predicate Passed(t: Table, k: nat, done: seq<Entry>)
  {
    k <= |t.chains| && done + Flat(t.chains, k) == Flat(t.chains, 0)
  }

  lemma PlaceStart(t: Table, h: Hash, k: nat, done: seq<Entry>)
    requires Inv(t, h) && k < |t.chains| && Passed(t, k, done)
    ensures Place(t, k, 0, done, t.heads[k])
  {
    assert Bucket(t, h, k);
    assert t.chains[k][0..] == t.chains[k];
    assert done + t.chains[k] + Flat(t.chains, k + 1) == done + (t.chains[k] + Flat(t.chains, k + 1));
  }

  lemma PlaceNext(t: Table, h: Hash, k: nat, i: nat, done: seq<Entry>, iter: Entry?)
    requires Inv(t, h) && Place(t, k, i, done, iter) && iter != null
    ensures Live(t, iter) && iter !in done && (forall e :: e in done ==> Live(t, e)) && |done| < |Flat(t.chains, 0)|
    ensures Place(t, k, i + 1, done + [iter], t.mem[iter].next)
  {
    var s, rest := t.chains[k], Flat(t.chains, k + 1);
    ChainLive(t, h, k);
    assert Bucket(t, h, k);
    LinkedIn(t.mem, s, t.heads[k], i);
    assert s[i..] == [s[i]] + s[i + 1..];
    assert done + s[i..] + rest == done + [iter] + s[i + 1..] + rest;
    DoneLive(t, h, done, iter, s[i + 1..] + rest);
  }

  lemma DoneLive(t: Table, h: Hash, done: seq<Entry>, e: Entry, rest: seq<Entry>)
    requires Inv(t, h) && done + [e] + rest == Flat(t.chains, 0)
    ensures e !in done && forall x :: x in done ==> Live(t, x)
  {
    var s := Flat(t.chains, 0);
    FlatNoDup(t, h, 0);
    assert s[|done|] == e;
    forall j | 0 <= j < |done| ensures done[j] != e { assert s[j] == done[j]; }
    forall x | x in done ensures Live(t, x) {
      assert x in s;
      FlatLive(t, h, x);
    }
  }

  lemma PlaceEnd(t: Table, k: nat, i: nat, done: seq<Entry>)
    requires Place(t, k, i, done, null)
    ensures Passed(t, k + 1, done)
  {
    assert t.chains[k][i..] == [];
    assert done + [] == done;
  }

  /** The entries' fields are as mem says. */
  ghost predicate Holds(mem: Mem)
    reads mem.Keys
  {
    forall e :: e in mem ==> mem[e] == Cell(e.next, e.hash, e.key, e.val)
  }
}
