/**
  The hash table as a value: bucket heads, the entries' fields, and (for the proofs) the chain of every
  bucket, the entry that holds each key, and the list of recycled entries.
 */
module HashChains {
  import opened Common

  type Key(==, !new)
  type Value(==, !new)

  class Entry {
    var next: Entry?
    var hash: nat
    var key: Key
    var val: Value

    constructor (hash: nat, key: Key, val: Value)
      ensures this.next == null && this.hash == hash && this.key == key && this.val == val
    {
      this.next, this.hash, this.key, this.val := null, hash, key, val;
    }
  }

  datatype Cell = Cell(next: Entry?, hash: nat, key: Key, val: Value)

  type Mem = map<Entry, Cell>

  function At(s: seq<Entry>, i: nat): Entry?
  {
    if i < |s| then s[i] else null
  }

  ghost predicate Next(mem: Mem, s: seq<Entry>, i: nat)
    requires i < |s|
  {
    s[i] in mem && mem[s[i]].next == At(s, i + 1)
  }

  /** Following next from head runs through s, once each. */
  ghost predicate Linked(mem: Mem, s: seq<Entry>, head: Entry?)
  {
    head == At(s, 0) && NoDup(s) && forall i {:trigger Next(mem, s, i)} :: 0 <= i < |s| ==> Next(mem, s, i)
  }

  datatype Table = Table(heads: seq<Entry?>, mem: Mem, free: Entry?,
                         chains: seq<seq<Entry>>, owner: map<Key, Entry>, recycled: seq<Entry>)

  type Hash = Key -> nat

  ghost predicate Live(t: Table, e: Entry)
  {
    e in t.mem && t.mem[e].key in t.owner && t.owner[t.mem[e].key] == e
  }

  ghost predicate Placed(t: Table, h: Hash, b: nat, e: Entry)
  {
    Live(t, e) && t.mem[e].hash == h(t.mem[e].key) && |t.heads| > 0 && t.mem[e].hash % |t.heads| == b
  }

  ghost predicate Bucket(t: Table, h: Hash, b: nat)
  {
    && b < |t.heads| && b < |t.chains| && Linked(t.mem, t.chains[b], t.heads[b])
    && forall e :: e in t.chains[b] ==> Placed(t, h, b, e)
  }

  ghost predicate Owned(t: Table, h: Hash, k: Key)
    requires |t.heads| == |t.chains| > 0
  {
    k in t.owner ==> t.owner[k] in t.chains[h(k) % |t.heads|] && t.owner[k] in t.mem && t.mem[t.owner[k]].key == k
  }

  ghost predicate Spare(t: Table)
  {
    Linked(t.mem, t.recycled, t.free) && forall e :: e in t.recycled ==> !Live(t, e)
  }

  /** Every chain holds exactly the live entries of its bucket; the recycled ones are apart. */
  ghost predicate Inv(t: Table, h: Hash)
  {
    && |t.heads| == |t.chains| > 0
    && (forall b {:trigger Bucket(t, h, b)} :: 0 <= b < |t.heads| ==> Bucket(t, h, b))
    && (forall k {:trigger Owned(t, h, k)} :: Owned(t, h, k))
    && Spare(t)
  }

  ghost predicate Sized(t: Table, h: Hash, size: nat, count: nat)
  {
    Inv(t, h) && |t.heads| == size && count == |t.owner|
  }

  /** The map the table stands for. */
  ghost function Contents(t: Table): map<Key, Value>
  {
    map k | k in t.owner && t.owner[k] in t.mem :: t.mem[t.owner[k]].val
  }

  lemma ContentsKeys(t: Table, h: Hash, k: Key)
    requires Inv(t, h)
    ensures k in Contents(t) <==> k in t.owner
    ensures k in t.owner ==> t.owner[k] in t.mem && Contents(t)[k] == t.mem[t.owner[k]].val
  {
    assert Owned(t, h, k);
  }

  // ---- finding ----

  lemma FindHit(t: Table, h: Hash, b: nat, i: nat)
    requires Inv(t, h) && b < |t.heads| && i < |t.chains[b]|
    ensures t.chains[b][i] in t.mem && var k := t.mem[t.chains[b][i]].key; k in t.owner && t.owner[k] == t.chains[b][i] && b == h(k) % |t.heads|
  {
    assert Bucket(t, h, b);
    assert Placed(t, h, b, t.chains[b][i]);
  }

  lemma FindMiss(t: Table, h: Hash, key: Key)
    requires Inv(t, h)
    requires var b := h(key) % |t.heads|; forall e :: e in t.chains[b] ==> e in t.mem && t.mem[e].key != key
    ensures key !in t.owner
  {
    assert Owned(t, h, key);
  }

  // ---- replacing a value ----

  function SetVal(t: Table, e: Entry, val: Value): Table
    requires e in t.mem
  {
    t.(mem := t.mem[e := t.mem[e].(val := val)])
  }

  lemma SameLinks(mem: Mem, mem': Mem, s: seq<Entry>, head: Entry?)
    requires Linked(mem, s, head) && forall e :: e in s && e in mem ==> e in mem' && mem'[e].next == mem[e].next
    ensures Linked(mem', s, head)
  {
    forall i {:trigger Next(mem', s, i)} | 0 <= i < |s| ensures Next(mem', s, i) {
      assert Next(mem, s, i);
    }
  }

  /** An entry whose link, hash and key stay as they were. */
  ghost predicate Untouched(t: Table, t': Table, e: Entry)
  {
    e in t.mem ==> e in t'.mem && t'.mem[e].next == t.mem[e].next && t'.mem[e].hash == t.mem[e].hash && t'.mem[e].key == t.mem[e].key
  }

  lemma BucketKept(t: Table, t': Table, h: Hash, b: nat)
    requires Bucket(t, h, b) && |t'.heads| == |t.heads| && b < |t'.chains| && t'.chains[b] == t.chains[b] && t'.heads[b] == t.heads[b]
    requires forall e :: e in t.chains[b] ==> Untouched(t, t', e)
    requires forall e :: e in t.chains[b] && e in t.mem && Live(t, e) ==> t.mem[e].key in t'.owner && t'.owner[t.mem[e].key] == e
    ensures Bucket(t', h, b)
  {
    forall e | e in t.chains[b] ensures Placed(t', h, b, e) { assert Placed(t, h, b, e) && Untouched(t, t', e); }
    SameLinks(t.mem, t'.mem, t.chains[b], t.heads[b]);
  }

  lemma SpareKept(t: Table, t': Table)
    requires Spare(t) && t'.recycled == t.recycled && t'.free == t.free
    requires forall e :: e in t.recycled && e in t.mem ==> Untouched(t, t', e) && (Live(t', e) ==> Live(t, e))
    ensures Spare(t')
  {
    forall e | e in t.recycled ensures e in t.mem {
      var i :| 0 <= i < |t.recycled| && t.recycled[i] == e;
      assert Next(t.mem, t.recycled, i);
    }
    SameLinks(t.mem, t'.mem, t.recycled, t.free);
  }

  lemma SetValInv(t: Table, h: Hash, e: Entry, val: Value)
    requires Inv(t, h) && Live(t, e)
    ensures Inv(SetVal(t, e, val), h)
  {
    var t' := SetVal(t, e, val);
    forall b {:trigger Bucket(t', h, b)} | 0 <= b < |t.heads| ensures Bucket(t', h, b) {
      assert Bucket(t, h, b);
      BucketKept(t, t', h, b);
    }
    forall k {:trigger Owned(t', h, k)} ensures Owned(t', h, k) { assert Owned(t, h, k); }
    SpareKept(t, t');
  }

  lemma SetValContents(t: Table, h: Hash, e: Entry, val: Value)
    requires Inv(t, h) && Live(t, e)
    ensures Contents(SetVal(t, e, val)) == Contents(t)[t.mem[e].key := val]
  {
    var t' := SetVal(t, e, val);
    assert Owned(t, h, t.mem[e].key);
    forall k | k in t.owner ensures k in Contents(t') && k in Contents(t) && Contents(t')[k] == Contents(t)[t.mem[e].key := val][k] {
      assert Owned(t, h, k);
    }
  }

  // ---- a new entry at the end of its chain ----

  ghost predicate Loose(t: Table, e: Entry)
  {
    e !in t.recycled && forall b {:trigger t.chains[b]} :: 0 <= b < |t.chains| ==> e !in t.chains[b]
  }

  /** The assignment through the cursor that stands behind the first i entries of bucket b. */
  function Point(t: Table, b: nat, i: nat, e: Entry?): Table
    requires b < |t.heads| && b < |t.chains| && i <= |t.chains[b]| && (i > 0 ==> t.chains[b][i - 1] in t.mem)
  {
    if i == 0 then t.(heads := t.heads[b := e])
    else var p := t.chains[b][i - 1]; t.(mem := t.mem[p := t.mem[p].(next := e)])
  }

  function Fill(t: Table, e: Entry, hash: nat, key: Key, val: Value): Table
  {
    t.(mem := t.mem[e := Cell(null, hash, key, val)])
  }

  ghost function Appended(t: Table, b: nat, e: Entry, key: Key): Table
    requires b < |t.chains|
  {
    t.(chains := t.chains[b := t.chains[b] + [e]], owner := t.owner[key := e])
  }

  ghost function AppendAt(t: Table, b: nat, hash: nat, e: Entry, key: Key, val: Value): Table
    requires b < |t.heads| && b < |t.chains| && (t.chains[b] != [] ==> t.chains[b][|t.chains[b]| - 1] in t.mem)
  {
    Appended(Point(Fill(t, e, hash, key, val), b, |t.chains[b]|, e), b, e, key)
  }

  /** What find_entry does with a missing key. */
  ghost function Append(t: Table, h: Hash, e: Entry, key: Key, val: Value): Table
    requires Inv(t, h) && Loose(t, e)
  {
    var b := h(key) % |t.heads|;
    LastKnown(t, h, b);
    AppendAt(t, b, h(key), e, key, val)
  }

  lemma LastKnown(t: Table, h: Hash, b: nat)
    requires Inv(t, h) && b < |t.heads|
    ensures t.chains[b] != [] ==> t.chains[b][|t.chains[b]| - 1] in t.mem
  {
    assert Bucket(t, h, b);
    if t.chains[b] != [] { assert Placed(t, h, b, t.chains[b][|t.chains[b]| - 1]); }
  }

  lemma LinkedSnoc(mem: Mem, mem': Mem, s: seq<Entry>, head: Entry?, head': Entry?, e: Entry)
    requires Linked(mem, s, head) && e !in s && e in mem' && mem'[e].next == null
    requires forall i :: 0 <= i < |s| ==> s[i] in mem && s[i] in mem' && mem'[s[i]].next == if i == |s| - 1 then e else mem[s[i]].next
    requires head' == if s == [] then e else head
    ensures Linked(mem', s + [e], head')
  {
    forall i {:trigger Next(mem', s + [e], i)} | 0 <= i < |s + [e]| ensures Next(mem', s + [e], i) {
      if i < |s| { assert Next(mem, s, i); }
    }
  }

  lemma LinkedIn(mem: Mem, s: seq<Entry>, head: Entry?, i: nat)
    requires Linked(mem, s, head) && i < |s|
    ensures s[i] in mem && mem[s[i]].next == At(s, i + 1)
  {
    assert Next(mem, s, i);
  }

  lemma AppendBucket(t: Table, h: Hash, e: Entry, key: Key, val: Value)
    requires Inv(t, h) && Loose(t, e) && key !in t.owner
    ensures var b := h(key) % |t.heads|; Bucket(Append(t, h, e, key, val), h, b)
  {
    var b, t' := h(key) % |t.heads|, Append(t, h, e, key, val);
    assert Bucket(t, h, b);
    var s := t.chains[b];
    forall i | 0 <= i < |s| ensures s[i] in t.mem && s[i] in t'.mem && t'.mem[s[i]].next == if i == |s| - 1 then e else t.mem[s[i]].next {
      LinkedIn(t.mem, s, t.heads[b], i);
    }
    LinkedSnoc(t.mem, t'.mem, s, t.heads[b], t'.heads[b], e);
    forall x | x in t'.chains[b] ensures Placed(t', h, b, x) {
      if x in s { assert Placed(t, h, b, x); }
    }
  }

  lemma AppendOther(t: Table, h: Hash, e: Entry, key: Key, val: Value, b: nat)
    requires Inv(t, h) && Loose(t, e) && key !in t.owner && b < |t.heads| && b != h(key) % |t.heads|
    ensures Bucket(Append(t, h, e, key, val), h, b)
  {
    assert Bucket(t, h, b);
    ChainsApart(t, h, h(key) % |t.heads|, b);
    BucketKept(t, Append(t, h, e, key, val), h, b);
  }

  lemma AppendSpare(t: Table, h: Hash, e: Entry, key: Key, val: Value)
    requires Inv(t, h) && Loose(t, e) && key !in t.owner
    ensures Spare(Append(t, h, e, key, val))
  {
    ChainLive(t, h, h(key) % |t.heads|);
    SpareKept(t, Append(t, h, e, key, val));
  }

  lemma AppendInv(t: Table, h: Hash, e: Entry, key: Key, val: Value)
    requires Inv(t, h) && Loose(t, e) && key !in t.owner
    ensures Inv(Append(t, h, e, key, val), h)
  {
    var t' := Append(t, h, e, key, val);
    forall b {:trigger Bucket(t', h, b)} | 0 <= b < |t.heads| ensures Bucket(t', h, b) {
      if b == h(key) % |t.heads| {
        AppendBucket(t, h, e, key, val);
      } else {
        AppendOther(t, h, e, key, val, b);
      }
    }
    forall k {:trigger Owned(t', h, k)} ensures Owned(t', h, k) { assert Owned(t, h, k); }
    AppendSpare(t, h, e, key, val);
  }

  lemma AppendContents(t: Table, h: Hash, e: Entry, key: Key, val: Value)
    requires Inv(t, h) && Loose(t, e) && key !in t.owner
    ensures Contents(Append(t, h, e, key, val)) == Contents(t)[key := val]
  {
    var t' := Append(t, h, e, key, val);
    ChainsHold(t, h, e);
    AppendVals(t, h, e, key, val);
    forall k | k in t.owner ensures k in Contents(t) && k in Contents(t') && Contents(t')[k] == Contents(t)[k] {
      assert Owned(t, h, k);
    }
  }

  lemma AppendVals(t: Table, h: Hash, e: Entry, key: Key, val: Value)
    requires Inv(t, h) && Loose(t, e) && key !in t.owner
    ensures var t' := Append(t, h, e, key, val);
      && t'.owner == t.owner[key := e] && e in t'.mem && t'.mem[e].val == val
      && forall x :: x in t.mem && x != e ==> x in t'.mem && t'.mem[x].val == t.mem[x].val
  {
  }

  /** A loose entry holds no key. */
  lemma ChainsHold(t: Table, h: Hash, e: Entry)
    requires Inv(t, h) && Loose(t, e)
    ensures forall k :: k in t.owner ==> t.owner[k] != e
  {
    forall k | k in t.owner ensures t.owner[k] != e {
      assert Owned(t, h, k);
    }
  }

  lemma ChainLive(t: Table, h: Hash, b: nat)
    requires Inv(t, h) && b < |t.heads|
    ensures forall e :: e in t.chains[b] ==> Live(t, e)
    ensures forall i :: 0 <= i < |t.chains[b]| ==> Live(t, t.chains[b][i])
  {
    assert Bucket(t, h, b);
    forall e | e in t.chains[b] ensures Live(t, e) { assert Placed(t, h, b, e); }
  }

  lemma ChainsApart(t: Table, h: Hash, b: nat, b': nat)
    requires Inv(t, h) && b < |t.heads| && b' < |t.heads| && b != b'
    ensures forall e :: e in t.chains[b] ==> e !in t.chains[b']
  {
    assert Bucket(t, h, b) && Bucket(t, h, b');
  }

  lemma FreshLoose(t: Table, h: Hash, e: Entry)
    requires Inv(t, h) && e !in t.mem
    ensures Loose(t, e)
  {
    forall b {:trigger t.chains[b]} | 0 <= b < |t.chains| ensures e !in t.chains[b] { ChainLive(t, h, b); }
    if e in t.recycled {
      var i :| 0 <= i < |t.recycled| && t.recycled[i] == e;
      LinkedIn(t.mem, t.recycled, t.free, i);
    }
  }

  // ---- recycling ----

  ghost function Popped(t: Table): Table
    requires t.recycled != [] && t.free != null && t.free in t.mem
  {
    t.(free := t.mem[t.free].next, recycled := t.recycled[1..])
  }

  lemma LinkedTail(mem: Mem, s: seq<Entry>, head: Entry?)
    requires Linked(mem, s, head) && s != []
    ensures head != null && head in mem && Linked(mem, s[1..], mem[head].next) && head !in s[1..]
  {
    assert Next(mem, s, 0);
    forall i {:trigger Next(mem, s[1..], i)} | 0 <= i < |s| - 1 ensures Next(mem, s[1..], i) {
      assert Next(mem, s, i + 1);
    }
  }

  lemma PopInv(t: Table, h: Hash)
    requires Inv(t, h) && t.free != null
    ensures t.recycled != [] && t.free in t.mem && Inv(Popped(t), h) && Loose(Popped(t), t.free)
    ensures Contents(Popped(t)) == Contents(t)
  {
    LinkedTail(t.mem, t.recycled, t.free);
    var t' := Popped(t);
    forall b {:trigger Bucket(t', h, b)} | 0 <= b < |t.heads| ensures Bucket(t', h, b) {
      assert Bucket(t, h, b);
      BucketKept(t, t', h, b);
    }
    forall k {:trigger Owned(t', h, k)} ensures Owned(t', h, k) { assert Owned(t, h, k); }
    forall b {:trigger t'.chains[b]} | 0 <= b < |t.chains| ensures t.free !in t'.chains[b] { ChainLive(t, h, b); }
    forall e | e in t'.recycled ensures !Live(t', e) { assert e in t.recycled; }
  }

  // ---- unlinking ----

  function Recycle(t: Table, e: Entry): Table
    requires e in t.mem
  {
    t.(mem := t.mem[e := t.mem[e].(next := t.free)], free := e)
  }

  ghost function UnlinkAt(t: Table, b: nat, i: nat): Table
    requires b < |t.heads| && b < |t.chains| && i < |t.chains[b]| && t.chains[b][i] in t.mem && (i > 0 ==> t.chains[b][i - 1] in t.mem)
  {
    var e := t.chains[b][i];
    Recycle(Point(t, b, i, t.mem[e].next), e)
      .(chains := t.chains[b := Without(t.chains[b], i)], owner := t.owner - {t.mem[e].key}, recycled := [e] + t.recycled)
  }

  /** What set does with the i-th entry of bucket b when it deletes it. */
  ghost function Unlink(t: Table, h: Hash, b: nat, i: nat): Table
    requires Inv(t, h) && b < |t.heads| && i < |t.chains[b]|
  {
    ChainLive(t, h, b);
    UnlinkAt(t, b, i)
  }

  lemma LinkedWithout(mem: Mem, mem': Mem, s: seq<Entry>, i: nat, head: Entry?, head': Entry?)
    requires Linked(mem, s, head) && i < |s|
    requires forall j :: 0 <= j < |s| ==> s[j] in mem && s[j] in mem'
    requires forall j :: 0 <= j < |s| && j != i ==> mem'[s[j]].next == if j + 1 == i then mem[s[i]].next else mem[s[j]].next
    requires head' == if i == 0 then mem[s[0]].next else head
    ensures Linked(mem', Without(s, i), head')
  {
    var s' := Without(s, i);
    assert Next(mem, s, i);
    forall j {:trigger Next(mem', s', j)} | 0 <= j < |s'| ensures Next(mem', s', j) {
      assert s'[j] == s[if j < i then j else j + 1];
      assert Next(mem, s, if j < i then j else j + 1);
    }
  }

  lemma UnlinkBucket(t: Table, h: Hash, b: nat, i: nat)
    requires Inv(t, h) && b < |t.heads| && i < |t.chains[b]|
    ensures Bucket(Unlink(t, h, b, i), h, b)
  {
    var s, t' := t.chains[b], Unlink(t, h, b, i);
    assert Bucket(t, h, b);
    ChainLive(t, h, b);
    LinkedWithout(t.mem, t'.mem, s, i, t.heads[b], t'.heads[b]);
    forall x | x in t'.chains[b] ensures Placed(t', h, b, x) {
      WithoutIn(s, i, x);
      assert Placed(t, h, b, x) && Live(t, s[i]);
    }
  }

  lemma WithoutIn(s: seq<Entry>, i: nat, x: Entry)
    requires i < |s| && NoDup(s)
    ensures x in Without(s, i) <==> x in s && x != s[i]
  {
    if x in s && x != s[i] {
      var j :| 0 <= j < |s| && s[j] == x;
      assert Without(s, i)[if j < i then j else j - 1] == x;
    }
  }

  lemma UnlinkOther(t: Table, h: Hash, b: nat, i: nat, b': nat)
    requires Inv(t, h) && b < |t.heads| && i < |t.chains[b]| && b' < |t.heads| && b' != b
    ensures Bucket(Unlink(t, h, b, i), h, b')
  {
    assert Bucket(t, h, b');
    ChainLive(t, h, b);
    ChainLive(t, h, b');
    ChainsApart(t, h, b, b');
    assert t.chains[b][i] in t.chains[b];
    BucketKept(t, Unlink(t, h, b, i), h, b');
  }

  lemma LinkedCons(mem: Mem, mem': Mem, e: Entry, s: seq<Entry>, head: Entry?)
    requires Linked(mem, s, head) && e !in s && e in mem' && mem'[e].next == head
    requires forall x :: x in s && x in mem ==> x in mem' && mem'[x].next == mem[x].next
    ensures Linked(mem', [e] + s, e)
  {
    var s' := [e] + s;
    forall i {:trigger Next(mem', s', i)} | 0 <= i < |s'| ensures Next(mem', s', i) {
      if i > 0 { assert Next(mem, s, i - 1); }
    }
  }

  lemma UnlinkSpare(t: Table, h: Hash, b: nat, i: nat)
    requires Inv(t, h) && b < |t.heads| && i < |t.chains[b]|
    ensures Spare(Unlink(t, h, b, i))
  {
    var t' := Unlink(t, h, b, i);
    ChainLive(t, h, b);
    LinkedCons(t.mem, t'.mem, t.chains[b][i], t.recycled, t.free);
  }

  lemma UnlinkOwned(t: Table, h: Hash, b: nat, i: nat, k: Key)
    requires Inv(t, h) && b < |t.heads| && i < |t.chains[b]|
    ensures Owned(Unlink(t, h, b, i), h, k)
  {
    assert Owned(t, h, k) && Bucket(t, h, b);
    ChainLive(t, h, b);
    if k in t.owner { WithoutIn(t.chains[b], i, t.owner[k]); }
  }

  lemma UnlinkInv(t: Table, h: Hash, b: nat, i: nat)
    requires Inv(t, h) && b < |t.heads| && i < |t.chains[b]|
    ensures Inv(Unlink(t, h, b, i), h)
  {
    var t' := Unlink(t, h, b, i);
    forall x {:trigger Bucket(t', h, x)} | 0 <= x < |t.heads| ensures Bucket(t', h, x) {
      if x == b {
        UnlinkBucket(t, h, b, i);
      } else {
        UnlinkOther(t, h, b, i, x);
      }
    }
    forall k {:trigger Owned(t', h, k)} ensures Owned(t', h, k) { UnlinkOwned(t, h, b, i, k); }
    UnlinkSpare(t, h, b, i);
  }

  lemma UnlinkContents(t: Table, h: Hash, b: nat, i: nat)
    requires Inv(t, h) && b < |t.heads| && i < |t.chains[b]|
    ensures t.chains[b][i] in t.mem && var k := t.mem[t.chains[b][i]].key; k in t.owner && Contents(Unlink(t, h, b, i)) == Contents(t) - {k}
  {
    var t' := Unlink(t, h, b, i);
    ChainLive(t, h, b);
    var key := t.mem[t.chains[b][i]].key;
    forall k | k in t.owner ensures k in Contents(t) && (k in Contents(t') <==> k != key) && (k != key ==> Contents(t')[k] == Contents(t)[k]) {
      assert Owned(t, h, k);
    }
  }
}
