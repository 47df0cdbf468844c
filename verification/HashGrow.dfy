/** Growing: every entry moves to the front of its chain in a bucket array twice the size. */
module HashGrow {
  import opened HashChains
  import opened HashWalk

  /** A half-built bucket array: its heads and chains, and the memory its links are in. */
  datatype Build = Build(mem: Mem, heads: seq<Entry?>, chains: seq<seq<Entry>>)

  /** Bucket i of the new array: linked, and holding only moved entries with the right hash. */
  ghost predicate Built(t: Table, w: Build, done: seq<Entry>, i: nat)
    requires |w.heads| == |w.chains| > i
  {
    && Linked(w.mem, w.chains[i], w.heads[i])
    && forall e :: e in w.chains[i] ==> e in done && e in t.mem && t.mem[e].hash % |w.heads| == i
  }

  ghost predicate Arrived(t: Table, w: Build, e: Entry)
    requires |w.heads| == |w.chains| > 0
  {
    e in t.mem && e in w.chains[t.mem[e].hash % |w.heads|]
  }

  ghost predicate SameButNext(t: Table, mem: Mem, done: seq<Entry>)
  {
    && mem.Keys == t.mem.Keys
    && forall e :: e in mem ==> mem[e] == t.mem[e].(next := mem[e].next) && (e in done || mem[e].next == t.mem[e].next)
  }

  ghost predicate Moving(t: Table, w: Build, done: seq<Entry>)
  {
    && |w.heads| == |w.chains| > 0 && SameButNext(t, w.mem, done)
    && (forall i {:trigger Built(t, w, done, i)} :: 0 <= i < |w.heads| ==> Built(t, w, done, i))
    && (forall e :: e in done ==> Arrived(t, w, e))
  }

  function MoveOne(w: Build, e: Entry, i: nat): Build
    requires i < |w.heads| && i < |w.chains| && e in w.mem
  {
    Build(w.mem[e := w.mem[e].(next := w.heads[i])], w.heads[i := e], w.chains[i := [e] + w.chains[i]])
  }

  lemma MoveStart(t: Table, heads: seq<Entry?>, chains: seq<seq<Entry>>)
    requires |heads| == |chains| > 0 && (forall i :: 0 <= i < |heads| ==> heads[i] == null && chains[i] == [])
    ensures Moving(t, Build(t.mem, heads, chains), [])
  {
    assert forall i {:trigger Built(t, Build(t.mem, heads, chains), [], i)} :: 0 <= i < |heads| ==> Built(t, Build(t.mem, heads, chains), [], i);
  }

  lemma MoveBuilt(t: Table, w: Build, done: seq<Entry>, e: Entry, i: nat)
    requires Moving(t, w, done) && e in t.mem && e !in done && i < |w.heads|
    ensures e in w.mem && var b := t.mem[e].hash % |w.heads|; Built(t, MoveOne(w, e, b), done + [e], i)
  {
    var b := t.mem[e].hash % |w.heads|;
    var w' := MoveOne(w, e, b);
    assert Built(t, w, done, i);
    if i == b {
      LinkedCons(w.mem, w'.mem, e, w.chains[i], w.heads[i]);
    } else {
      SameLinks(w.mem, w'.mem, w.chains[i], w.heads[i]);
    }
  }

  lemma MoveStep(t: Table, w: Build, done: seq<Entry>, e: Entry)
    requires Moving(t, w, done) && e in t.mem && e !in done
    ensures e in w.mem && Moving(t, MoveOne(w, e, t.mem[e].hash % |w.heads|), done + [e])
  {
    var b := t.mem[e].hash % |w.heads|;
    var w' := MoveOne(w, e, b);
    forall i {:trigger Built(t, w', done + [e], i)} | 0 <= i < |w'.heads| ensures Built(t, w', done + [e], i) {
      MoveBuilt(t, w, done, e, i);
    }
    forall x | x in done + [e] ensures Arrived(t, w', x) {
      if x in done { assert Arrived(t, w, x); }
    }
  }

  function Grown(t: Table, w: Build): Table
  {
    Table(w.heads, w.mem, t.free, w.chains, t.owner, t.recycled)
  }

  lemma GrownBucket(t: Table, h: Hash, w: Build, done: seq<Entry>, i: nat)
    requires Inv(t, h) && Moving(t, w, done) && (forall e :: e in done <==> Live(t, e)) && i < |w.heads|
    ensures Bucket(Grown(t, w), h, i)
  {
    var t' := Grown(t, w);
    assert Built(t, w, done, i);
    forall e | e in t'.chains[i] ensures Placed(t', h, i, e) {
      assert Live(t, e);
      LiveHashed(t, h, e);
    }
  }

  lemma LiveHashed(t: Table, h: Hash, e: Entry)
    requires Inv(t, h) && Live(t, e)
    ensures t.mem[e].hash == h(t.mem[e].key)
  {
    assert Owned(t, h, t.mem[e].key);
    var b := h(t.mem[e].key) % |t.heads|;
    assert Bucket(t, h, b) && Placed(t, h, b, e);
  }

  /** When everything has moved, the new array holds the same table: no lookup changes. */
  lemma GrownInv(t: Table, h: Hash, w: Build, done: seq<Entry>)
    requires Inv(t, h) && Moving(t, w, done) && (forall e :: e in done <==> Live(t, e))
    ensures Inv(Grown(t, w), h)
  {
    var t' := Grown(t, w);
    forall i {:trigger Bucket(t', h, i)} | 0 <= i < |t'.heads| ensures Bucket(t', h, i) {
      GrownBucket(t, h, w, done, i);
    }
    forall k {:trigger Owned(t', h, k)} ensures Owned(t', h, k) {
      assert Owned(t, h, k);
      if k in t.owner {
        assert Arrived(t, w, t.owner[k]);
        LiveHashed(t, h, t.owner[k]);
      }
    }
    SpareKept(t, t');
  }

  lemma GrownContents(t: Table, h: Hash, w: Build, done: seq<Entry>)
    requires Inv(t, h) && Moving(t, w, done)
    ensures Contents(Grown(t, w)) == Contents(t)
  {
  }

  /** Moving e leaves alone every link the walk still needs. */
  lemma WalkOn(mem: Mem, mem': Mem, heads: seq<Entry?>, chains: seq<seq<Entry>>, run: seq<Entry>, next: Entry?, index: nat, e: Entry)
    requires index <= |heads| == |chains| && e !in run + Flat(chains, index)
    requires Linked(mem, run, next) && forall b {:trigger chains[b]} :: index <= b < |heads| ==> Linked(mem, chains[b], heads[b])
    requires forall x :: x in mem && x != e ==> x in mem' && mem'[x].next == mem[x].next
    ensures Linked(mem', run, next) && forall b {:trigger chains[b]} :: index <= b < |heads| ==> Linked(mem', chains[b], heads[b])
  {
    SameLinks(mem, mem', run, next);
    forall b {:trigger chains[b]} | index <= b < |heads| ensures Linked(mem', chains[b], heads[b]) {
      if e in chains[b] { FlatIn(chains, index, b, e); }
      SameLinks(mem, mem', chains[b], heads[b]);
    }
  }
}
