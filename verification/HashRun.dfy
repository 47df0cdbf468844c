/** Any run of a hash table against the finite map it stands for. */
module HashRuns {
  import opened Common
  import opened Latches
  import opened HashChains
  import opened HashMerge
  import opened HashTables

  /** A call: set with a value or with none, get, clear. */
  datatype Call = Set(key: Key, val: Option<Value>) | Get(key: Key) | Wipe

  /** What a call does to the map. */
  function Effect(m: map<Key, Value>, c: Call): map<Key, Value>
  {
    match c
    case Set(key, Some(val)) => m[key := val]
    case Set(key, None) => m - {key}
    case Get(_) => m
    case Wipe => map[]
  }

  /** The map after the first n calls. */
  function After(m: map<Key, Value>, calls: seq<Call>, n: nat): map<Key, Value>
    requires n <= |calls|
  {
    if n == 0 then m else Effect(After(m, calls, n - 1), calls[n - 1])
  }

  function Lookup(m: map<Key, Value>, key: Key): Option<Value> { if key in m then Some(m[key]) else None }

  /** One answer for each call: what a get finds, nothing for the others. */
  ghost predicate Answered(m: map<Key, Value>, calls: seq<Call>, answers: seq<Option<Value>>)
  {
    && |answers| <= |calls|
    && forall i :: 0 <= i < |answers| ==>
         answers[i] == if calls[i].Get? then Lookup(After(m, calls, i), calls[i].key) else None
  }

  lemma AnsweredNext(m: map<Key, Value>, calls: seq<Call>, answers: seq<Option<Value>>, a: Option<Value>)
    requires Answered(m, calls, answers) && |answers| < |calls|
    requires var c := calls[|answers|]; a == if c.Get? then Lookup(After(m, calls, |answers|), c.key) else None
    ensures Answered(m, calls, answers + [a])
  {
  }

  /** The table is in order and stands for m. */
  ghost predicate Stands(t: HashTable, m: map<Key, Value>)
    reads t, t.slots, t.entries
  {
    forall l {:trigger Lifted(l)} :: Lifted(l) ==> t.Valid() && t.Map() == m
  }

  lemma StandsMeans(t: HashTable, m: map<Key, Value>)
    requires Stands(t, m)
    ensures t.Valid() && t.Map() == m
  {
    assert Lifted(Latch);
  }

  method SetOne(t: HashTable, key: Key, val: Option<Value>, ghost m: map<Key, Value>)
    requires Stands(t, m)
    modifies t, t.slots, t.entries
    ensures Stands(t, Effect(m, Set(key, val))) && fresh(t.entries - old(t.entries)) && (t.slots == old(t.slots) || fresh(t.slots))
  {
    StandsMeans(t, m);
    t.Set(key, val);
  }

  method GetOne(t: HashTable, key: Key, ghost m: map<Key, Value>) returns (a: Option<Value>)
    requires Stands(t, m)
    ensures a == Lookup(m, key)
  {
    StandsMeans(t, m);
    a := t.Get(key);
  }

  method WipeOne(t: HashTable, ghost m: map<Key, Value>)
    requires Stands(t, m)
    modifies t, t.slots, t.entries
    ensures Stands(t, map[]) && t.entries == old(t.entries) && t.slots == old(t.slots)
  {
    StandsMeans(t, m);
    t.Clear();
  }

  method Answer(t: HashTable, c: Call, ghost m: map<Key, Value>) returns (a: Option<Value>)
    requires Stands(t, m)
    modifies t, t.slots, t.entries
    ensures Stands(t, Effect(m, c)) && fresh(t.entries - old(t.entries)) && (t.slots == old(t.slots) || fresh(t.slots))
    ensures a == if c.Get? then Lookup(m, c.key) else None
  {
    a := None;
    match c
    case Set(key, val) => SetOne(t, key, val, m);
    case Get(key) => a := GetOne(t, key, m);
    case Wipe => WipeOne(t, m);
  }

  /** Any run of calls does to the map what the calls say, and every get finds what the map then holds. */
  method Run(t: HashTable, calls: seq<Call>, ghost m: map<Key, Value>) returns (answers: seq<Option<Value>>)
    requires Stands(t, m)
    modifies t, t.slots, t.entries
    ensures Stands(t, After(m, calls, |calls|)) && |answers| == |calls| && Answered(m, calls, answers)
    ensures fresh(t.entries - old(t.entries)) && (t.slots == old(t.slots) || fresh(t.slots))
  {
    answers := [];
    for i := 0 to |calls|
      invariant Stands(t, After(m, calls, i)) && |answers| == i && Answered(m, calls, answers)
      invariant fresh(t.entries - old(t.entries)) && (t.slots == old(t.slots) || fresh(t.slots))
    {
      var a := Answer(t, calls[i], After(m, calls, i));
      AnsweredNext(m, calls, answers, a);
      answers := answers + [a];
    }
  }

  /** From the empty table. */
  method RunNew(hash: Hash, calls: seq<Call>) returns (t: HashTable, answers: seq<Option<Value>>)
    ensures fresh(t) && t.Valid() && t.Map() == After(map[], calls, |calls|)
    ensures |answers| == |calls| && Answered(map[], calls, answers)
  {
    t := HashTable.Make(hash);
    answers := Run(t, calls, map[]);
    StandsMeans(t, After(map[], calls, |calls|));
  }

  /** A copy goes its own way: what is done to it leaves the table it was made from as it was. */
  method RunCopy(t: HashTable, calls: seq<Call>, ghost m: map<Key, Value>) returns (c: HashTable, answers: seq<Option<Value>>)
    requires Stands(t, m)
    ensures fresh(c) && Stands(c, After(m, calls, |calls|)) && Stands(t, m)
    ensures |answers| == |calls| && Answered(m, calls, answers)
  {
    c := CopyOf(t, m);
    answers := Run(c, calls, m);
  }

  method CopyOf(t: HashTable, ghost m: map<Key, Value>) returns (c: HashTable)
    requires Stands(t, m)
    ensures fresh(c) && fresh(c.slots) && fresh(c.entries) && Stands(c, m)
  {
    StandsMeans(t, m);
    c := t.Copy();
  }

  /** So does a merged table: neither part is touched. */
  method RunMerged(t: HashTable, overlay: HashTable, mg: Option<Merger>, calls: seq<Call>, ghost m: map<Key, Value>, ghost n: map<Key, Value>)
      returns (c: HashTable, answers: seq<Option<Value>>)
    requires Stands(t, m) && Stands(overlay, n)
    ensures fresh(c) && Stands(c, After(Merged(m, n, mg), calls, |calls|))
    ensures |answers| == |calls| && Answered(Merged(m, n, mg), calls, answers)
  {
    c := MergeOf(t, overlay, mg, m, n);
    answers := Run(c, calls, Merged(m, n, mg));
  }

  method MergeOf(t: HashTable, overlay: HashTable, mg: Option<Merger>, ghost m: map<Key, Value>, ghost n: map<Key, Value>) returns (c: HashTable)
    requires Stands(t, m) && Stands(overlay, n)
    ensures fresh(c) && fresh(c.slots) && fresh(c.entries) && Stands(c, Merged(m, n, mg))
  {
    StandsMeans(t, m);
    StandsMeans(overlay, n);
    c := t.Merge(overlay, mg);
  }
}
