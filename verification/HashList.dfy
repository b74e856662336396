/** The association list that a hash table stands for, and how it splits into buckets. */
module Association {
  datatype Option<+T> = None | Some(value: T)

  /** The earliest live binding of `key`. */
  function Lookup<K(==), V>(log: seq<(K, V)>, key: K): Option<V>
  {
    if log == [] then None
    else if log[0].0 == key then Some(log[0].1)
    else Lookup(log[1..], key)
  }

  /** `log` without the earliest binding of `key`. */
  function Drop<K(==), V>(log: seq<(K, V)>, key: K): seq<(K, V)>
  {
    if log == [] then []
    else if log[0].0 == key then log[1..]
    else [log[0]] + Drop(log[1..], key)
  }

  /** The bindings of `log` whose key hashes to bucket `i`, in order. */
  function Bucket<K, V>(log: seq<(K, V)>, hash: K -> nat, size: nat, i: nat): seq<(K, V)>
    requires size > 0
  {
    if log == [] then []
    else if hash(log[0].0) % size == i then [log[0]] + Bucket(log[1..], hash, size, i)
    else Bucket(log[1..], hash, size, i)
  }

  ghost predicate DistinctKeys<K, V>(log: seq<(K, V)>)
  {
    forall i, j :: 0 <= i < j < |log| ==> log[i].0 != log[j].0
  }

  lemma {:induction false} BucketAppend<K, V>(log: seq<(K, V)>, e: (K, V), hash: K -> nat, size: nat, i: nat)
    requires size > 0
    ensures Bucket(log + [e], hash, size, i)
         == Bucket(log, hash, size, i) + if hash(e.0) % size == i then [e] else []
  {
    if log == [] {
      assert log + [e] == [e];
    } else {
      assert (log + [e])[1..] == log[1..] + [e];
      BucketAppend(log[1..], e, hash, size, i);
    }
  }

  lemma {:induction false} BucketDrop<K, V>(log: seq<(K, V)>, key: K, hash: K -> nat, size: nat, i: nat)
    requires size > 0
    ensures Bucket(Drop(log, key), hash, size, i)
         == if hash(key) % size == i then Drop(Bucket(log, hash, size, i), key) else Bucket(log, hash, size, i)
  {
    if log != [] && log[0].0 != key {
      BucketDrop(log[1..], key, hash, size, i);
      assert Drop(log, key)[1..] == Drop(log[1..], key);
      var b := Bucket(log[1..], hash, size, i);
      assert ([log[0]] + b)[1..] == b;
    } else if log != [] {
      var b := Bucket(log[1..], hash, size, i);
      assert ([log[0]] + b)[1..] == b;
    }
  }

  lemma {:induction false} BucketLookup<K, V>(log: seq<(K, V)>, key: K, hash: K -> nat, size: nat)
    requires size > 0
    ensures Lookup(Bucket(log, hash, size, hash(key) % size), key) == Lookup(log, key)
  {
    if log != [] {
      BucketLookup(log[1..], key, hash, size);
      var b := Bucket(log[1..], hash, size, hash(key) % size);
      assert ([log[0]] + b)[1..] == b;
    }
  }

  /** Looking up skips a prefix that does not bind the key. */
  lemma {:induction false} LookupSkip<K, V>(log: seq<(K, V)>, key: K, n: nat)
    requires n <= |log|
    requires forall j :: 0 <= j < n ==> log[j].0 != key
    ensures Lookup(log, key) == Lookup(log[n..], key)
    ensures Drop(log, key) == log[..n] + Drop(log[n..], key)
  {
    if n == 0 {
      assert log[0..] == log;
    } else {
      assert log[0].0 != key;
      var rest := log[1..];
      assert rest[n - 1..] == log[n..];
      LookupSkip(rest, key, n - 1);
      assert [log[0]] + (rest[..n - 1] + Drop(rest[n - 1..], key)) == log[..n] + Drop(log[n..], key);
    }
  }

  lemma {:induction false} LookupAppend<K, V>(log: seq<(K, V)>, e: (K, V), key: K)
    ensures Lookup(log + [e], key)
         == if Lookup(log, key).Some? then Lookup(log, key) else if e.0 == key then Some(e.1) else None
  {
    if log == [] {
      assert log + [e] == [e];
    } else {
      assert (log + [e])[1..] == log[1..] + [e];
      LookupAppend(log[1..], e, key);
    }
  }

  /** A key is bound exactly when some entry carries it. */
  lemma {:induction false} LookupNone<K, V>(log: seq<(K, V)>, key: K)
    ensures Lookup(log, key).None? <==> forall j :: 0 <= j < |log| ==> log[j].0 != key
  {
    if log != [] && log[0].0 != key {
      LookupNone(log[1..], key);
      assert forall j :: 0 < j < |log| ==> log[j] == log[1..][j - 1];
    }
  }

  /** Dropping one key leaves what every other key is bound to. */
  lemma {:induction false} LookupDropOther<K, V>(log: seq<(K, V)>, key: K, other: K)
    requires key != other
    ensures Lookup(Drop(log, key), other) == Lookup(log, other)
  {
    if log != [] && log[0].0 != key {
      LookupDropOther(log[1..], key, other);
      assert Drop(log, key)[1..] == Drop(log[1..], key);
    }
  }

  /** With distinct keys, dropping a key unbinds it. */
  lemma {:induction false} DropDistinct<K, V>(log: seq<(K, V)>, key: K)
    requires DistinctKeys(log)
    ensures DistinctKeys(Drop(log, key))
    ensures Lookup(Drop(log, key), key).None?
    ensures forall e :: e in Drop(log, key) ==> e in log
  {
    if log != [] {
      assert forall i, j :: 0 <= i < j < |log[1..]| ==> log[1..][i] == log[i + 1] && log[1..][j] == log[j + 1];
      if log[0].0 == key {
        LookupNone(log[1..], key);
      } else {
        var rest := Drop(log[1..], key);
        DropDistinct(log[1..], key);
        assert Drop(log, key)[1..] == rest;
        forall j | 0 <= j < |rest| ensures rest[j].0 != log[0].0 {
          assert rest[j] in log[1..];
        }
      }
    }
  }

  lemma AppendDistinct<K, V>(log: seq<(K, V)>, e: (K, V))
    requires DistinctKeys(log) && Lookup(log, e.0).None?
    ensures DistinctKeys(log + [e])
  {
    LookupNone(log, e.0);
  }
}

/** The chained hash table of include/file/HashList.tpp. */
module HashLists {
  import opened Association
  import opened Sequences

  /** One link of a bucket's chain; key and value are set once, when the link is made. */
  class HashItem<K, V> {
    const key: K
    const value: V
    var next: HashItem?<K, V>

    constructor (key: K, value: V)
      ensures this.key == key && this.value == value && next == null
    {
      this.key, this.value, next := key, value, null;
    }
  }

  /** `chain` is what following `next` from `head` visits. */
  ghost predicate Linked<K, V>(head: HashItem?<K, V>, chain: seq<HashItem<K, V>>)
    reads chain
  {
    && head == (if chain == [] then null else chain[0])
    && (forall j {:trigger chain[j].next} :: 0 <= j < |chain| - 1 ==> chain[j].next == chain[j + 1])
    && (chain != [] ==> chain[|chain| - 1].next == null)
  }

  ghost function Bindings<K, V>(chain: seq<HashItem<K, V>>): seq<(K, V)>
  {
    seq(|chain|, j requires 0 <= j < |chain| => (chain[j].key, chain[j].value))
  }

  /** Every item sits in the bucket its key hashes to. */
  ghost predicate AtHome<K, V>(chains: seq<seq<HashItem<K, V>>>, hash: K -> nat)
  {
    forall i, j :: 0 <= i < |chains| && 0 <= j < |chains[i]| ==> hash(chains[i][j].key) % |chains| == i
  }

  /** Every bucket holds exactly the live bindings whose key hashes to it, oldest first. */
  ghost predicate Filed<K, V>(chains: seq<seq<HashItem<K, V>>>, log: seq<(K, V)>, hash: K -> nat)
  {
    && |chains| > 0
    && (forall i :: 0 <= i < |chains| ==> Bindings(chains[i]) == Bucket(log, hash, |chains|, i))
  }

  /** A scan of the key's chain that stops at position `j` settles the lookup. */
  lemma ScanStopsAt<K, V>(chains: seq<seq<HashItem<K, V>>>, log: seq<(K, V)>, hash: K -> nat, key: K, j: nat)
    requires Filed(chains, log, hash)
    requires var chain := chains[hash(key) % |chains|];
      && j <= |chain|
      && (forall m :: 0 <= m < j ==> chain[m].key != key)
      && (j < |chain| ==> chain[j].key == key)
    ensures var chain := chains[hash(key) % |chains|];
      Lookup(log, key) == if j < |chain| then Some(chain[j].value) else None
  {
    var chain := chains[hash(key) % |chains|];
    BucketLookup(log, key, hash, |chains|);
    LookupSkip(Bindings(chain), key, j);
  }

  /** Linking a new item at the end of its key's chain files one more binding, the newest. */
  lemma FiledAfterAdd<K, V>(chains: seq<seq<HashItem<K, V>>>, log: seq<(K, V)>, hash: K -> nat, item: HashItem<K, V>)
    requires Filed(chains, log, hash)
    ensures var index := hash(item.key) % |chains|;
      Filed(chains[index := chains[index] + [item]], log + [(item.key, item.value)], hash)
  {
    var index, e := hash(item.key) % |chains|, (item.key, item.value);
    var after := chains[index := chains[index] + [item]];
    forall i | 0 <= i < |after| ensures Bindings(after[i]) == Bucket(log + [e], hash, |after|, i) {
      BucketAppend(log, e, hash, |chains|, i);
      assert Bindings(chains[index] + [item]) == Bindings(chains[index]) + [e];
    }
  }

  lemma UnlinkedBindings<K, V>(chain: seq<HashItem<K, V>>, key: K, j: nat)
    requires j <= |chain|
    requires forall m :: 0 <= m < j ==> chain[m].key != key
    requires j < |chain| ==> chain[j].key == key
    ensures Bindings(Unlinked(chain, j)) == Drop(Bindings(chain), key)
  {
    var b := Bindings(chain);
    LookupSkip(b, key, j);
    if j < |chain| {
      assert b[j..][0].0 == key && b[j..][1..] == b[j + 1..];
      assert Bindings(Unlinked(chain, j)) == b[..j] + b[j + 1..];
    } else {
      assert b[j..] == [];
    }
  }

  /** Unlinking the item where the scan stopped drops the earliest live binding of the key, and no other. */
  lemma FiledAfterRemove<K, V>(chains: seq<seq<HashItem<K, V>>>, log: seq<(K, V)>, hash: K -> nat, key: K, j: nat)
    requires Filed(chains, log, hash)
    requires var chain := chains[hash(key) % |chains|];
      && j <= |chain|
      && (forall m :: 0 <= m < j ==> chain[m].key != key)
      && (j < |chain| ==> chain[j].key == key)
    ensures var index := hash(key) % |chains|;
      Filed(chains[index := Unlinked(chains[index], j)], Drop(log, key), hash)
  {
    var index := hash(key) % |chains|;
    var after := chains[index := Unlinked(chains[index], j)];
    UnlinkedBindings(chains[index], key, j);
    forall i | 0 <= i < |after| ensures Bindings(after[i]) == Bucket(Drop(log, key), hash, |after|, i) {
      BucketDrop(log, key, hash, |chains|, i);
    }
  }

  ghost function Unlinked<T>(chain: seq<T>, j: nat): seq<T>
  {
    if j < |chain| then chain[..j] + chain[j + 1..] else chain
  }

  class HashList<K(==), V> {
    const hash: K -> nat
    const none: V                  // VALUE(), what a failed lookup returns
    const list: array<HashItem?<K, V>>
    ghost var chains: seq<seq<HashItem<K, V>>>
    ghost var log: seq<(K, V)>     // the live bindings, oldest first
    ghost var Repr: set<object>

    /** The heap shape: bucket `i` of the array heads the chain `chains[i]`, and no item is in two buckets. */
    ghost predicate Links()
      reads this, Repr
    {
      && this in Repr && list in Repr
      && list.Length == |chains| > 0
      && (forall i, j :: 0 <= i < |chains| && 0 <= j < |chains[i]| ==> chains[i][j] in Repr)
      && (forall i :: 0 <= i < |chains| ==> Linked(list[i], chains[i]) && NoDup(chains[i]))
      && AtHome(chains, hash)
    }

    ghost predicate Valid()
      reads this, Repr
      ensures Valid() ==> this in Repr
    {
      Links() && Filed(chains, log, hash)
    }

    constructor (size: nat, hash: K -> nat, none: V)
      requires size > 0
      ensures Valid() && fresh(Repr) && log == []
      ensures this.none == none
    {
      this.hash, this.none := hash, none;
      list := new HashItem?<K, V>[size](_ => null);
      chains := seq(size, _ => []);
      log := [];
      new;
      Repr := {this, list};
    }

    method GetValue(key: K) returns (value: V)
      requires Valid()
      ensures value == if Lookup(log, key).Some? then Lookup(log, key).value else none
    {
      var index := hash(key) % list.Length;
      var pos := list[index];
      ghost var chain, j := chains[index], 0;
      while pos != null && pos.key != key
        invariant 0 <= j <= |chain| && Linked(list[index], chain)
        invariant pos == if j < |chain| then chain[j] else null
        invariant forall i :: 0 <= i < j ==> chain[i].key != key
        decreases |chain| - j
      {
        pos, j := pos.next, j + 1;
      }
      ScanStopsAt(chains, log, hash, key, j);
      value := if pos == null then none else pos.value;
    }

    method Add(key: K, value: V)
      requires Valid()
      modifies Repr
      ensures Valid() && fresh(Repr - old(Repr))
      ensures log == old(log) + [(key, value)]
    {
      var item := new HashItem(key, value);
      FiledAfterAdd(chains, log, hash, item);
      LinkItem(item);
      log := log + [(key, value)];
    }

    method LinkItem(item: HashItem<K, V>)
      requires Links() && item !in Repr && item.next == null
      modifies Repr
      ensures Links() && Repr == old(Repr) + {item} && log == old(log)
      ensures var index := hash(item.key) % |old(chains)|;
        chains == old(chains)[index := old(chains)[index] + [item]]
    {
      var index := hash(item.key) % list.Length;
      ghost var chain := chains[index];
      forall i, j | 0 <= i < |chains| && i != index && 0 <= j < |chains[i]| ensures chains[i][j] !in chain {
      }
      list[index] := LinkLast(list[index], chain, item);
      chains, Repr := chains[index := chain + [item]], Repr + {item};
      forall i | 0 <= i < |chains| ensures Linked(list[i], chains[i]) && NoDup(chains[i]) {
        assert i != index ==> old(Linked(list[i], chains[i])) && NoDup(old(chains)[i]);
      }
    }

    /** The scan of the source with its missing `ppos = pos; pos = pos->next` put in. */
    method Remove(key: K) returns (found: bool)
      requires Valid()
      modifies Repr
      ensures Valid() && Repr == old(Repr)
      ensures found == Lookup(old(log), key).Some?
      ensures log == Drop(old(log), key)
    {
      ghost var j;
      found, j := UnlinkItem(key);
      ScanStopsAt(old(chains), log, hash, key, j);
      FiledAfterRemove(old(chains), log, hash, key, j);
      log := Drop(log, key);
    }

    method UnlinkItem(key: K) returns (found: bool, ghost j: nat)
      requires Links()
      modifies Repr
      ensures Links() && Repr == old(Repr) && log == old(log)
      ensures var index := hash(key) % |old(chains)|;
        var chain := old(chains)[index];
        && j <= |chain| && found == (j < |chain|)
        && (forall i :: 0 <= i < j ==> chain[i].key != key)
        && (found ==> chain[j].key == key)
        && chains == old(chains)[index := Unlinked(chain, j)]
    {
      var index := hash(key) % list.Length;
      ghost var chain := chains[index];
      forall i, j | 0 <= i < |chains| && i != index && 0 <= j < |chains[i]| ensures chains[i][j] !in chain {
      }
      var head;
      head, found, j := UnlinkFirst(list[index], chain, key);
      list[index] := head;
      chains := chains[index := Unlinked(chain, j)];
      forall i | 0 <= i < |chains| ensures Linked(list[i], chains[i]) && NoDup(chains[i]) {
        assert i != index ==> old(Linked(list[i], chains[i])) && NoDup(old(chains)[i]);
      }
    }
  }

  /** The walk of HashList::add to the end of one chain, and the link it makes there. */
  method LinkLast<K, V>(head: HashItem?<K, V>, ghost chain: seq<HashItem<K, V>>, item: HashItem<K, V>)
      returns (newHead: HashItem<K, V>)
    requires Linked(head, chain) && NoDup(chain)
    requires item !in chain && item.next == null
    modifies chain
    ensures Linked(newHead, chain + [item]) && NoDup(chain + [item])
  {
    if head == null {
      newHead := item;
    } else {
      var saveplace := head;
      ghost var j := 0;
      while saveplace.next != null
        invariant 0 <= j < |chain| && Linked(head, chain)
        invariant saveplace == chain[j]
        decreases |chain| - j
      {
        saveplace, j := saveplace.next, j + 1;
      }
      saveplace.next := item;
      newHead := head;
    }
  }

  /** The scan of HashList::remove over one chain: the first item of the key, and the one before it. */
  method FindFirst<K(==), V>(head: HashItem?<K, V>, ghost chain: seq<HashItem<K, V>>, key: K)
      returns (pos: HashItem?<K, V>, ppos: HashItem?<K, V>, ghost j: nat)
    requires Linked(head, chain)
    ensures j <= |chain| && (forall i :: 0 <= i < j ==> chain[i].key != key)
    ensures pos == (if j < |chain| then chain[j] else null) && ppos == (if j == 0 then null else chain[j - 1])
    ensures j < |chain| ==> chain[j].key == key
  {
    j := 0;
    pos, ppos := head, null;
    while pos != null && pos.key != key
      invariant 0 <= j <= |chain| && Linked(head, chain)
      invariant pos == if j < |chain| then chain[j] else null
      invariant ppos == if j == 0 then null else chain[j - 1]
      invariant forall i :: 0 <= i < j ==> chain[i].key != key
      decreases |chain| - j
    {
      ppos, pos, j := pos, pos.next, j + 1;
    }
  }

  /** Cutting the `j`-th item out. */
  method CutAt<K, V>(head: HashItem?<K, V>, ghost chain: seq<HashItem<K, V>>, pos: HashItem<K, V>,
      ppos: HashItem?<K, V>, ghost j: nat) returns (newHead: HashItem?<K, V>)
    requires Linked(head, chain) && NoDup(chain)
    requires j < |chain| && pos == chain[j] && ppos == if j == 0 then null else chain[j - 1]
    modifies chain
    ensures Linked(newHead, Unlinked(chain, j)) && NoDup(Unlinked(chain, j))
  {
    CutOut(chain, j);
    newHead := head;
    ghost var rest := Unlinked(chain, j);
    if ppos == null {
      assert rest == chain[1..];
      newHead := pos.next;
    } else {
      ppos.next := pos.next;
      forall i | 0 <= i < |rest| - 1 ensures rest[i].next == rest[i + 1] {
        var at := if i < j then i else i + 1;
        assert rest[i] == chain[at] && (i != j - 1 ==> chain[at].next == old(chain[at].next));
      }
    }
  }

  /** And the link that it cuts. */
  method UnlinkFirst<K(==), V>(head: HashItem?<K, V>, ghost chain: seq<HashItem<K, V>>, key: K)
      returns (newHead: HashItem?<K, V>, found: bool, ghost j: nat)
    requires Linked(head, chain) && NoDup(chain)
    modifies chain
    ensures j <= |chain| && found == (j < |chain|)
    ensures forall i :: 0 <= i < j ==> chain[i].key != key
    ensures found ==> chain[j].key == key
    ensures Linked(newHead, Unlinked(chain, j)) && NoDup(Unlinked(chain, j))
  {
    var pos, ppos;
    pos, ppos, j := FindFirst(head, chain, key);
    newHead, found := head, pos != null;
    if found {
      newHead := CutAt(head, chain, pos, ppos, j);
    }
  }
}
