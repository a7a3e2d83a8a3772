// FH_HASH_TABLE_BASE of cpp11/HashTableBase.h: chains of nodes that are marked
// erased rather than unlinked, and reused by later insertions.

// The chains as values.
module Chains {
  import opened Options

  // What a node holds: key, value and the erased flag.
  datatype Entry<K, V> = Entry(key: K, value: V, erased: bool)

  type Chain<K, V> = seq<Entry<K, V>>

  function Bucket<K, V>(hasher: K -> nat, k: K, size: nat): (b: nat)
    requires size > 0
    ensures b < size
  {
    hasher(k) % size
  }

  // No node holding the key of a live node, live or erased, precedes it.
  ghost predicate LiveComesFirst<K, V>(c: Chain<K, V>) {
    forall i, j :: 0 <= i < j < |c| && !c[j].erased ==> c[i].key != c[j].key
  }

  ghost predicate HoldsLive<K, V>(c: Chain<K, V>, k: K, v: V) {
    Entry(k, v, false) in c
  }

  ghost predicate Holds<K, V>(c: Chain<K, V>, k: K) {
    exists i :: 0 <= i < |c| && c[i].key == k
  }

  // The live entries are exactly those of the table, each in its bucket.
  ghost predicate ChainOk<K, V>(c: Chain<K, V>, b: nat, hasher: K -> nat, size: nat, table: map<K, V>)
    requires size > 0
  {
    && LiveComesFirst(c)
    && (forall i :: 0 <= i < |c| ==> Bucket<K, V>(hasher, c[i].key, size) == b)
    && (forall i :: 0 <= i < |c| && !c[i].erased ==> c[i].key in table && table[c[i].key] == c[i].value)
    && (forall k :: k in table && Bucket<K, V>(hasher, k, size) == b ==> HoldsLive(c, k, table[k]))
  }

  // All chains, and the table they stand for.
  datatype Store<K, V> = Store(chains: seq<Chain<K, V>>, table: map<K, V>)

  ghost predicate Represents<K, V>(st: Store<K, V>, hasher: K -> nat) {
    match st
    case Store(chains, table) =>
      && |chains| > 0
      && forall b {:trigger chains[b]} :: 0 <= b < |chains| ==> ChainOk(chains[b], b, hasher, |chains|, table)
  }

  // What happened to nodes: one took a key, or was marked erased.
  datatype Event<K> = Stored(key: K, chain: nat, node: nat) | Marked(key: K, chain: nat, node: nat)

  // The last event of the i-th node of chain b.
  ghost function LastAt<K>(history: seq<Event<K>>, b: nat, i: nat): Option<Event<K>> {
    if history == [] then None
    else
      var (front, e) := (history[..|history| - 1], history[|history| - 1]);
      if e.chain == b && e.node == i then Some(e) else LastAt(front, b, i)
  }

  ghost function EventOf<K, V>(e: Entry<K, V>, b: nat, i: nat): Event<K> {
    if e.erased then Marked(e.key, b, i) else Stored(e.key, b, i)
  }

  // What a node holds is what its last event says.
  ghost predicate Recorded<K, V>(chains: seq<Chain<K, V>>, history: seq<Event<K>>) {
    forall b: nat, i: nat {:trigger LastAt(history, b, i)} ::
      LastAt(history, b, i) ==
        if b < |chains| && i < |chains[b]| then Some(EventOf(chains[b][i], b, i)) else None
  }

  lemma RecordedStep<K, V>(chains: seq<Chain<K, V>>, history: seq<Event<K>>, b: nat, i: nat, e: Entry<K, V>,
                           chains': seq<Chain<K, V>>, history': seq<Event<K>>)
    requires Recorded(chains, history) && b < |chains| && i <= |chains[b]|
    requires chains' == chains[b := SetEntry(chains[b], i, e)] && history' == history + [EventOf(e, b, i)]
    ensures Recorded(chains', history')
  {
    assert history'[..|history|] == history;
    forall a: nat, j: nat
      ensures LastAt(history', a, j) ==
                if a < |chains'| && j < |chains'[a]| then Some(EventOf(chains'[a][j], a, j)) else None
    {
      assert LastAt(history, a, j) ==
        if a < |chains| && j < |chains[a]| then Some(EventOf(chains[a][j], a, j)) else None;
    }
  }

  ghost predicate HoldsErased<K, V>(c: Chain<K, V>, k: K) {
    exists i :: 0 <= i < |c| && c[i].key == k && c[i].erased
  }

  // A chain holds a key that is in the table, or in an erased node.
  lemma HeldIffLiveOrErased<K, V>(chains: seq<Chain<K, V>>, hasher: K -> nat, table: map<K, V>, k: K)
    requires Represents(Store(chains, table), hasher)
    ensures var c := chains[Bucket<K, V>(hasher, k, |chains|)];
      Holds(c, k) <==> k in table || HoldsErased(c, k)
  {
    if k in table { InTableHeld(chains, hasher, table, k); }
    var b := Bucket<K, V>(hasher, k, |chains|);
    var c := chains[b];
    assert ChainOk(c, b, hasher, |chains|, table);
    if Holds(c, k) && !HoldsErased(c, k) {
      var i :| 0 <= i < |c| && c[i].key == k;
      assert !c[i].erased;
    }
  }

  // Seen from the calls made: some node was marked erased for k and no later
  // insertion has reused it.
  ghost predicate ErasedAndNotReused<K>(history: seq<Event<K>>, k: K) {
    exists b: nat, i: nat :: LastAt(history, b, i) == Some(Marked(k, b, i))
  }

  lemma HeldErasedMeaning<K, V>(chains: seq<Chain<K, V>>, hasher: K -> nat, table: map<K, V>,
                                history: seq<Event<K>>, k: K)
    requires Represents(Store(chains, table), hasher) && Recorded(chains, history)
    ensures HoldsErased(chains[Bucket<K, V>(hasher, k, |chains|)], k) <==> ErasedAndNotReused(history, k)
  {
    var b := Bucket<K, V>(hasher, k, |chains|);
    if HoldsErased(chains[b], k) {
      var i: nat :| i < |chains[b]| && chains[b][i].key == k && chains[b][i].erased;
      assert LastAt(history, b, i) == Some(Marked(k, b, i));
    }
    if ErasedAndNotReused(history, k) {
      var a: nat, i: nat :| LastAt(history, a, i) == Some(Marked(k, a, i));
      assert chains[a][i].key == k && chains[a][i].erased;
      assert ChainOk(chains[a], a, hasher, |chains|, table);
    }
  }

  ghost function Erased<K, V>(c: Chain<K, V>): nat {
    if c == [] then 0 else Erased(c[..|c| - 1]) + if c[|c| - 1].erased then 1 else 0
  }

  ghost function ErasedIn<K, V>(chains: seq<Chain<K, V>>): nat {
    if chains == [] then 0 else ErasedIn(chains[..|chains| - 1]) + Erased(chains[|chains| - 1])
  }

  lemma {:induction false} NoneErased<K, V>(chains: seq<Chain<K, V>>)
    requires forall b :: 0 <= b < |chains| ==> chains[b] == []
    ensures ErasedIn(chains) == 0
    decreases |chains|
  {
    if chains != [] { NoneErased(chains[..|chains| - 1]); }
  }

  lemma {:induction false} ErasedFlag<K, V>(c: Chain<K, V>, i: nat, e: Entry<K, V>)
    requires i < |c|
    ensures Erased(c[i := e]) == Erased(c) - (if c[i].erased then 1 else 0) + (if e.erased then 1 else 0)
    decreases |c|
  {
    var n := |c| - 1;
    if i == n {
      assert c[i := e][..n] == c[..n];
    } else {
      assert c[i := e][..n] == c[..n][i := e];
      ErasedFlag(c[..n], i, e);
    }
  }

  lemma ErasedAppend<K, V>(c: Chain<K, V>, e: Entry<K, V>)
    ensures Erased(c + [e]) == Erased(c) + if e.erased then 1 else 0
  {
    assert (c + [e])[..|c|] == c;
  }

  lemma {:induction false} ErasedChanges<K, V>(chains: seq<Chain<K, V>>, b: nat, c: Chain<K, V>)
    requires b < |chains|
    ensures ErasedIn(chains[b := c]) == ErasedIn(chains) - Erased(chains[b]) + Erased(c)
    decreases |chains|
  {
    var n := |chains| - 1;
    if b == n {
      assert chains[b := c][..n] == chains[..n];
    } else {
      assert chains[b := c][..n] == chains[..n][b := c];
      ErasedChanges(chains[..n], b, c);
    }
  }

  // One chain changes, and with it what the table says of one key.
  lemma ChangeOne<K, V>(chains: seq<Chain<K, V>>, hasher: K -> nat, table: map<K, V>, k: K, c: Chain<K, V>,
                        table': map<K, V>)
    requires Represents(Store(chains, table), hasher)
    requires ChainOk(c, Bucket<K, V>(hasher, k, |chains|), hasher, |chains|, table')
    requires table' - {k} == table - {k}
    ensures Represents(Store(chains[Bucket<K, V>(hasher, k, |chains|) := c], table'), hasher)
  {
    var b := Bucket<K, V>(hasher, k, |chains|);
    forall a: nat | a < |chains| && a != b ensures ChainOk(chains[a], a, hasher, |chains|, table') {
      OtherChain(chains[a], a, hasher, |chains|, table, k, table');
    }
  }

  lemma OtherChain<K, V>(c: Chain<K, V>, a: nat, hasher: K -> nat, size: nat, table: map<K, V>, k: K, table': map<K, V>)
    requires size > 0 && ChainOk(c, a, hasher, size, table)
    requires Bucket<K, V>(hasher, k, size) != a && table' - {k} == table - {k}
    ensures ChainOk(c, a, hasher, size, table')
  {
    forall x | x != k ensures x in table' <==> x in table {
      assert x in table' - {k} <==> x in table - {k};
    }
    forall x | x != k && x in table ensures table'[x] == table[x] {
      assert (table' - {k})[x] == (table - {k})[x];
    }
  }

  // Marking the first node with key k.
  lemma MarkFirst<K, V>(c: Chain<K, V>, b: nat, hasher: K -> nat, size: nat, table: map<K, V>, i: nat)
    requires size > 0 && ChainOk(c, b, hasher, size, table)
    requires i < |c| && forall j :: 0 <= j < i ==> c[j].key != c[i].key
    ensures c[i].erased <==> c[i].key !in table
    ensures ChainOk(c[i := c[i].(erased := true)], b, hasher, size, table - {c[i].key})
  {
    var k := c[i].key;
    if k in table {
      var j :| 0 <= j < |c| && c[j] == Entry(k, table[k], false);
      assert i <= j;
    }
    var c' := c[i := c[i].(erased := true)];
    forall x | x in table - {k} && Bucket<K, V>(hasher, x, size) == b ensures HoldsLive(c', x, (table - {k})[x]) {
      assert HoldsLive(c, x, table[x]);
      var j :| 0 <= j < |c| && c[j] == Entry(x, table[x], false);
      assert c'[j] == c[j];
    }
  }

  lemma InTableHeld<K, V>(chains: seq<Chain<K, V>>, hasher: K -> nat, table: map<K, V>, k: K)
    requires Represents(Store(chains, table), hasher) && k in table
    ensures Holds(chains[Bucket<K, V>(hasher, k, |chains|)], k)
  {
    var c := chains[Bucket<K, V>(hasher, k, |chains|)];
    assert HoldsLive(c, k, table[k]);
    var i :| 0 <= i < |c| && c[i] == Entry(k, table[k], false);
  }

  lemma NotHeld<K, V>(c: Chain<K, V>, b: nat, hasher: K -> nat, size: nat, table: map<K, V>, k: K)
    requires size > 0 && ChainOk(c, b, hasher, size, table) && Bucket<K, V>(hasher, k, size) == b
    requires forall j :: 0 <= j < |c| ==> c[j].erased || c[j].key != k
    ensures k !in table
  {
    assert k in table ==> HoldsLive(c, k, table[k]);
  }

  // Writing a value over a live node.
  lemma Overwrite<K, V>(c: Chain<K, V>, b: nat, hasher: K -> nat, size: nat, table: map<K, V>, i: nat, v: V)
    requires size > 0 && ChainOk(c, b, hasher, size, table)
    requires i < |c| && !c[i].erased
    ensures ChainOk(c[i := c[i].(value := v)], b, hasher, size, table[c[i].key := v])
  {
    var k := c[i].key;
    var (c', table') := (c[i := c[i].(value := v)], table[k := v]);
    forall x | x in table' && Bucket<K, V>(hasher, x, size) == b ensures HoldsLive(c', x, table'[x]) {
      if x == k {
        assert c'[i] == Entry(k, v, false);
      } else {
        assert HoldsLive(c, x, table[x]);
        var j :| 0 <= j < |c| && c[j] == Entry(x, table[x], false);
        assert c'[j] == c[j];
      }
    }
    forall j | 0 <= j < |c'| && !c'[j].erased ensures c'[j].key in table' && table'[c'[j].key] == c'[j].value {
      if j != i { assert c[j].key != k by { assert if i < j then c[i].key != c[j].key else c[j].key != c[i].key; } }
    }
  }

  // Reusing the first erased node for a key not in the table.
  lemma Reuse<K, V>(c: Chain<K, V>, b: nat, hasher: K -> nat, size: nat, table: map<K, V>, i: nat, k: K, v: V)
    requires size > 0 && ChainOk(c, b, hasher, size, table) && Bucket<K, V>(hasher, k, size) == b && k !in table
    requires i < |c| && c[i].erased && forall j :: 0 <= j < i ==> !c[j].erased
    ensures ChainOk(c[i := Entry(k, v, false)], b, hasher, size, table[k := v])
  {
    var (c', table') := (c[i := Entry(k, v, false)], table[k := v]);
    forall x | x in table' && Bucket<K, V>(hasher, x, size) == b ensures HoldsLive(c', x, table'[x]) {
      if x == k {
        assert c'[i] == Entry(k, v, false);
      } else {
        assert HoldsLive(c, x, table[x]);
        var j :| 0 <= j < |c| && c[j] == Entry(x, table[x], false);
        assert c'[j] == c[j];
      }
    }
  }

  // Appending a node for a key not in the table, with no erased node to reuse.
  lemma Append<K, V>(c: Chain<K, V>, b: nat, hasher: K -> nat, size: nat, table: map<K, V>, k: K, v: V)
    requires size > 0 && ChainOk(c, b, hasher, size, table) && Bucket<K, V>(hasher, k, size) == b && k !in table
    requires forall j :: 0 <= j < |c| ==> !c[j].erased
    ensures ChainOk(c + [Entry(k, v, false)], b, hasher, size, table[k := v])
  {
    var (c', table') := (c + [Entry(k, v, false)], table[k := v]);
    forall x | x in table' && Bucket<K, V>(hasher, x, size) == b ensures HoldsLive(c', x, table'[x]) {
      if x == k { assert c'[|c|] == Entry(k, v, false); } else { assert HoldsLive(c, x, table[x]); }
    }
  }

  // Setting the i-th entry of k's chain, or appending it.
  function SetEntry<K, V>(c: Chain<K, V>, i: nat, e: Entry<K, V>): Chain<K, V>
    requires i <= |c|
  {
    if i < |c| then c[i := e] else c + [e]
  }

  function WasErased<K, V>(c: Chain<K, V>, i: nat): int {
    if i < |c| && c[i].erased then 1 else 0
  }

  // What every operation keeps.
  ghost predicate Sound<K, V>(st: Store<K, V>, hasher: K -> nat, entries: int, erasures: int, history: seq<Event<K>>) {
    && Represents(st, hasher)
    && entries == |st.table|
    && erasures == ErasedIn(st.chains)
    && Recorded(st.chains, history)
  }

  // One entry of k's chain is set, and with it what the table says of k.
  lemma SetEntryKeeps<K, V>(st: Store<K, V>, hasher: K -> nat, entries: int, erasures: int, history: seq<Event<K>>,
                            k: K, b: nat, i: nat, e: Entry<K, V>, st': Store<K, V>, entries': int, erasures': int,
                            history': seq<Event<K>>)
    requires Sound(st, hasher, entries, erasures, history)
    requires b == Bucket<K, V>(hasher, k, |st.chains|) && i <= |st.chains[b]|
    requires ChainOk(SetEntry(st.chains[b], i, e), b, hasher, |st.chains|, st'.table)
    requires st'.table - {k} == st.table - {k} && st'.chains == st.chains[b := SetEntry(st.chains[b], i, e)]
    requires entries' == |st'.table|
    requires erasures' == erasures - WasErased(st.chains[b], i) + if e.erased then 1 else 0
    requires history' == history + [EventOf(e, b, i)]
    ensures Sound(st', hasher, entries', erasures', history')
  {
    var (chains, c) := (st.chains, SetEntry(st.chains[b], i, e));
    ChangeOne(chains, hasher, st.table, k, c, st'.table);
    ErasedChanges(chains, b, c);
    if i < |chains[b]| { ErasedFlag(chains[b], i, e); } else { ErasedAppend(chains[b], e); }
    RecordedStep(chains, history, b, i, e, st'.chains, history');
  }
}

module HashTableChained {
  import opened Chains
  import opened Options

  // A chain is a list that only grows at its end; the pointers between its
  // nodes are left to the sequence.
  class Table<K(==), V> {
    const hasher: K -> nat
    var chains: seq<Chain<K, V>>
    var entries: int    // nodes in use
    var erasures: int   // nodes marked erased and not reused
    ghost var table: map<K, V>
    ghost var history: seq<Event<K>>

    ghost predicate Valid()
      reads this
    {
      Sound(Store(chains, table), hasher, entries, erasures, history)
    }

    constructor (hasher: K -> nat, size: nat)
      requires size > 0
      ensures Valid() && table == map[] && history == [] && this.hasher == hasher && |chains| == size
    {
      this.hasher := hasher;
      chains := seq(size, _ => []);
      entries, erasures, table, history := 0, 0, map[], [];
      new;
      NoneErased(chains);
    }

    // The value of a live node for k, or nothing.
    method Find(k: K) returns (found: Option<V>)
      requires Valid()
      ensures found == if k in table then Some(table[k]) else None
    {
      var b := Bucket<K, V>(hasher, k, |chains|);
      var i := 0;
      while i < |chains[b]| && (chains[b][i].erased || chains[b][i].key != k)
        invariant 0 <= i <= |chains[b]|
        invariant forall j :: 0 <= j < i ==> chains[b][j].erased || chains[b][j].key != k
      {
        i := i + 1;
      }
      if i < |chains[b]| {
        return Some(chains[b][i].value);
      }
      NotHeld(chains[b], b, hasher, |chains|, table, k);
      return None;
    }

    // Erasing takes the key out of the table.  The result says whether the
    // chain holds the key at all, even in a node erased earlier; it is the
    // promised one exactly when the key is live or in no erased node.
    method Erase(k: K) returns (matched: bool)
      requires Valid()
      modifies this
      ensures Valid() && |chains| == |old(chains)|
      ensures table == old(table) - {k}
      ensures matched <==> Holds(old(chains)[hasher(k) % |old(chains)|], k)
      ensures matched <==> Holds(chains[hasher(k) % |chains|], k)
      ensures matched <==> k in old(table) || ErasedAndNotReused(old(history), k)
      ensures (matched <==> k in old(table)) <==> (k in old(table) || !ErasedAndNotReused(old(history), k))
      ensures k !in old(table) ==> history == old(history)
      ensures k in old(table) ==> exists b: nat, i: nat :: history == old(history) + [Marked(k, b, i)]
    {
      HeldIffLiveOrErased(chains, hasher, table, k);
      HeldErasedMeaning(chains, hasher, table, history, k);
      var b := Bucket<K, V>(hasher, k, |chains|);
      var i := 0;
      while i < |chains[b]|
        invariant 0 <= i <= |chains[b]|
        invariant unchanged(this)
        invariant forall j :: 0 <= j < i ==> chains[b][j].key != k
      {
        if chains[b][i].key == k {
          MarkFirst(chains[b], b, hasher, |chains|, table, i);
          RemoveElement(k, b, i);
          return true;
        }
        i := i + 1;
      }
      NotHeld(chains[b], b, hasher, |chains|, table, k);
      assert table - {k} == table;
      return false;
    }

    // Marks the i-th node of chain b erased, unless it is already.
    method RemoveElement(ghost k: K, b: nat, i: nat)
      requires Valid() && b == Bucket<K, V>(hasher, k, |chains|) && i < |chains[b]| && chains[b][i].key == k
      requires chains[b][i].erased <==> k !in table
      requires ChainOk(SetEntry(chains[b], i, Entry(k, chains[b][i].value, true)), b, hasher, |chains|, table - {k})
      modifies this
      ensures Valid() && |chains| == |old(chains)| && table == old(table) - {k}
      ensures Holds(chains[b], k)
      ensures history == if k in old(table) then old(history) + [Marked(k, b, i)] else old(history)
    {
      if !chains[b][i].erased {
        ghost var (st, n, m, h) := (Store(chains, table), entries, erasures, history);
        ghost var e := Entry(k, chains[b][i].value, true);
        chains := chains[b := chains[b][i := Entry(chains[b][i].key, chains[b][i].value, true)]];
        erasures := erasures + 1;
        entries := entries - 1;
        table, history := table - {k}, history + [Marked(k, b, i)];
        SetEntryKeeps(st, hasher, n, m, h, k, b, i, e, Store(chains, table), entries, erasures, history);
      } else {
        assert table - {k} == table;
      }
      assert chains[b][i].key == k;
    }

    // Overwrites the value of a live node for k; else fills the first erased
    // node of the chain; else appends a node.  The result says whether a node
    // was added.
    method Insert(k: K, v: V) returns (added: bool)
      requires Valid()
      modifies this
      ensures Valid() && |chains| == |old(chains)|
      ensures table == old(table)[k := v]
      ensures var c := old(chains)[hasher(k) % |old(chains)|];
        added <==> k !in old(table) && forall i :: 0 <= i < |c| ==> !c[i].erased
      ensures var b := hasher(k) % |old(chains)|;
        |chains[b]| == |old(chains)[b]| + if added then 1 else 0
      ensures exists b: nat, i: nat :: history == old(history) + [Stored(k, b, i)]
    {
      ghost var (n, m) := (entries, erasures);
      var b := Bucket<K, V>(hasher, k, |chains|);
      var free := |chains[b]|;   // the first erased node
      var i := 0;
      while i < |chains[b]|
        invariant 0 <= i <= |chains[b]|
        invariant unchanged(this)
        invariant forall j :: 0 <= j < i ==> chains[b][j].erased || chains[b][j].key != k
        invariant forall j :: 0 <= j < i && j < free ==> !chains[b][j].erased
        invariant free == |chains[b]| || (0 <= free < i && chains[b][free].erased)
      {
        if chains[b][i].erased {
          if free == |chains[b]| {
            free := i;
          }
        } else if chains[b][i].key == k {
          Overwrite(chains[b], b, hasher, |chains|, table, i, v);
          Put(k, v, b, i, n, m);
          return false;
        }
        i := i + 1;
      }
      NotHeld(chains[b], b, hasher, |chains|, table, k);
      entries := entries + 1;
      if free < |chains[b]| {
        Reuse(chains[b], b, hasher, |chains|, table, free, k, v);
        erasures := erasures - 1;
        Put(k, v, b, free, n, m);
        return false;
      }
      Append(chains[b], b, hasher, |chains|, table, k, v);
      Put(k, v, b, |chains[b]|, n, m);
      return true;
    }

    // Makes (k, v) the i-th entry of chain b, at its end if i is its length.
    // The counters were n and m and are already adjusted.
    method Put(k: K, v: V, b: nat, i: nat, ghost n: int, ghost m: int)
      requires Sound(Store(chains, table), hasher, n, m, history)
      requires b == Bucket<K, V>(hasher, k, |chains|) && i <= |chains[b]|
      requires ChainOk(SetEntry(chains[b], i, Entry(k, v, false)), b, hasher, |chains|, table[k := v])
      requires entries == n + (if k in table then 0 else 1) && erasures == m - WasErased(chains[b], i)
      modifies this`chains, this`table, this`history
      ensures Valid() && |chains| == |old(chains)| && table == old(table)[k := v]
      ensures |chains[b]| == |old(chains)[b]| + if i == |old(chains)[b]| then 1 else 0
      ensures history == old(history) + [Stored(k, b, i)]
    {
      var chains' := chains[b := SetEntry(chains[b], i, Entry(k, v, false))];
      ghost var (table', history') := (table[k := v], history + [Stored(k, b, i)]);
      SetEntryKeeps(Store(chains, table), hasher, n, m, history, k, b, i, Entry(k, v, false),
                    Store(chains', table'), entries, erasures, history');
      chains, table, history := chains', table', history';
    }

    method Size() returns (n: int)
      requires Valid()
      ensures n == |table|
    {
      return entries;
    }
  }

  // A failing input: of any key in any table, erase reports a match a second
  // time, when the key has just been erased and is not in the table.
  method EraseMatchesErased<K(==), V>(t: Table<K, V>, k: K) returns (first: bool, second: bool)
    requires t.Valid() && k in t.table
    modifies t
    ensures t.Valid() && t.table == old(t.table) - {k} && k !in t.table
    ensures exists b: nat, i: nat :: t.history == old(t.history) + [Marked(k, b, i)]
    ensures ErasedAndNotReused(t.history, k)
    ensures first && second
  {
    first := t.Erase(k);
    second := t.Erase(k);
  }

  // Such a table exists.
  method EraseTwiceInNew(hasher: int -> nat, size: nat) returns (t: Table<int, int>, second: bool)
    requires size > 0
    ensures fresh(t) && t.Valid() && t.table == map[] && second
  {
    t := new Table(hasher, size);
    var added := t.Insert(1, 1);
    var first;
    first, second := EraseMatchesErased(t, 1);
  }
}
