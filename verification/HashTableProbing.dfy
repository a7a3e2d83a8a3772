// HASH_TABLE_PROBING of cpp11/HashTableProbing.h: open addressing with
// quadratic probing and tombstones.

module HashTableProbing {
  import opened Sequences

  const MASK_EMPTY: nat := 0x8000_0000
  const MASK_TOMB: nat := 0x4000_0000

  // A slot: two flag bits above 30 bits of hash, and the data, here a key that
  // equality looks at and the rest of the value.
  datatype Element<K, V> = Element(preHash: nat, key: K, value: V) {
    predicate IsEmpty() { preHash / MASK_EMPTY % 2 == 1 }
    predicate IsTomb() { preHash / MASK_TOMB % 2 == 1 }
    predicate IsLive() { preHash < MASK_TOMB }
  }

  // The i-th slot on the probe path of a hash.
  function Slot(hash: nat, i: nat, bucketSize: nat): (s: nat)
    requires bucketSize > 0
    ensures s < bucketSize
  {
    (hash + i * i) % bucketSize
  }

  // Slot s lies on the probe path with no empty slot before it.
  ghost predicate Reachable<K, V>(elems: seq<Element<K, V>>, hash: nat, probeLen: nat, s: nat)
    requires |elems| > 0
  {
    exists i: nat :: ReachedAt(elems, hash, probeLen, s, i)
  }

  ghost predicate ReachedAt<K, V>(elems: seq<Element<K, V>>, hash: nat, probeLen: nat, s: nat, i: nat)
    requires |elems| > 0
  {
    i < probeLen && Slot(hash, i, |elems|) == s && NoEmptyBefore(elems, hash, i)
  }

  ghost predicate NoEmptyBefore<K, V>(elems: seq<Element<K, V>>, hash: nat, i: nat)
    requires |elems| > 0
  {
    forall j: nat {:trigger Slot(hash, j, |elems|)} :: j < i ==> !elems[Slot(hash, j, |elems|)].IsEmpty()
  }

  ghost predicate NoMatchBefore<K, V>(elems: seq<Element<K, V>>, hash: nat, k: K, i: nat)
    requires |elems| > 0
  {
    forall j: nat {:trigger Slot(hash, j, |elems|)} :: j < i ==> !Matches(elems[Slot(hash, j, |elems|)], hash, k)
  }

  ghost predicate Matches<K, V>(e: Element<K, V>, hash: nat, k: K) {
    e.preHash == hash && e.key == k
  }

  // Some slot among the first probeLen on the path is empty.
  ghost predicate HasRoom<K, V>(elems: seq<Element<K, V>>, hash: nat, probeLen: nat)
    requires |elems| > 0
  {
    !NoEmptyBefore(elems, hash, probeLen)
  }

  // A key's slot is live, reachable and holds the key with its value.
  ghost predicate KeyOk<K, V>(elems: seq<Element<K, V>>, hasher: K -> nat, probeLen: nat,
                              table: map<K, V>, home: map<K, nat>, k: K)
    requires |elems| > 0
  {
    && k in table && k in home && home[k] < |elems|
    && elems[home[k]].IsLive() && elems[home[k]].key == k && elems[home[k]].value == table[k]
    && Reachable(elems, hasher(k) % MASK_TOMB, probeLen, home[k])
  }

  // A live slot is the one of its key.
  ghost predicate SlotOk<K, V>(elems: seq<Element<K, V>>, hasher: K -> nat, home: map<K, nat>, s: nat)
    requires s < |elems|
  {
    elems[s].IsLive() ==>
      && elems[s].key in home && home[elems[s].key] == s
      && elems[s].preHash == hasher(elems[s].key) % MASK_TOMB
  }

  // What every operation keeps: live slots hold the table's keys, each once,
  // with the table's values, and each key's slot is reachable.
  ghost predicate Represents<K, V>(elems: seq<Element<K, V>>, hasher: K -> nat, probeLen: nat,
                                   table: map<K, V>, home: map<K, nat>) {
    && |elems| > 0
    && table.Keys == home.Keys
    && (forall k {:trigger KeyOk(elems, hasher, probeLen, table, home, k)} ::
          k in home ==> KeyOk(elems, hasher, probeLen, table, home, k))
    && (forall s: nat {:trigger SlotOk(elems, hasher, home, s)} :: s < |elems| ==> SlotOk(elems, hasher, home, s))
  }

  // Filling a slot that is not live, or marking one erased, empties nothing,
  // so paths stay open.
  lemma StaysReachable<K, V>(elems: seq<Element<K, V>>, s: nat, e: Element<K, V>, hash: nat, probeLen: nat, t: nat)
    requires s < |elems| && !e.IsEmpty() && Reachable(elems, hash, probeLen, t)
    ensures Reachable(elems[s := e], hash, probeLen, t)
  {
    var i: nat :| ReachedAt(elems, hash, probeLen, t, i);
    assert ReachedAt(elems[s := e], hash, probeLen, t, i);
  }

  // A key keeps its slot when another one changes.
  lemma KeyStays<K, V>(elems: seq<Element<K, V>>, hasher: K -> nat, probeLen: nat, table: map<K, V>, home: map<K, nat>,
                       x: K, s: nat, e: Element<K, V>, table': map<K, V>, home': map<K, nat>)
    requires |elems| > 0 && KeyOk(elems, hasher, probeLen, table, home, x)
    requires s < |elems| && !e.IsEmpty() && home[x] != s
    requires x in table' && table'[x] == table[x] && x in home' && home'[x] == home[x]
    ensures KeyOk(elems[s := e], hasher, probeLen, table', home', x)
  {
    StaysReachable(elems, s, e, hasher(x) % MASK_TOMB, probeLen, home[x]);
  }

  lemma FillKeeps<K, V>(elems: seq<Element<K, V>>, hasher: K -> nat, probeLen: nat,
                        table: map<K, V>, home: map<K, nat>,
                        k: K, v: V, s: nat, elems': seq<Element<K, V>>)
    requires Represents(elems, hasher, probeLen, table, home) && k !in table
    requires s < |elems| && !elems[s].IsLive() && Reachable(elems, hasher(k) % MASK_TOMB, probeLen, s)
    requires elems' == elems[s := Element(hasher(k) % MASK_TOMB, k, v)]
    ensures Represents(elems', hasher, probeLen, table[k := v], home[k := s])
  {
    var (e, table', home') := (Element(hasher(k) % MASK_TOMB, k, v), table[k := v], home[k := s]);
    forall x | x in home' ensures KeyOk(elems', hasher, probeLen, table', home', x) {
      if x == k {
        StaysReachable(elems, s, e, hasher(k) % MASK_TOMB, probeLen, s);
      } else {
        assert KeyOk(elems, hasher, probeLen, table, home, x);
        KeyStays(elems, hasher, probeLen, table, home, x, s, e, table', home');
      }
    }
    forall t: nat | t < |elems'| ensures SlotOk(elems', hasher, home', t) {
      assert SlotOk(elems, hasher, home, t);
    }
  }

  lemma UpdateKeeps<K, V>(elems: seq<Element<K, V>>, hasher: K -> nat, probeLen: nat,
                          table: map<K, V>, home: map<K, nat>,
                          k: K, v: V, elems': seq<Element<K, V>>)
    requires Represents(elems, hasher, probeLen, table, home) && k in table && home[k] < |elems|
    requires elems' == elems[home[k] := elems[home[k]].(key := k, value := v)]
    ensures Represents(elems', hasher, probeLen, table[k := v], home)
  {
    assert KeyOk(elems, hasher, probeLen, table, home, k);
    var (s, table') := (home[k], table[k := v]);
    var e := elems[s].(key := k, value := v);
    forall x | x in home ensures KeyOk(elems', hasher, probeLen, table', home, x) {
      assert KeyOk(elems, hasher, probeLen, table, home, x);
      if x == k {
        StaysReachable(elems, s, e, hasher(k) % MASK_TOMB, probeLen, s);
      } else {
        KeyStays(elems, hasher, probeLen, table, home, x, s, e, table', home);
      }
    }
    forall t: nat | t < |elems'| ensures SlotOk(elems', hasher, home, t) {
      assert SlotOk(elems, hasher, home, t);
    }
  }

  lemma EraseKeeps<K, V>(elems: seq<Element<K, V>>, hasher: K -> nat, probeLen: nat,
                         table: map<K, V>, home: map<K, nat>,
                         k: K, elems': seq<Element<K, V>>)
    requires Represents(elems, hasher, probeLen, table, home) && k in table && home[k] < |elems|
    requires elems' == elems[home[k] := elems[home[k]].(preHash := MASK_TOMB)]
    ensures Represents(elems', hasher, probeLen, table - {k}, home - {k})
  {
    assert KeyOk(elems, hasher, probeLen, table, home, k);
    var (s, table', home') := (home[k], table - {k}, home - {k});
    var e := elems[s].(preHash := MASK_TOMB);
    forall x | x in home' ensures KeyOk(elems', hasher, probeLen, table', home', x) {
      assert KeyOk(elems, hasher, probeLen, table, home, x);
      KeyStays(elems, hasher, probeLen, table, home, x, s, e, table', home');
    }
    forall t: nat | t < |elems'| ensures SlotOk(elems', hasher, home', t) {
      assert SlotOk(elems, hasher, home, t);
    }
  }

  // A key whose path was followed over i non-empty slots without a match is
  // either not in the table or further on.
  lemma NotYetSeen<K, V>(elems: seq<Element<K, V>>, hasher: K -> nat, probeLen: nat,
                         table: map<K, V>, home: map<K, nat>,
                         k: K, i: nat)
    requires Represents(elems, hasher, probeLen, table, home)
    requires NoMatchBefore(elems, hasher(k) % MASK_TOMB, k, i)
    ensures i >= probeLen ==> k !in table
    ensures elems[Slot(hasher(k) % MASK_TOMB, i, |elems|)].IsEmpty() ==> k !in table
  {
    if k in table {
      var h := hasher(k) % MASK_TOMB;
      assert KeyOk(elems, hasher, probeLen, table, home, k);
      assert SlotOk(elems, hasher, home, home[k]);
      var i0: nat :| ReachedAt(elems, h, probeLen, home[k], i0);
      assert i <= i0;
    }
  }

  // Where insert stands after i slots on the path: none was empty or matched,
  // and `deleted` is the last erased one, if any.
  ghost predicate Passed<K, V>(elems: seq<Element<K, V>>, hash: nat, probeLen: nat, k: K, i: nat, deleted: int)
    requires |elems| > 0
  {
    && NoEmptyBefore(elems, hash, i) && NoMatchBefore(elems, hash, k, i)
    && (deleted == -1 || Reusable(elems, hash, probeLen, deleted))
    && LastErased(elems, hash, i, deleted)
  }

  // `deleted` is the last erased one of the first i slots on the path, or -1.
  ghost predicate LastErased<K, V>(elems: seq<Element<K, V>>, hash: nat, i: nat, deleted: int)
    requires |elems| > 0
  {
    if deleted == -1 then forall m: nat {:trigger ErasedAt(elems, hash, m)} :: m < i ==> !ErasedAt(elems, hash, m)
    else
      exists j: nat :: j < i && LastErasedBy(elems, hash, i, j, deleted)
  }

  ghost predicate LastErasedBy<K, V>(elems: seq<Element<K, V>>, hash: nat, i: nat, j: nat, deleted: int)
    requires |elems| > 0
  {
    && deleted == Slot(hash, j, |elems|) && ErasedAt(elems, hash, j)
    && forall m: nat {:trigger ErasedAt(elems, hash, m)} :: j < m < i ==> !ErasedAt(elems, hash, m)
  }

  ghost predicate ErasedAt<K, V>(elems: seq<Element<K, V>>, hash: nat, j: nat)
    requires |elems| > 0
  {
    elems[Slot(hash, j, |elems|)].IsTomb()
  }

  // Where a new key goes: to the last erased slot before the first empty one on
  // its path, or else to that empty one.
  ghost predicate Takes<K, V>(elems: seq<Element<K, V>>, hash: nat, probeLen: nat, at: int)
    requires |elems| > 0
  {
    exists i: nat :: i < probeLen && TakesBy(elems, hash, i, at)
  }

  ghost predicate TakesBy<K, V>(elems: seq<Element<K, V>>, hash: nat, i: nat, at: int)
    requires |elems| > 0
  {
    && elems[Slot(hash, i, |elems|)].IsEmpty() && NoEmptyBefore(elems, hash, i)
    && (LastErased(elems, hash, i, at) || (LastErased(elems, hash, i, -1) && at == Slot(hash, i, |elems|)))
    && at != -1
  }

  // Quadratic probing.
  ghost predicate OnPath(hash: nat, probeLen: nat, bucketSize: nat, at: int)
    requires bucketSize > 0
  {
    exists i: nat :: i < probeLen && at == (hash + i * i) % bucketSize
  }

  lemma TakesOnPath<K, V>(elems: seq<Element<K, V>>, hash: nat, probeLen: nat, i: nat, at: int)
    requires |elems| > 0 && i < probeLen && TakesBy(elems, hash, i, at)
    ensures OnPath(hash, probeLen, |elems|, at)
  {
    if LastErased(elems, hash, i, at) {
      var j: nat :| j < i && LastErasedBy(elems, hash, i, j, at);
      SlotOnPath(hash, probeLen, |elems|, j);
    } else {
      SlotOnPath(hash, probeLen, |elems|, i);
    }
  }

  lemma SlotOnPath(hash: nat, probeLen: nat, bucketSize: nat, i: nat)
    requires bucketSize > 0 && i < probeLen
    ensures OnPath(hash, probeLen, bucketSize, Slot(hash, i, bucketSize))
  {
  }

  // A slot on the path that may take a new key.
  ghost predicate Reusable<K, V>(elems: seq<Element<K, V>>, hash: nat, probeLen: nat, s: int)
    requires |elems| > 0
  {
    0 <= s < |elems| && !elems[s].IsLive() && Reachable(elems, hash, probeLen, s)
  }

  lemma LastErasedMoves<K, V>(elems: seq<Element<K, V>>, hash: nat, i: nat, deleted: int, deleted': int)
    requires |elems| > 0 && LastErased(elems, hash, i, deleted)
    requires deleted' == if ErasedAt(elems, hash, i) then Slot(hash, i, |elems|) else deleted
    ensures LastErased(elems, hash, i + 1, deleted')
  {
    if ErasedAt(elems, hash, i) {
      assert LastErasedBy(elems, hash, i + 1, i, deleted');
    } else if deleted != -1 {
      var j: nat :| j < i && LastErasedBy(elems, hash, i, j, deleted);
      assert LastErasedBy(elems, hash, i + 1, j, deleted);
    }
  }

  lemma PassOne<K, V>(elems: seq<Element<K, V>>, hash: nat, probeLen: nat, k: K, i: nat, deleted: int, deleted': int)
    requires |elems| > 0 && i < probeLen && Passed(elems, hash, probeLen, k, i, deleted)
    requires var e := elems[Slot(hash, i, |elems|)];
      !e.IsEmpty() && !Matches(e, hash, k)
      && deleted' == if e.IsTomb() then Slot(hash, i, |elems|) else deleted
    ensures Passed(elems, hash, probeLen, k, i + 1, deleted')
  {
    LastErasedMoves(elems, hash, i, deleted, deleted');
    assert ReachedAt(elems, hash, probeLen, Slot(hash, i, |elems|), i);
  }

  lemma EmptyFound<K, V>(elems: seq<Element<K, V>>, hasher: K -> nat, probeLen: nat,
                         table: map<K, V>, home: map<K, nat>,
                         k: K, i: nat, deleted: int, at: int)
    requires Represents(elems, hasher, probeLen, table, home) && i < probeLen
    requires var hash := hasher(k) % MASK_TOMB;
      && Passed(elems, hash, probeLen, k, i, deleted) && elems[Slot(hash, i, |elems|)].IsEmpty()
      && at == if deleted != -1 then deleted else Slot(hash, i, |elems|)
    ensures k !in table && Reusable(elems, hasher(k) % MASK_TOMB, probeLen, at)
    ensures Takes(elems, hasher(k) % MASK_TOMB, probeLen, at)
    ensures OnPath(hasher(k) % MASK_TOMB, probeLen, |elems|, at)
    ensures HasRoom(elems, hasher(k) % MASK_TOMB, probeLen)
  {
    var hash := hasher(k) % MASK_TOMB;
    NotYetSeen(elems, hasher, probeLen, table, home, k, i);
    assert ReachedAt(elems, hash, probeLen, Slot(hash, i, |elems|), i);
    assert TakesBy(elems, hash, i, at);
    TakesOnPath(elems, hash, probeLen, i, at);
  }

  lemma MatchFound<K, V>(elems: seq<Element<K, V>>, hasher: K -> nat, probeLen: nat,
                         table: map<K, V>, home: map<K, nat>,
                         k: K, s: nat)
    requires Represents(elems, hasher, probeLen, table, home) && s < |elems|
    requires Matches(elems[s], hasher(k) % MASK_TOMB, k)
    ensures k in table && home[k] == s && elems[s].value == table[k]
  {
    assert SlotOk(elems, hasher, home, s);
    assert KeyOk(elems, hasher, probeLen, table, home, k);
  }

  // ---- which slots stay empty ---------------------------------------------

  // The slots in use now or earlier.
  ghost function Touched<K, V>(elems: seq<Element<K, V>>): set<int> {
    set s | 0 <= s < |elems| && !elems[s].IsEmpty()
  }

  ghost function Path(hash: nat, probeLen: nat, bucketSize: nat): set<int>
    requires bucketSize > 0
  {
    set i: nat | i < probeLen :: Slot(hash, i, bucketSize) as int
  }

  lemma RoomMeaning<K, V>(elems: seq<Element<K, V>>, hash: nat, probeLen: nat)
    requires |elems| > 0
    ensures HasRoom(elems, hash, probeLen) <==> !(Path(hash, probeLen, |elems|) <= Touched(elems))
  {
    if !HasRoom(elems, hash, probeLen) {
      forall s | s in Path(hash, probeLen, |elems|) ensures s in Touched(elems) {
        var i: nat :| i < probeLen && s == Slot(hash, i, |elems|);
      }
    } else {
      var i: nat :| i < probeLen && elems[Slot(hash, i, |elems|)].IsEmpty();
      assert Slot(hash, i, |elems|) in Path(hash, probeLen, |elems|);
    }
  }

  // No slot comes twice on a path of at most the square root of the table.
  lemma PathTurnsNowhere(hash: nat, i: nat, j: nat, probeLen: nat, bucketSize: nat)
    requires bucketSize > 0 && i < j < probeLen && probeLen * probeLen <= bucketSize
    ensures Slot(hash, i, bucketSize) != Slot(hash, j, bucketSize)
  {
    var (a, b) := (hash + i * i, hash + j * j);
    assert 0 < b - a < bucketSize by {
      assert i * i < j * j < probeLen * probeLen by { Squares(i, j); Squares(j, probeLen); }
    }
    var rounds := b / bucketSize - a / bucketSize;
    MultipleBelow(rounds, bucketSize);
    assert b - a == rounds * bucketSize + (b % bucketSize - a % bucketSize);
  }

  lemma Squares(i: nat, j: nat)
    requires i < j
    ensures i * i < j * j
  {
    assert j * j - i * i == (j - i) * (j + i);
  }

  lemma MultipleBelow(q: int, n: nat)
    requires n > 0
    ensures !(0 < q * n < n)
  {
    if q >= 1 { assert q * n >= n; } else { assert q * n <= 0; }
  }

  lemma {:induction false} PathSize(hash: nat, n: nat, probeLen: nat, bucketSize: nat)
    requires bucketSize > 0 && n <= probeLen && probeLen * probeLen <= bucketSize
    ensures |Path(hash, n, bucketSize)| == n
  {
    if n > 0 {
      var s := Slot(hash, n - 1, bucketSize) as int;
      PathSize(hash, n - 1, probeLen, bucketSize);
      assert Path(hash, n, bucketSize) == Path(hash, n - 1, bucketSize) + {s};
      forall i: nat | i < n - 1 ensures Slot(hash, i, bucketSize) != s {
        PathTurnsNowhere(hash, i, n - 1, probeLen, bucketSize);
      }
    }
  }

  // Fewer than probeLen slots do not cover a path ...
  lemma FewDoNotCover(hash: nat, probeLen: nat, bucketSize: nat, used: set<int>)
    requires bucketSize > 0 && probeLen * probeLen <= bucketSize && |used| < probeLen
    ensures !(Path(hash, probeLen, bucketSize) <= used)
  {
    PathSize(hash, probeLen, probeLen, bucketSize);
    if Path(hash, probeLen, bucketSize) <= used { SubsetSize(Path(hash, probeLen, bucketSize), used); }
  }

  // ... so while fewer have been used, every path has room.
  lemma FewUsedHaveRoom<K, V>(elems: seq<Element<K, V>>, hash: nat, probeLen: nat)
    requires |elems| > 0 && probeLen * probeLen <= |elems| && |Touched(elems)| < probeLen
    ensures HasRoom(elems, hash, probeLen)
  {
    RoomMeaning(elems, hash, probeLen);
    FewDoNotCover(hash, probeLen, |elems|, Touched(elems));
  }

  // A path without room never gets any again: no slot becomes empty.
  lemma NoRoomForEver<K, V>(elems: seq<Element<K, V>>, elems': seq<Element<K, V>>, hash: nat, probeLen: nat)
    requires |elems| == |elems'| > 0 && Touched(elems) <= Touched(elems')
    ensures !HasRoom(elems, hash, probeLen) ==> !HasRoom(elems', hash, probeLen)
  {
    RoomMeaning(elems, hash, probeLen);
    RoomMeaning(elems', hash, probeLen);
  }

  ghost function Homes<K>(home: map<K, nat>): set<int> {
    set k | k in home :: home[k] as int
  }

  lemma {:induction false} HomesSize<K>(home: map<K, nat>)
    requires forall k, l :: k in home && l in home && k != l ==> home[k] != home[l]
    ensures |Homes(home)| == |home|
    decreases |home|
  {
    if home == map[] {
      assert Homes(home) == {};
    } else {
      var k :| k in home.Keys;
      var rest := home - {k};
      assert home.Keys == rest.Keys + {k};
      HomesSize(rest);
      assert Homes(home) == Homes(rest) + {home[k] as int};
    }
  }

  // probeLen keys of one hash fill their path.
  lemma OneHashFills<K, V>(elems: seq<Element<K, V>>, hasher: K -> nat, probeLen: nat,
                           table: map<K, V>, home: map<K, nat>, hash: nat)
    requires Represents(elems, hasher, probeLen, table, home) && |table| >= probeLen
    requires probeLen * probeLen <= |elems| && forall k :: k in table ==> hasher(k) % MASK_TOMB == hash
    ensures !HasRoom(elems, hash, probeLen)
  {
    var path := Path(hash, probeLen, |elems|);
    forall k | k in home
      ensures home[k] < |elems| && elems[home[k]].IsLive() && elems[home[k]].key == k && home[k] as int in path
    {
      assert KeyOk(elems, hasher, probeLen, table, home, k);
      var i: nat :| ReachedAt(elems, hash, probeLen, home[k], i);
    }
    HomesSize(home);
    assert |home| == |home.Keys| && |table| == |table.Keys|;
    PathSize(hash, probeLen, probeLen, |elems|);
    assert Homes(home) <= path;
    SubsetSize(Homes(home), path);
    SameSize(Homes(home), path);
    assert path <= Touched(elems);
    RoomMeaning(elems, hash, probeLen);
  }

  class Table<K(==), V> {
    const hasher: K -> nat
    const probeLen: nat
    const slots: array<Element<K, V>>
    var elements: nat
    ghost var table: map<K, V>
    ghost var home: map<K, nat>   // where each key is stored

    ghost predicate Valid()
      reads this, slots
    {
      && Represents(slots[..], hasher, probeLen, table, home)
      && elements == |table|
      && probeLen * probeLen <= slots.Length
    }

    // A table of bucketSize empty slots, probing as far as its square root.
    constructor (hasher: K -> nat, bucketSize: nat, probeLen: nat, k0: K, v0: V)
      requires bucketSize > 0 && probeLen * probeLen <= bucketSize < (probeLen + 1) * (probeLen + 1)
      ensures Valid() && fresh(slots) && table == map[]
      ensures slots.Length == bucketSize && this.hasher == hasher && this.probeLen == probeLen
      ensures Touched(slots[..]) == {}
    {
      this.hasher, this.probeLen, elements := hasher, probeLen, 0;
      slots := new Element<K, V>[bucketSize](_ => Element(MASK_EMPTY, k0, v0));
      table, home := map[], map[];
    }

    // The slot of the key, or -1.
    method FindSlot(k: K) returns (r: int)
      requires Valid()
      ensures r == -1 <==> k !in table
      ensures r != -1 ==> k in table && r == home[k] < slots.Length && slots[r].value == table[k]
    {
      var hash := hasher(k) % MASK_TOMB;
      var i := 0;
      while i < probeLen
        invariant 0 <= i <= probeLen
        invariant NoMatchBefore(slots[..], hash, k, i)
      {
        var s := Slot(hash, i, slots.Length);
        if slots[s].IsEmpty() {
          NotYetSeen(slots[..], hasher, probeLen, table, home, k, i);
          return -1;
        } else if slots[s].preHash == hash && slots[s].key == k {
          MatchFound(slots[..], hasher, probeLen, table, home, k, s);
          return s;
        }
        i := i + 1;
      }
      NotYetSeen(slots[..], hasher, probeLen, table, home, k, probeLen);
      return -1;
    }

    // Puts a new key into slot s.
    method Fill(s: nat, k: K, v: V)
      requires Valid() && k !in table && s < slots.Length && !slots[s].IsLive()
      requires Reachable(slots[..], hasher(k) % MASK_TOMB, probeLen, s)
      modifies this`elements, this`table, this`home, slots
      ensures Valid() && table == old(table)[k := v] && home == old(home)[k := s]
      ensures Touched(slots[..]) == old(Touched(slots[..])) + {s as int}
    {
      ghost var elems := slots[..];
      slots[s] := Element(hasher(k) % MASK_TOMB, k, v);
      elements := elements + 1;
      FillKeeps(elems, hasher, probeLen, table, home, k, v, s, slots[..]);
      table, home := table[k := v], home[k := s];
    }

    // Replaces the value of a key, which is in slot s.
    method Overwrite(s: nat, k: K, v: V)
      requires Valid() && k in table && s == home[k] && s < slots.Length
      modifies this`table, slots
      ensures Valid() && table == old(table)[k := v]
      ensures Touched(slots[..]) == old(Touched(slots[..]))
    {
      ghost var elems := slots[..];
      slots[s] := slots[s].(key := k, value := v);
      UpdateKeeps(elems, hasher, probeLen, table, home, k, v, slots[..]);
      table := table[k := v];
    }

    // Marks slot s, which holds a key, as erased.
    method Bury(s: nat, ghost k: K)
      requires Valid() && k in table && s == home[k] && s < slots.Length
      modifies this`elements, this`table, this`home, slots
      ensures Valid() && table == old(table) - {k}
      ensures Touched(slots[..]) == old(Touched(slots[..]))
    {
      assert KeyOk(slots[..], hasher, probeLen, table, home, k);
      ghost var elems := slots[..];
      slots[s] := slots[s].(preHash := MASK_TOMB);
      elements := elements - 1;
      EraseKeeps(elems, hasher, probeLen, table, home, k, slots[..]);
      table, home := table - {k}, home - {k};
    }

    // Overwrites the value of a key in the table, else adds the key, unless
    // none of the first probeLen slots on its path is empty; one is as long as
    // fewer than probeLen slots have been used.  A new key goes to the last erased
    // slot passed, or else to the empty one; only that slot stops being empty.
    method Insert(k: K, v: V) returns (at: int, inserted: bool)
      requires Valid()
      modifies this`elements, this`table, this`home, slots
      ensures Valid()
      ensures inserted <==> k !in old(table) && HasRoom(old(slots[..]), hasher(k) % MASK_TOMB, probeLen)
      ensures table == if inserted || k in old(table) then old(table)[k := v] else old(table)
      ensures if k in table then at == home[k] else at == -1
      ensures inserted ==> Takes(old(slots[..]), hasher(k) % 0x4000_0000, probeLen, at)
      ensures inserted ==> OnPath(hasher(k) % 0x4000_0000, probeLen, slots.Length, at)
      ensures Touched(slots[..]) == old(Touched(slots[..])) + if inserted then {at} else {}
      ensures |old(Touched(slots[..]))| < probeLen ==> (inserted <==> k !in old(table))
    {
      var hash := hasher(k) % MASK_TOMB;
      if |Touched(slots[..])| < probeLen { FewUsedHaveRoom(slots[..], hash, probeLen); }
      ghost var elems := slots[..];
      var deleted: int := -1;
      var i := 0;
      while i < probeLen
        invariant 0 <= i <= probeLen && slots[..] == elems
        invariant table == old(table) && home == old(home) && elements == old(elements)
        invariant Passed(elems, hash, probeLen, k, i, deleted)
      {
        var s := Slot(hash, i, slots.Length);
        if slots[s].IsEmpty() {
          at := if deleted != -1 then deleted else s;
          EmptyFound(elems, hasher, probeLen, table, home, k, i, deleted, at);
          Fill(at, k, v);
          return at, true;
        } else if slots[s].preHash == hash && slots[s].key == k {
          MatchFound(elems, hasher, probeLen, table, home, k, s);
          Overwrite(s, k, v);
          return s, false;
        } else if slots[s].IsTomb() {
          PassOne(elems, hash, probeLen, k, i, deleted, s);
          deleted := s;
        } else {
          PassOne(elems, hash, probeLen, k, i, deleted, deleted);
        }
        i := i + 1;
      }
      NotYetSeen(elems, hasher, probeLen, table, home, k, probeLen);
      return -1, false;
    }

    method Find(k: K) returns (found: bool, v: V)
      requires Valid() && slots.Length > 0
      ensures found <==> k in table
      ensures found ==> v == table[k]
    {
      var s := FindSlot(k);
      if s < 0 {
        return false, slots[0].value;
      }
      return true, slots[s].value;
    }

    method Erase(k: K) returns (count: nat)
      requires Valid()
      modifies this`elements, this`table, this`home, slots
      ensures Valid()
      ensures count == if k in old(table) then 1 else 0
      ensures table == old(table) - {k}
      ensures Touched(slots[..]) == old(Touched(slots[..]))
    {
      var s := FindSlot(k);
      if s < 0 {
        assert table - {k} == table;
        return 0;
      }
      Bury(s, k);
      return 1;
    }

    function Size(): (n: nat)
      requires Valid()
      reads this, slots
      ensures n == |table|
    {
      elements
    }
  }
}

// Runs of operations on a probing table, against a plain map.
module ProbingRuns {
  import opened HashTableProbing
  import opened Sequences

  datatype Op<K, V> = Put(k: K, v: V) | Get(k: K) | Drop(k: K)
  datatype Answer<V> = Added(at: int, inserted: bool) | Looked(found: bool, v: V) | Dropped(count: nat)

  // A table at the start of a run, with the slots used so far.
  datatype Start<!K, V> = Start(hasher: K -> nat, probeLen: nat, bucketSize: nat, table: map<K, V>, used: set<int>)

  ghost function StartOf<K, V>(t: Table<K, V>): Start<K, V>
    reads t, t.slots
  {
    Start(t.hasher, t.probeLen, t.slots.Length, t.table, Touched(t.slots[..]))
  }

  // What a plain map holds after the operations.
  ghost function Plain<K, V>(table: map<K, V>, ops: seq<Op<K, V>>): map<K, V> {
    if ops == [] then table
    else Next(Plain(table, ops[..|ops| - 1]), ops[|ops| - 1])
  }

  ghost function Next<K, V>(table: map<K, V>, op: Op<K, V>): map<K, V> {
    match op
    case Put(k, v) => table[k := v]
    case Get(k) => table
    case Drop(k) => table - {k}
  }

  // The answer of a plain map.
  ghost predicate Right<K, V>(table: map<K, V>, op: Op<K, V>, a: Answer<V>) {
    match op
    case Put(k, v) => a.Added? && a.at >= 0 && (a.inserted <==> k !in table)
    case Get(k) => a.Looked? && (a.found <==> k in table) && (a.found ==> a.v == table[k])
    case Drop(k) => a == Dropped(if k in table then 1 else 0)
  }

  ghost predicate AllRight<K, V>(table: map<K, V>, ops: seq<Op<K, V>>, answers: seq<Answer<V>>)
    requires |answers| <= |ops|
  {
    forall i: nat :: i < |answers| ==> RightAt(table, ops, answers, i)
  }

  ghost predicate RightAt<K, V>(table: map<K, V>, ops: seq<Op<K, V>>, answers: seq<Answer<V>>, i: nat)
    requires i < |answers| <= |ops|
  {
    Right(Plain(table, ops[..i]), ops[i], answers[i])
  }

  ghost predicate Adds<K, V>(table: map<K, V>, op: Op<K, V>) {
    op.Put? && op.k !in table
  }

  // How many of the operations add a key to the plain map.
  ghost function Additions<K, V>(table: map<K, V>, ops: seq<Op<K, V>>): nat {
    if ops == [] then 0
    else
      var front := ops[..|ops| - 1];
      Additions(table, front) + if Adds(Plain(table, front), ops[|ops| - 1]) then 1 else 0
  }

  // The slot an answer reports as filled, and those of several answers.
  ghost function FilledBy<V>(a: Answer<V>): set<int> {
    if a.Added? && a.inserted then {a.at} else {}
  }

  ghost function Filled<V>(answers: seq<Answer<V>>): set<int> {
    if answers == [] then {} else Filled(answers[..|answers| - 1]) + FilledBy(answers[|answers| - 1])
  }

  // If the operation adds a key to the plain map, then some slot on the key's
  // path is not among the used ones.
  ghost predicate Fits<K, V>(s: Start<K, V>, table: map<K, V>, op: Op<K, V>, used: set<int>)
    requires s.bucketSize > 0
  {
    Adds(table, op) ==> !(Path(s.hasher(op.k) % MASK_TOMB, s.probeLen, s.bucketSize) <= used)
  }

  // Each operation fits, with the slots used before the run and those filled
  // during it.
  ghost predicate AllFit<K, V>(s: Start<K, V>, ops: seq<Op<K, V>>, answers: seq<Answer<V>>)
    requires |answers| <= |ops| && s.bucketSize > 0
  {
    forall i: nat :: i < |answers| ==> FitsAt(s, ops, answers, i)
  }

  ghost predicate FitsAt<K, V>(s: Start<K, V>, ops: seq<Op<K, V>>, answers: seq<Answer<V>>, i: nat)
    requires i < |answers| <= |ops| && s.bucketSize > 0
  {
    Fits(s, Plain(s.table, ops[..i]), ops[i], s.used + Filled(answers[..i]))
  }

  lemma RightOneMore<K, V>(table: map<K, V>, ops: seq<Op<K, V>>, answers: seq<Answer<V>>, a: Answer<V>)
    requires |answers| < |ops|
    ensures AllRight(table, ops, answers + [a]) <==>
              AllRight(table, ops, answers) && Right(Plain(table, ops[..|answers|]), ops[|answers|], a)
  {
    var all := answers + [a];
    forall i: nat | i < |answers| ensures RightAt(table, ops, all, i) == RightAt(table, ops, answers, i) {
      assert all[i] == answers[i];
    }
    assert RightAt(table, ops, all, |answers|) == Right(Plain(table, ops[..|answers|]), ops[|answers|], a);
  }

  lemma FitsOneMore<K, V>(s: Start<K, V>, ops: seq<Op<K, V>>, answers: seq<Answer<V>>, a: Answer<V>)
    requires |answers| < |ops| && s.bucketSize > 0
    ensures AllFit(s, ops, answers + [a]) <==>
              AllFit(s, ops, answers)
              && Fits(s, Plain(s.table, ops[..|answers|]), ops[|answers|], s.used + Filled(answers))
  {
    var all := answers + [a];
    forall i: nat | i < |answers| ensures FitsAt(s, ops, all, i) == FitsAt(s, ops, answers, i) {
      assert all[..i] == answers[..i];
    }
    assert all[..|answers|] == answers;
    assert FitsAt(s, ops, all, |answers|)
        == Fits(s, Plain(s.table, ops[..|answers|]), ops[|answers|], s.used + Filled(answers));
  }

  // A run with right answers has filled no more slots than keys were added.
  lemma {:induction false} FilledSize<K, V>(table: map<K, V>, ops: seq<Op<K, V>>, answers: seq<Answer<V>>)
    requires |answers| <= |ops| && AllRight(table, ops, answers)
    ensures |Filled(answers)| <= Additions(table, ops[..|answers|])
    decreases |answers|
  {
    if answers != [] {
      var n := |answers| - 1;
      assert answers == answers[..n] + [answers[n]];
      RightOneMore(table, ops, answers[..n], answers[n]);
      FilledSize(table, ops, answers[..n]);
      PlainOneMore(table, ops, n);
    }
  }

  lemma PlainOneMore<K, V>(table: map<K, V>, ops: seq<Op<K, V>>, n: nat)
    requires n < |ops|
    ensures Plain(table, ops[..n + 1]) == Next(Plain(table, ops[..n]), ops[n])
    ensures Additions(table, ops[..n + 1]) ==
            Additions(table, ops[..n]) + if Adds(Plain(table, ops[..n]), ops[n]) then 1 else 0
  {
    assert ops[..n + 1][..n] == ops[..n];
  }

  // Up to probeLen additions fit.
  lemma FewAdditionsFit<K, V>(s: Start<K, V>, ops: seq<Op<K, V>>, answers: seq<Answer<V>>)
    requires |answers| < |ops| && s.bucketSize > 0 && s.probeLen * s.probeLen <= s.bucketSize
    requires AllRight(s.table, ops, answers)
    requires |s.used| + Additions(s.table, ops[..|answers| + 1]) <= s.probeLen
    ensures Fits(s, Plain(s.table, ops[..|answers|]), ops[|answers|], s.used + Filled(answers))
  {
    var (n, op) := (|answers|, ops[|answers|]);
    PlainOneMore(s.table, ops, n);
    if Adds(Plain(s.table, ops[..n]), op) {
      FilledSize(s.table, ops, answers);
      FewDoNotCover(s.hasher(op.k) % MASK_TOMB, s.probeLen, s.bucketSize, s.used + Filled(answers));
    }
  }

  // What a run has done so far: answers right exactly when everything fitted,
  // as it does with few additions.
  ghost predicate Served<K, V>(s: Start<K, V>, ops: seq<Op<K, V>>, answers: seq<Answer<V>>, now: Start<K, V>) {
    && |answers| <= |ops| && s.bucketSize > 0
    && now == s.(table := now.table, used := s.used + Filled(answers))
    && (AllRight(s.table, ops, answers) <==> AllFit(s, ops, answers))
    && (AllRight(s.table, ops, answers) ==> now.table == Plain(s.table, ops[..|answers|]))
    && FewRight(s, ops, answers)
  }

  ghost predicate FewRight<K, V>(s: Start<K, V>, ops: seq<Op<K, V>>, answers: seq<Answer<V>>)
    requires |answers| <= |ops|
  {
    |s.used| + Additions(s.table, ops[..|answers|]) <= s.probeLen ==> AllRight(s.table, ops, answers)
  }

  // One operation on a table.
  ghost predicate Answers<K, V>(s: Start<K, V>, op: Op<K, V>, a: Answer<V>, now: Start<K, V>) {
    && s.bucketSize > 0
    && now == s.(table := now.table, used := s.used + FilledBy(a))
    && (Right(s.table, op, a) <==> Fits(s, s.table, op, s.used))
    && (Right(s.table, op, a) ==> now.table == Next(s.table, op))
  }

  lemma FewRightOneMore<K, V>(s: Start<K, V>, ops: seq<Op<K, V>>, answers: seq<Answer<V>>, a: Answer<V>,
                              table: map<K, V>, op: Op<K, V>)
    requires |answers| < |ops| && s.bucketSize > 0 && s.probeLen * s.probeLen <= s.bucketSize
    requires table == Plain(s.table, ops[..|answers|]) && op == ops[|answers|]
    requires FewRight(s, ops, answers)
    requires AllRight(s.table, ops, answers) && Fits(s, table, op, s.used + Filled(answers)) ==> Right(table, op, a)
    ensures FewRight(s, ops, answers + [a])
  {
    var n := |answers|;
    PlainOneMore(s.table, ops, n);
    if |s.used| + Additions(s.table, ops[..n + 1]) <= s.probeLen {
      assert AllRight(s.table, ops, answers);
      FewAdditionsFit(s, ops, answers);
      assert Right(table, op, a);
      RightOneMore(s.table, ops, answers, a);
    }
    assert |answers + [a]| == n + 1;
  }

  lemma ServedOneMore<K, V>(s: Start<K, V>, ops: seq<Op<K, V>>, answers: seq<Answer<V>>, now: Start<K, V>,
                            a: Answer<V>, next: Start<K, V>)
    requires Served(s, ops, answers, now) && |answers| < |ops| && s.probeLen * s.probeLen <= s.bucketSize
    requires Answers(now, ops[|answers|], a, next)
    ensures Served(s, ops, answers + [a], next)
  {
    RightOneMore(s.table, ops, answers, a);
    FitsOneMore(s, ops, answers, a);
    FewRightOneMore(s, ops, answers, a, Plain(s.table, ops[..|answers|]), ops[|answers|]);
    PlainOneMore(s.table, ops, |answers|);
    assert (answers + [a])[..|answers|] == answers;
  }

  method Stored<K(==), V>(t: Table<K, V>, k: K, v: V) returns (a: Answer<V>)
    requires t.Valid()
    modifies t`elements, t`table, t`home, t.slots
    ensures t.Valid() && Answers(old(StartOf(t)), Put(k, v), a, StartOf(t))
  {
    RoomMeaning(t.slots[..], t.hasher(k) % MASK_TOMB, t.probeLen);
    var at, inserted := t.Insert(k, v);
    a := Added(at, inserted);
  }

  method Answered<K(==), V>(t: Table<K, V>, op: Op<K, V>) returns (a: Answer<V>)
    requires t.Valid()
    modifies t`elements, t`table, t`home, t.slots
    ensures t.Valid() && Answers(old(StartOf(t)), op, a, StartOf(t))
  {
    match op
    case Put(k, v) =>
      a := Stored(t, k, v);
    case Get(k) =>
      var found, v := t.Find(k);
      a := Looked(found, v);
    case Drop(k) =>
      var count := t.Erase(k);
      a := Dropped(count);
  }

  method AnsweredAll<K(==), V>(t: Table<K, V>, ops: seq<Op<K, V>>) returns (answers: seq<Answer<V>>)
    requires t.Valid()
    modifies t`elements, t`table, t`home, t.slots
    ensures t.Valid() && |answers| == |ops| && Served(old(StartOf(t)), ops, answers, StartOf(t))
  {
    ghost var s := StartOf(t);
    answers := [];
    for n := 0 to |ops|
      invariant t.Valid() && |answers| == n && Served(s, ops, answers, StartOf(t))
    {
      ghost var now := StartOf(t);
      var a := Answered(t, ops[n]);
      ServedOneMore(s, ops, answers, now, a, StartOf(t));
      answers := answers + [a];
    }
  }

  // Main result: the answers of a table to any operations are those of a plain
  // map exactly when each new key finds on its path a slot that was not used
  // before the run and at which no key has been added since.  No path that
  // has no room ever gets any.
  method Serve<K(==), V>(t: Table<K, V>, ops: seq<Op<K, V>>) returns (answers: seq<Answer<V>>)
    requires t.Valid()
    modifies t`elements, t`table, t`home, t.slots
    ensures t.Valid() && |answers| == |ops|
    ensures AllRight(old(t.table), ops, answers) <==> AllFit(old(StartOf(t)), ops, answers)
    ensures AllRight(old(t.table), ops, answers) ==> t.table == Plain(old(t.table), ops)
    ensures |old(Touched(t.slots[..]))| + Additions(old(t.table), ops) <= t.probeLen ==>
              AllRight(old(t.table), ops, answers)
    ensures Touched(t.slots[..]) == old(Touched(t.slots[..])) + Filled(answers)
    ensures forall hash: nat :: !HasRoom(old(t.slots[..]), hash, t.probeLen) ==>
              !HasRoom(t.slots[..], hash, t.probeLen)
  {
    ghost var elems := t.slots[..];
    answers := AnsweredAll(t, ops);
    assert ops[..|ops|] == ops;
    forall hash: nat ensures !HasRoom(elems, hash, t.probeLen) ==> !HasRoom(t.slots[..], hash, t.probeLen) {
      NoRoomForEver(elems, t.slots[..], hash, t.probeLen);
    }
  }

  // Up to probeLen additions, a new table answers as a plain map.
  method ServeNew<K(==), V>(hasher: K -> nat, bucketSize: nat, probeLen: nat, k0: K, v0: V, ops: seq<Op<K, V>>)
    returns (answers: seq<Answer<V>>)
    requires bucketSize > 0 && probeLen * probeLen <= bucketSize < (probeLen + 1) * (probeLen + 1)
    ensures |answers| == |ops|
    ensures AllRight(map[], ops, answers) <==> AllFit(Start(hasher, probeLen, bucketSize, map[], {}), ops, answers)
    ensures Additions(map[], ops) <= probeLen ==> AllRight(map[], ops, answers)
  {
    var t := new Table(hasher, bucketSize, probeLen, k0, v0);
    answers := Serve(t, ops);
  }

  ghost predicate KeysWithin(table: map<int, int>, from: int, to: int) {
    forall x :: x in table ==> from <= x < to
  }

  // Adds the keys below n to a new table.
  method AddKeys(t: Table<int, int>, n: nat)
    requires t.Valid() && t.table == map[] && Touched(t.slots[..]) == {} && n <= t.probeLen
    modifies t`elements, t`table, t`home, t.slots
    ensures t.Valid() && |t.table| == n && KeysWithin(t.table, 0, n)
    ensures |Touched(t.slots[..])| <= n
  {
    for m := 0 to n
      invariant t.Valid() && |t.table| == m && KeysWithin(t.table, 0, m)
      invariant |Touched(t.slots[..])| <= m
    {
      ghost var table := t.table;
      var at, inserted := t.Insert(m, m);
      assert table[m := m].Keys == table.Keys + {m};
    }
  }

  lemma WithoutFirst(table: map<int, int>, from: int, to: int)
    requires KeysWithin(table, from, to)
    ensures KeysWithin(table - {from}, from + 1, to)
  {
  }

  lemma WithoutAny(table: map<int, int>, n: int)
    requires KeysWithin(table, n, n)
    ensures table == map[]
  {
    assert forall x :: x !in table;
  }

  method EraseKeys(t: Table<int, int>, n: nat)
    requires t.Valid() && KeysWithin(t.table, 0, n)
    modifies t`elements, t`table, t`home, t.slots
    ensures t.Valid() && t.table == map[] && Touched(t.slots[..]) == old(Touched(t.slots[..]))
  {
    for m := 0 to n
      invariant t.Valid() && KeysWithin(t.table, m, n)
      invariant Touched(t.slots[..]) == old(Touched(t.slots[..]))
    {
      ghost var table := t.table;
      var count := t.Erase(m);
      WithoutFirst(table, m, n);
    }
    WithoutAny(t.table, n);
  }

  // One more addition fails in a table of any size: once probeLen keys of equal
  // hash have been added, no other key of that hash is taken, even after all of
  // them have been erased and the table is empty.
  method EmptyTableRefuses(hash: nat, bucketSize: nat, probeLen: nat, k: int)
    returns (t: Table<int, int>, at: int, inserted: bool)
    requires bucketSize > 0 && probeLen * probeLen <= bucketSize < (probeLen + 1) * (probeLen + 1)
    ensures fresh(t) && t.Valid() && t.slots.Length == bucketSize && t.table == map[]
    ensures |Touched(t.slots[..])| <= probeLen && !HasRoom(t.slots[..], hash % MASK_TOMB, probeLen)
    ensures at == -1 && !inserted
  {
    t := new Table(_ => hash, bucketSize, probeLen, 0, 0);
    AddKeys(t, probeLen);
    ghost var elems := t.slots[..];
    OneHashFills(elems, t.hasher, probeLen, t.table, t.home, hash % MASK_TOMB);
    EraseKeys(t, probeLen);
    NoRoomForEver(elems, t.slots[..], hash % MASK_TOMB, probeLen);
    at, inserted := t.Insert(k, k);
    NoRoomForEver(elems, t.slots[..], hash % MASK_TOMB, probeLen);
  }
}
