// AtomicSet and AtomicSet2 of cpp11/atomic_set.cpp: two ways to report, per
// category, the sequence ids that have arrived on all three message streams.

module StreamJoins {
  import opened Arithmetic
  import opened Sequences

  datatype Source = Calc1 | Calc2 | Ref

  datatype Message = Message(source: Source, cat: nat, seqId: nat, payload: nat)

  type Queues = map<nat, seq<Message>>

  // map::operator[], which makes a default element when there is none.
  function At(m: Queues, cat: nat): seq<Message> {
    if cat in m then m[cat] else []
  }

  function OutAt(m: map<nat, seq<nat>>, cat: nat): seq<nat> {
    if cat in m then m[cat] else []
  }

  function CountsAt(m: map<nat, map<nat, nat>>, cat: nat): map<nat, nat> {
    if cat in m then m[cat] else map[]
  }

  // What the streams promise: on each of them, within a category, ids only go up.
  ghost predicate InOrder(log: seq<Message>) {
    forall i, j :: 0 <= i < j < |log| && log[i].source == log[j].source && log[i].cat == log[j].cat ==>
      log[i].seqId < log[j].seqId
  }

  ghost predicate SeenOn(log: seq<Message>, source: Source, cat: nat, x: nat) {
    exists m :: m in log && m.source == source && m.cat == cat && m.seqId == x
  }

  // The promised output for a category: the ids seen on all three streams,
  // ascending.
  ghost predicate IsJoinOf(out: seq<nat>, log: seq<Message>, cat: nat) {
    && Ascending(out)
    && forall x :: x in out <==> SeenOn(log, Calc1, cat, x) && SeenOn(log, Calc2, cat, x) && SeenOn(log, Ref, cat, x)
  }

  ghost predicate Increasing(s: seq<Message>) {
    forall i, j :: 0 <= i < j < |s| ==> s[i].seqId < s[j].seqId
  }

  ghost predicate Has(s: seq<Message>, x: nat) {
    exists i :: 0 <= i < |s| && s[i].seqId == x
  }

  // The same for the three streams of one category.
  ghost predicate IsJoin(out: seq<nat>, a: seq<Message>, b: seq<Message>, c: seq<Message>) {
    && Ascending(out)
    && forall x {:trigger OnAll(a, b, c, x)} :: x in out <==> OnAll(a, b, c, x)
  }

  ghost predicate OnAll(a: seq<Message>, b: seq<Message>, c: seq<Message>, x: nat) {
    Has(a, x) && Has(b, x) && Has(c, x)
  }

  lemma HasGrows(s: seq<Message>, m: Message, x: nat)
    ensures Has(s + [m], x) <==> Has(s, x) || m.seqId == x
  {
    var t := s + [m];
    if Has(s, x) { var i :| 0 <= i < |s| && s[i].seqId == x; assert t[i].seqId == x; }
    if m.seqId == x { assert t[|s|].seqId == x; }
  }

  function Flag(b: bool): nat { if b then 1 else 0 }

  function Push(s: seq<Message>, owner: Source, m: Message): seq<Message> {
    if m.source == owner then s + [m] else s
  }

  // The three streams of one category, as pushing m changes them.
  ghost predicate NextInOrder(a: seq<Message>, b: seq<Message>, c: seq<Message>, m: Message) {
    && Increasing(a) && Increasing(b) && Increasing(c)
    && Increasing(Push(a, Calc1, m)) && Increasing(Push(b, Calc2, m)) && Increasing(Push(c, Ref, m))
  }

  lemma FreshId(s: seq<Message>, m: Message)
    requires Increasing(s + [m])
    ensures forall y: nat :: Has(s, y) ==> y < m.seqId
  {
    var t := s + [m];
    forall y: nat | Has(s, y) ensures y < m.seqId {
      var i :| 0 <= i < |s| && s[i].seqId == y;
      assert t[i].seqId < t[|s|].seqId;
    }
  }

  // The messages so far, by source and category.
  datatype History = History(calc1: Queues, calc2: Queues, ref: Queues)

  ghost predicate Ordered(h: History) {
    forall cat :: Increasing(At(h.calc1, cat)) && Increasing(At(h.calc2, cat)) && Increasing(At(h.ref, cat))
  }

  // push_back on the owner's queue of the category.
  ghost function PushTo(q: Queues, owner: Source, m: Message): Queues {
    if m.source == owner then q[m.cat := At(q, m.cat) + [m]] else q
  }

  lemma PushToAt(q: Queues, owner: Source, m: Message, cat: nat)
    ensures At(PushTo(q, owner, m), cat) == if cat == m.cat then Push(At(q, cat), owner, m) else At(q, cat)
  {
  }

  ghost function Record(h: History, m: Message): History {
    History(PushTo(h.calc1, Calc1, m), PushTo(h.calc2, Calc2, m), PushTo(h.ref, Ref, m))
  }

  lemma RecordAt(h: History, m: Message, cat: nat)
    ensures At(Record(h, m).calc1, cat) == if cat == m.cat then Push(At(h.calc1, cat), Calc1, m) else At(h.calc1, cat)
    ensures At(Record(h, m).calc2, cat) == if cat == m.cat then Push(At(h.calc2, cat), Calc2, m) else At(h.calc2, cat)
    ensures At(Record(h, m).ref, cat) == if cat == m.cat then Push(At(h.ref, cat), Ref, m) else At(h.ref, cat)
  {
    PushToAt(h.calc1, Calc1, m, cat);
    PushToAt(h.calc2, Calc2, m, cat);
    PushToAt(h.ref, Ref, m, cat);
  }

  lemma RecordInOrder(h: History, m: Message)
    requires Ordered(h) && Ordered(Record(h, m))
    ensures NextInOrder(At(h.calc1, m.cat), At(h.calc2, m.cat), At(h.ref, m.cat), m)
  {
    RecordAt(h, m, m.cat);
    var h' := Record(h, m);
    assert Increasing(At(h'.calc1, m.cat)) && Increasing(At(h'.calc2, m.cat)) && Increasing(At(h'.ref, m.cat));
  }

  // ---------------------------------------------------------------------
  // AtomicSet: counts arrivals per id.

  // remove_if of the ids below x, and of the id x.
  function DropBelow(s: seq<Message>, x: nat): seq<Message> {
    if s == [] then []
    else DropBelow(s[..|s| - 1], x) + if s[|s| - 1].seqId < x then [] else [s[|s| - 1]]
  }

  function DropEqual(s: seq<Message>, x: nat): seq<Message> {
    if s == [] then []
    else DropEqual(s[..|s| - 1], x) + if s[|s| - 1].seqId == x then [] else [s[|s| - 1]]
  }

  // The messages with an id above bound.
  ghost function Above(s: seq<Message>, bound: int): seq<Message> {
    if s == [] then []
    else Above(s[..|s| - 1], bound) + if s[|s| - 1].seqId <= bound then [] else [s[|s| - 1]]
  }

  lemma FiltersGrow(s: seq<Message>, m: Message, x: nat, bound: int)
    ensures DropBelow(s + [m], x) == DropBelow(s, x) + if m.seqId < x then [] else [m]
    ensures DropEqual(s + [m], x) == DropEqual(s, x) + if m.seqId == x then [] else [m]
    ensures Above(s + [m], bound) == Above(s, bound) + if m.seqId <= bound then [] else [m]
  {
    assert (s + [m])[..|s|] == s;
  }

  lemma PurgeOne(s: seq<Message>, m: Message, bound: int, x: nat)
    requires bound < x
    ensures DropEqual(DropBelow(s + if m.seqId <= bound then [] else [m], x), x)
         == DropEqual(DropBelow(s, x), x) + if m.seqId <= x then [] else [m]
  {
    var purged := DropEqual(DropBelow(s, x), x);
    if m.seqId <= x { NothingAppended(purged); }
    if m.seqId <= bound {
      NothingAppended(s);
    } else {
      FiltersGrow(s, m, x, bound);
      if m.seqId < x { NothingAppended(DropBelow(s, x)); } else { FiltersGrow(DropBelow(s, x), m, x, bound); }
    }
  }

  lemma NothingAppended(s: seq<Message>)
    ensures s + [] == s
  {
  }

  // The two purges together keep what lies above x.
  lemma {:induction false} PurgeMeaning(s: seq<Message>, bound: int, x: nat)
    requires bound < x
    ensures DropEqual(DropBelow(Above(s, bound), x), x) == Above(s, x)
    decreases |s|
  {
    if s != [] {
      var n := |s| - 1;
      PurgeMeaning(s[..n], bound, x);
      PurgeOne(Above(s[..n], bound), s[n], bound, x);
    }
  }

  lemma AbovePush(s: seq<Message>, owner: Source, m: Message, bound: int)
    requires bound < m.seqId
    ensures Above(Push(s, owner, m), bound) == Push(Above(s, bound), owner, m)
  {
    FiltersGrow(s, m, m.seqId, bound);
  }

  // On how many of the three streams x has been seen.
  ghost function Seen(a: seq<Message>, b: seq<Message>, c: seq<Message>, x: nat): nat {
    Flag(Has(a, x)) + Flag(Has(b, x)) + Flag(Has(c, x))
  }

  lemma SeenGrows(a: seq<Message>, b: seq<Message>, c: seq<Message>, m: Message)
    requires NextInOrder(a, b, c, m)
    ensures forall x :: Seen(Push(a, Calc1, m), Push(b, Calc2, m), Push(c, Ref, m), x)
                     == Seen(a, b, c, x) + Flag(x == m.seqId)
    ensures Seen(a, b, c, m.seqId) < 3
  {
    var s := if m.source.Calc1? then a else if m.source.Calc2? then b else c;
    FreshId(s, m);
    forall x ensures Has(s + [m], x) <==> Has(s, x) || m.seqId == x { HasGrows(s, m, x); }
  }

  ghost function LastOr(out: seq<nat>): int {
    if out == [] then -1 else out[|out| - 1]
  }

  lemma LastAppended(out: seq<nat>, x: nat)
    ensures LastOr(out + [x]) == x
  {
  }

  // What AtomicSet keeps for one category: the arrival counts of the ids not
  // yet complete, the messages above the last reported id, and the join.
  ghost predicate Counted(a: seq<Message>, b: seq<Message>, c: seq<Message>,
                          d1: seq<Message>, d2: seq<Message>, d3: seq<Message>,
                          counts: map<nat, nat>, out: seq<nat>) {
    && IsJoin(out, a, b, c)
    && AreAbove(a, b, c, d1, d2, d3, LastOr(out))
    && CountsOk(a, b, c, counts)
  }

  ghost predicate AreAbove(a: seq<Message>, b: seq<Message>, c: seq<Message>,
                           d1: seq<Message>, d2: seq<Message>, d3: seq<Message>, bound: int) {
    d1 == Above(a, bound) && d2 == Above(b, bound) && d3 == Above(c, bound)
  }

  ghost predicate CountsOk(a: seq<Message>, b: seq<Message>, c: seq<Message>, counts: map<nat, nat>) {
    forall x :: (x in counts <==> 1 <= Seen(a, b, c, x) <= 2) && (x in counts ==> counts[x] == Seen(a, b, c, x))
  }

  lemma NewIdIsLast(a: seq<Message>, b: seq<Message>, c: seq<Message>, m: Message, out: seq<nat>)
    requires NextInOrder(a, b, c, m)
    requires forall x :: x in out ==> OnAll(a, b, c, x)
    ensures forall x :: x in out ==> x < m.seqId
    ensures LastOr(out) < m.seqId
  {
    var s := if m.source.Calc1? then a else if m.source.Calc2? then b else c;
    FreshId(s, m);
    assert out != [] ==> out[|out| - 1] in out;
  }

  lemma JoinStays(a: seq<Message>, b: seq<Message>, c: seq<Message>, m: Message, out: seq<nat>)
    requires NextInOrder(a, b, c, m) && IsJoin(out, a, b, c) && Seen(a, b, c, m.seqId) < 2
    ensures IsJoin(out, Push(a, Calc1, m), Push(b, Calc2, m), Push(c, Ref, m))
  {
    SeenGrows(a, b, c, m);
    var a', b', c' := Push(a, Calc1, m), Push(b, Calc2, m), Push(c, Ref, m);
    forall x ensures x in out <==> OnAll(a', b', c', x) {
      assert Seen(a', b', c', x) == 3 <==> OnAll(a', b', c', x);
      assert OnAll(a, b, c, x) <==> Seen(a, b, c, x) == 3;
    }
  }

  lemma JoinReports(a: seq<Message>, b: seq<Message>, c: seq<Message>, m: Message, out: seq<nat>)
    requires NextInOrder(a, b, c, m) && IsJoin(out, a, b, c) && Seen(a, b, c, m.seqId) == 2
    ensures IsJoin(out + [m.seqId], Push(a, Calc1, m), Push(b, Calc2, m), Push(c, Ref, m))
  {
    forall x | x in out ensures OnAll(a, b, c, x) {}
    NewIdIsLast(a, b, c, m, out);
    SeenGrows(a, b, c, m);
    var out' := out + [m.seqId];
    var a', b', c' := Push(a, Calc1, m), Push(b, Calc2, m), Push(c, Ref, m);
    forall x ensures x in out' <==> OnAll(a', b', c', x) {
      assert Seen(a', b', c', x) == 3 <==> OnAll(a', b', c', x);
      assert OnAll(a, b, c, x) <==> Seen(a, b, c, x) == 3;
    }
  }

  function Purge(s: seq<Message>, x: nat): seq<Message> {
    DropEqual(DropBelow(s, x), x)
  }

  function Increment(counts: map<nat, nat>, x: nat): map<nat, nat> {
    counts[x := (if x in counts then counts[x] else 0) + 1]
  }

  lemma CountsGrow(a: seq<Message>, b: seq<Message>, c: seq<Message>, counts: map<nat, nat>, m: Message)
    requires NextInOrder(a, b, c, m) && CountsOk(a, b, c, counts)
    ensures var x := m.seqId;
      var counts' := Increment(counts, x);
      && counts'[x] == Seen(a, b, c, x) + 1 <= 3
      && CountsOk(Push(a, Calc1, m), Push(b, Calc2, m), Push(c, Ref, m),
                  if counts'[x] < 3 then counts' else counts' - {x})
  {
    SeenGrows(a, b, c, m);
  }

  lemma QueuesGrow(a: seq<Message>, owner: Source, m: Message, out: seq<nat>)
    requires LastOr(out) < m.seqId
    ensures var d := Push(Above(a, LastOr(out)), owner, m);
      && d == Above(Push(a, owner, m), LastOr(out))
      && Purge(d, m.seqId) == Above(Push(a, owner, m), m.seqId)
  {
    AbovePush(a, owner, m, LastOr(out));
    PurgeMeaning(Push(a, owner, m), LastOr(out), m.seqId);
  }

  // The fields of AtomicSet as values.
  datatype Store = Store(data1: Queues, data2: Queues, data3: Queues,
                         counts: map<nat, map<nat, nat>>, out: map<nat, seq<nat>>)

  ghost predicate StoreOkFor(st: Store, h: History, cat: nat) {
    Counted(At(h.calc1, cat), At(h.calc2, cat), At(h.ref, cat),
            At(st.data1, cat), At(st.data2, cat), At(st.data3, cat), CountsAt(st.counts, cat), OutAt(st.out, cat))
  }

  ghost predicate StoreOk(st: Store, h: History) {
    Ordered(h) && forall cat :: StoreOkFor(st, h, cat)
  }

  ghost function Stored(st: Store, m: Message): Store {
    st.(data1 := PushTo(st.data1, Calc1, m), data2 := PushTo(st.data2, Calc2, m), data3 := PushTo(st.data3, Ref, m))
  }

  ghost function Sent(st: Store, cat: nat, x: nat): Store {
    var counts := Increment(CountsAt(st.counts, cat), x);
    if counts[x] < 3 then st.(counts := st.counts[cat := counts])
    else Store(st.data1[cat := Purge(At(st.data1, cat), x)],
               st.data2[cat := Purge(At(st.data2, cat), x)],
               st.data3[cat := Purge(At(st.data3, cat), x)],
               st.counts[cat := counts - {x}],
               st.out[cat := OutAt(st.out, cat) + [x]])
  }

  lemma LastIsBelow(a: seq<Message>, b: seq<Message>, c: seq<Message>, m: Message, out: seq<nat>)
    requires NextInOrder(a, b, c, m) && IsJoin(out, a, b, c)
    ensures LastOr(out) < m.seqId
  {
    forall x | x in out ensures OnAll(a, b, c, x) {}
    NewIdIsLast(a, b, c, m, out);
  }

  lemma AreAboveGrow(a: seq<Message>, b: seq<Message>, c: seq<Message>, m: Message, out: seq<nat>,
                     d1: seq<Message>, d2: seq<Message>, d3: seq<Message>)
    requires LastOr(out) < m.seqId && AreAbove(a, b, c, d1, d2, d3, LastOr(out))
    ensures var x := m.seqId;
      var a', b', c' := Push(a, Calc1, m), Push(b, Calc2, m), Push(c, Ref, m);
      var e1, e2, e3 := Push(d1, Calc1, m), Push(d2, Calc2, m), Push(d3, Ref, m);
      && AreAbove(a', b', c', e1, e2, e3, LastOr(out))
      && AreAbove(a', b', c', Purge(e1, x), Purge(e2, x), Purge(e3, x), x)
  {
    QueuesGrow(a, Calc1, m, out);
    QueuesGrow(b, Calc2, m, out);
    QueuesGrow(c, Ref, m, out);
  }

  // An id seen for the first or second time.
  lemma CountedBelowThree(a: seq<Message>, b: seq<Message>, c: seq<Message>,
                          counts: map<nat, nat>, out: seq<nat>, m: Message,
                          d1: seq<Message>, d2: seq<Message>, d3: seq<Message>)
    requires NextInOrder(a, b, c, m) && Counted(a, b, c, d1, d2, d3, counts, out)
    requires Increment(counts, m.seqId)[m.seqId] < 3
    ensures Counted(Push(a, Calc1, m), Push(b, Calc2, m), Push(c, Ref, m),
                    Push(d1, Calc1, m), Push(d2, Calc2, m), Push(d3, Ref, m), Increment(counts, m.seqId), out)
  {
    LastIsBelow(a, b, c, m, out);
    AreAboveGrow(a, b, c, m, out, d1, d2, d3);
    CountsGrow(a, b, c, counts, m);
    JoinStays(a, b, c, m, out);
  }

  // An id seen for the third time.
  lemma CountedAtThree(a: seq<Message>, b: seq<Message>, c: seq<Message>,
                       counts: map<nat, nat>, out: seq<nat>, m: Message,
                       d1: seq<Message>, d2: seq<Message>, d3: seq<Message>)
    requires NextInOrder(a, b, c, m) && Counted(a, b, c, d1, d2, d3, counts, out)
    requires Increment(counts, m.seqId)[m.seqId] >= 3
    ensures var x := m.seqId;
      Counted(Push(a, Calc1, m), Push(b, Calc2, m), Push(c, Ref, m),
              Purge(Push(d1, Calc1, m), x), Purge(Push(d2, Calc2, m), x), Purge(Push(d3, Ref, m), x),
              Increment(counts, x) - {x}, out + [x])
  {
    LastIsBelow(a, b, c, m, out);
    AreAboveGrow(a, b, c, m, out, d1, d2, d3);
    CountsGrow(a, b, c, counts, m);
    JoinReports(a, b, c, m, out);
    LastAppended(out, m.seqId);
  }

  lemma CountedGrows(a: seq<Message>, b: seq<Message>, c: seq<Message>,
                     counts: map<nat, nat>, out: seq<nat>, m: Message,
                     d1: seq<Message>, d2: seq<Message>, d3: seq<Message>)
    requires NextInOrder(a, b, c, m) && Counted(a, b, c, d1, d2, d3, counts, out)
    ensures var x := m.seqId;
      var a', b', c' := Push(a, Calc1, m), Push(b, Calc2, m), Push(c, Ref, m);
      var e1, e2, e3 := Push(d1, Calc1, m), Push(d2, Calc2, m), Push(d3, Ref, m);
      var counts' := Increment(counts, x);
      if counts'[x] < 3 then Counted(a', b', c', e1, e2, e3, counts', out)
      else Counted(a', b', c', Purge(e1, x), Purge(e2, x), Purge(e3, x), counts' - {x}, out + [x])
  {
    if Increment(counts, m.seqId)[m.seqId] < 3 {
      CountedBelowThree(a, b, c, counts, out, m, d1, d2, d3);
    } else {
      CountedAtThree(a, b, c, counts, out, m, d1, d2, d3);
    }
  }

  lemma UpdateTwice<T>(m: map<nat, T>, cat: nat, x: T, y: T)
    ensures m[cat := x][cat := y] == m[cat := y]
  {
  }

  lemma StoreOkGrowsHere(st: Store, h: History, m: Message)
    requires StoreOkFor(st, h, m.cat) && Ordered(h) && Ordered(Record(h, m))
    ensures StoreOkFor(Sent(Stored(st, m), m.cat, m.seqId), Record(h, m), m.cat)
  {
    RecordInOrder(h, m);
    RecordAt(h, m, m.cat);
    PushToAt(st.data1, Calc1, m, m.cat);
    PushToAt(st.data2, Calc2, m, m.cat);
    PushToAt(st.data3, Ref, m, m.cat);
    CountedGrows(At(h.calc1, m.cat), At(h.calc2, m.cat), At(h.ref, m.cat),
                 CountsAt(st.counts, m.cat), OutAt(st.out, m.cat), m,
                 At(st.data1, m.cat), At(st.data2, m.cat), At(st.data3, m.cat));
  }

  lemma StoreOkElsewhere(st: Store, h: History, m: Message, cat: nat)
    requires StoreOkFor(st, h, cat) && cat != m.cat
    ensures StoreOkFor(Sent(Stored(st, m), m.cat, m.seqId), Record(h, m), cat)
  {
    RecordAt(h, m, cat);
    SentElsewhere(Stored(st, m), m.cat, m.seqId, cat);
    PushToAt(st.data1, Calc1, m, cat);
    PushToAt(st.data2, Calc2, m, cat);
    PushToAt(st.data3, Ref, m, cat);
  }

  lemma SentElsewhere(st: Store, at: nat, x: nat, cat: nat)
    requires cat != at
    ensures var st' := Sent(st, at, x);
      && At(st'.data1, cat) == At(st.data1, cat) && At(st'.data2, cat) == At(st.data2, cat)
      && At(st'.data3, cat) == At(st.data3, cat)
      && CountsAt(st'.counts, cat) == CountsAt(st.counts, cat) && OutAt(st'.out, cat) == OutAt(st.out, cat)
  {
    OtherKept(st.data1, at, Purge(At(st.data1, at), x), cat);
    OtherKept(st.data2, at, Purge(At(st.data2, at), x), cat);
    OtherKept(st.data3, at, Purge(At(st.data3, at), x), cat);
  }

  lemma OtherKept(q: Queues, at: nat, s: seq<Message>, cat: nat)
    requires cat != at
    ensures At(q[at := s], cat) == At(q, cat)
  {
  }

  // One message: the count goes up, and at three the id is reported and purged.
  lemma StoreOkGrows(st: Store, h: History, m: Message)
    requires StoreOk(st, h) && Ordered(Record(h, m))
    ensures StoreOk(Sent(Stored(st, m), m.cat, m.seqId), Record(h, m))
  {
    forall cat ensures StoreOkFor(Sent(Stored(st, m), m.cat, m.seqId), Record(h, m), cat) {
      if cat == m.cat {
        StoreOkGrowsHere(st, h, m);
      } else {
        StoreOkElsewhere(st, h, m, cat);
      }
    }
  }

  // ---------------------------------------------------------------------
  // AtomicSet2: drops ids that can no longer complete from the queue fronts.

  // x can no longer arrive on stream s.
  ghost predicate Missed(s: seq<Message>, x: nat) {
    !Has(s, x) && s != [] && s[|s| - 1].seqId > x
  }

  // The queue d is what is left of stream s: what was taken off was reported
  // or can no longer complete, and what was reported lies before all of d.
  ghost predicate Queue(d: seq<Message>, s: seq<Message>,
                        a: seq<Message>, b: seq<Message>, c: seq<Message>, out: seq<nat>) {
    && Increasing(s)
    && |d| <= |s| && s[|s| - |d|..] == d
    && (forall i {:trigger Decided(s[i].seqId, a, b, c, out)} ::
          0 <= i < |s| - |d| ==> Decided(s[i].seqId, a, b, c, out))
    && (forall x :: x in out ==> Has(s, x))
    && (forall x, i :: x in out && 0 <= i < |d| ==> x < d[i].seqId)
  }

  ghost predicate Decided(x: nat, a: seq<Message>, b: seq<Message>, c: seq<Message>, out: seq<nat>) {
    x in out || Missed(a, x) || Missed(b, x) || Missed(c, x)
  }

  ghost predicate Draining(a: seq<Message>, b: seq<Message>, c: seq<Message>,
                           d1: seq<Message>, d2: seq<Message>, d3: seq<Message>, out: seq<nat>) {
    && Queue(d1, a, a, b, c, out) && Queue(d2, b, a, b, c, out) && Queue(d3, c, a, b, c, out)
    && Ascending(out)
  }

  // At rest one queue is empty, and then the join is complete.
  lemma RestIsJoin(a: seq<Message>, b: seq<Message>, c: seq<Message>,
                   d1: seq<Message>, d2: seq<Message>, d3: seq<Message>, out: seq<nat>)
    requires Draining(a, b, c, d1, d2, d3, out) && (d1 == [] || d2 == [] || d3 == [])
    ensures IsJoin(out, a, b, c)
  {
    forall x | Has(a, x) && Has(b, x) && Has(c, x) ensures x in out {
      var s := if d1 == [] then a else if d2 == [] then b else c;
      var i :| 0 <= i < |s| && s[i].seqId == x;
      assert Decided(s[i].seqId, a, b, c, out);
    }
  }

  // A front below some other front is decided: either the other stream has
  // skipped it, or it took it off earlier.
  lemma FrontDecided(d: seq<Message>, s: seq<Message>, e: seq<Message>, t: seq<Message>,
                     a: seq<Message>, b: seq<Message>, c: seq<Message>, out: seq<nat>)
    requires Queue(d, s, a, b, c, out) && Queue(e, t, a, b, c, out) && t in [a, b, c]
    requires d != [] && e != [] && d[0].seqId < e[0].seqId
    ensures Decided(d[0].seqId, a, b, c, out)
    ensures Queue(d[1..], s, a, b, c, out)
  {
    var x := d[0].seqId;
    var k := |t| - |e|;
    assert t[k] == e[0];
    if Has(t, x) {
      var i :| 0 <= i < |t| && t[i].seqId == x;
      assert i < k;
      assert Decided(t[i].seqId, a, b, c, out);
    } else {
      assert Missed(t, x);
    }
    assert s[|s| - |d|] == d[0];
  }

  lemma ReportFront(d: seq<Message>, s: seq<Message>,
                    a: seq<Message>, b: seq<Message>, c: seq<Message>, out: seq<nat>)
    requires Queue(d, s, a, b, c, out) && d != []
    ensures Queue(d[1..], s, a, b, c, out + [d[0].seqId])
  {
    var out' := out + [d[0].seqId];
    assert s[|s| - |d|] == d[0];
    forall i | 0 <= i < |s| - |d[1..]| ensures Decided(s[i].seqId, a, b, c, out') {
      assert i < |s| - |d| ==> Decided(s[i].seqId, a, b, c, out);
    }
  }

  lemma ReportAll(a: seq<Message>, b: seq<Message>, c: seq<Message>,
                  d1: seq<Message>, d2: seq<Message>, d3: seq<Message>, out: seq<nat>)
    requires Draining(a, b, c, d1, d2, d3, out)
    requires d1 != [] && d2 != [] && d3 != []
    requires d1[0].seqId == d2[0].seqId == d3[0].seqId
    ensures Draining(a, b, c, d1[1..], d2[1..], d3[1..], out + [d3[0].seqId])
  {
    ReportFront(d1, a, a, b, c, out);
    ReportFront(d2, b, a, b, c, out);
    ReportFront(d3, c, a, b, c, out);
    forall i | 0 <= i < |out| ensures out[i] < d3[0].seqId { assert out[i] in out; }
  }

  lemma QueueGrows(d: seq<Message>, s: seq<Message>, owner: Source,
                   a: seq<Message>, b: seq<Message>, c: seq<Message>, out: seq<nat>, m: Message)
    requires NextInOrder(a, b, c, m) && Increasing(Push(s, owner, m)) && Queue(d, s, a, b, c, out)
    ensures Queue(Push(d, owner, m), Push(s, owner, m), Push(a, Calc1, m), Push(b, Calc2, m), Push(c, Ref, m), out)
  {
    var a', b', c' := Push(a, Calc1, m), Push(b, Calc2, m), Push(c, Ref, m);
    var s', d' := Push(s, owner, m), Push(d, owner, m);
    MissedGrows(a, Calc1, m);
    MissedGrows(b, Calc2, m);
    MissedGrows(c, Ref, m);
    forall i | 0 <= i < |s'| - |d'| ensures Decided(s'[i].seqId, a', b', c', out) {
      assert Decided(s[i].seqId, a, b, c, out);
    }
    if owner == m.source {
      FreshId(s, m);
      forall x | x in out ensures Has(s', x) { HasGrows(s, m, x); }
    }
  }

  lemma MissedGrows(s: seq<Message>, owner: Source, m: Message)
    requires Increasing(s) && Increasing(Push(s, owner, m))
    ensures forall x :: Missed(s, x) ==> Missed(Push(s, owner, m), x)
  {
    forall x | Missed(s, x) ensures Missed(Push(s, owner, m), x) {
      HasGrows(s, m, x);
      if owner == m.source {
        FreshId(s, m);
        assert Has(s, s[|s| - 1].seqId);
      }
    }
  }

  // ----- the loop of AtomicSet2::send_atomic on the queues of one category

  datatype Pending = Pending(d1: seq<Message>, d2: seq<Message>, d3: seq<Message>, out: seq<nat>)

  // One of the three inner loops: the ids below x leave the front.
  function DropFront(d: seq<Message>, x: nat): (e: seq<Message>)
    ensures |e| <= |d|
    ensures d != [] && d[0].seqId < x ==> |e| < |d|
  {
    if d != [] && d[0].seqId < x then DropFront(d[1..], x) else d
  }

  predicate SomeEmpty(p: Pending) {
    p.d1 == [] || p.d2 == [] || p.d3 == []
  }

  function Waiting(p: Pending): nat {
    |p.d1| + |p.d2| + |p.d3|
  }

  function Largest(p: Pending): nat
    requires !SomeEmpty(p)
  {
    Max(p.d1[0].seqId, Max(p.d2[0].seqId, p.d3[0].seqId))
  }

  function Dropped(p: Pending): Pending
    requires !SomeEmpty(p)
  {
    var x := Largest(p);
    Pending(DropFront(p.d1, x), DropFront(p.d2, x), DropFront(p.d3, x), p.out)
  }

  function Reported(p: Pending): Pending {
    if !SomeEmpty(p) && p.d1[0].seqId == p.d2[0].seqId && p.d2[0].seqId == p.d3[0].seqId
    then Pending(p.d1[1..], p.d2[1..], p.d3[1..], p.out + [p.d3[0].seqId])
    else p
  }

  function Drained(p: Pending): Pending
    decreases Waiting(p)
  {
    if SomeEmpty(p) then p
    else
      RoundShortens(p);
      Drained(Reported(Dropped(p)))
  }

  // Either some front is below the largest, or all are equal.
  lemma RoundShortens(p: Pending)
    requires !SomeEmpty(p)
    ensures Waiting(Reported(Dropped(p))) < Waiting(p)
  {
  }

  lemma {:induction false} DropKeeps(d: seq<Message>, x: nat, s: seq<Message>, e: seq<Message>, t: seq<Message>,
                                     a: seq<Message>, b: seq<Message>, c: seq<Message>, out: seq<nat>)
    requires Queue(d, s, a, b, c, out) && Queue(e, t, a, b, c, out) && t in [a, b, c]
    requires e != [] && e[0].seqId == x
    ensures Queue(DropFront(d, x), s, a, b, c, out)
    decreases |d|
  {
    if d != [] && d[0].seqId < x {
      FrontDecided(d, s, e, t, a, b, c, out);
      DropKeeps(d[1..], x, s, e, t, a, b, c, out);
    }
  }

  ghost predicate DrainingOf(p: Pending, a: seq<Message>, b: seq<Message>, c: seq<Message>) {
    Draining(a, b, c, p.d1, p.d2, p.d3, p.out)
  }

  lemma DroppedKeeps(p: Pending, a: seq<Message>, b: seq<Message>, c: seq<Message>)
    requires DrainingOf(p, a, b, c) && !SomeEmpty(p)
    ensures DrainingOf(Dropped(p), a, b, c)
  {
    var x := Largest(p);
    var (e, t) := if p.d1[0].seqId == x then (p.d1, a) else if p.d2[0].seqId == x then (p.d2, b) else (p.d3, c);
    DropKeeps(p.d1, x, a, e, t, a, b, c, p.out);
    DropKeeps(p.d2, x, b, e, t, a, b, c, p.out);
    DropKeeps(p.d3, x, c, e, t, a, b, c, p.out);
  }

  // The loop ends with an empty queue and what was taken off decided.
  lemma {:induction false} DrainedKeeps(p: Pending, a: seq<Message>, b: seq<Message>, c: seq<Message>)
    requires DrainingOf(p, a, b, c)
    ensures DrainingOf(Drained(p), a, b, c) && SomeEmpty(Drained(p))
    decreases Waiting(p)
  {
    if !SomeEmpty(p) {
      RoundShortens(p);
      DroppedKeeps(p, a, b, c);
      var q := Dropped(p);
      if Reported(q) != q { ReportAll(a, b, c, q.d1, q.d2, q.d3, q.out); }
      DrainedKeeps(Reported(q), a, b, c);
    }
  }

  // Takes ids below `largest` off the front, and all of them.
  method PopBelow(d: seq<Message>, largest: nat) returns (d': seq<Message>)
    ensures d' == DropFront(d, largest)
    ensures |d'| <= |d| && d' == d[|d| - |d'|..]
    ensures forall i :: 0 <= i < |d| - |d'| ==> d[i].seqId < largest
    ensures d' != [] ==> d'[0].seqId >= largest
  {
    d' := d;
    while d' != [] && d'[0].seqId < largest
      invariant |d'| <= |d| && d' == d[|d| - |d'|..]
      invariant forall i :: 0 <= i < |d| - |d'| ==> d[i].seqId < largest
      invariant DropFront(d', largest) == DropFront(d, largest)
    {
      d' := d'[1..];
    }
  }

  // Ends with an empty queue, and whatever streams the queues are left of, with
  // everything taken off reported or impossible.
  method Drain(p: Pending) returns (q: Pending)
    ensures q == Drained(p) && SomeEmpty(q)
    ensures forall a, b, c :: DrainingOf(p, a, b, c) ==> DrainingOf(q, a, b, c)
  {
    var d1, d2, d3, out := p.d1, p.d2, p.d3, p.out;
    while d1 != [] && d2 != [] && d3 != []
      invariant Drained(Pending(d1, d2, d3, out)) == Drained(p)
      decreases |d1| + |d2| + |d3|
    {
      RoundShortens(Pending(d1, d2, d3, out));
      var largest := Max(d1[0].seqId, Max(d2[0].seqId, d3[0].seqId));
      d1 := PopBelow(d1, largest);
      d2 := PopBelow(d2, largest);
      d3 := PopBelow(d3, largest);
      if d1 != [] && d2 != [] && d3 != [] {
        if d1[0].seqId == d2[0].seqId && d2[0].seqId == d3[0].seqId {
          out := out + [d3[0].seqId];
          d1, d2, d3 := d1[1..], d2[1..], d3[1..];
        }
      }
    }
    q := Pending(d1, d2, d3, out);
    forall a, b, c | DrainingOf(p, a, b, c) ensures DrainingOf(q, a, b, c) { DrainedKeeps(p, a, b, c); }
  }

  // The fields of AtomicSet2 as values.
  datatype Store2 = Store2(data1: Queues, data2: Queues, data3: Queues, out: map<nat, seq<nat>>)

  function PendingAt(st: Store2, cat: nat): Pending {
    Pending(At(st.data1, cat), At(st.data2, cat), At(st.data3, cat), OutAt(st.out, cat))
  }

  ghost predicate Store2OkFor(st: Store2, h: History, cat: nat) {
    DrainingOf(PendingAt(st, cat), At(h.calc1, cat), At(h.calc2, cat), At(h.ref, cat)) && SomeEmpty(PendingAt(st, cat))
  }

  ghost predicate Store2Ok(st: Store2, h: History) {
    Ordered(h) && forall cat :: Store2OkFor(st, h, cat)
  }

  ghost function Stored2(st: Store2, m: Message): Store2 {
    st.(data1 := PushTo(st.data1, Calc1, m), data2 := PushTo(st.data2, Calc2, m), data3 := PushTo(st.data3, Ref, m))
  }

  ghost function Sent2(st: Store2, cat: nat): Store2 {
    var p := Drained(PendingAt(st, cat));
    Store2(st.data1[cat := p.d1], st.data2[cat := p.d2], st.data3[cat := p.d3], st.out[cat := p.out])
  }

  lemma StoredDrains(st: Store2, h: History, m: Message)
    requires Store2Ok(st, h) && Ordered(Record(h, m))
    ensures var h' := Record(h, m);
      DrainingOf(PendingAt(Stored2(st, m), m.cat), At(h'.calc1, m.cat), At(h'.calc2, m.cat), At(h'.ref, m.cat))
  {
    var a, b, c := At(h.calc1, m.cat), At(h.calc2, m.cat), At(h.ref, m.cat);
    RecordInOrder(h, m);
    RecordAt(h, m, m.cat);
    PushToAt(st.data1, Calc1, m, m.cat);
    PushToAt(st.data2, Calc2, m, m.cat);
    PushToAt(st.data3, Ref, m, m.cat);
    assert Store2OkFor(st, h, m.cat);
    QueueGrows(At(st.data1, m.cat), a, Calc1, a, b, c, OutAt(st.out, m.cat), m);
    QueueGrows(At(st.data2, m.cat), b, Calc2, a, b, c, OutAt(st.out, m.cat), m);
    QueueGrows(At(st.data3, m.cat), c, Ref, a, b, c, OutAt(st.out, m.cat), m);
  }

  lemma DrainedElsewhere(st: Store2, h: History, m: Message, cat: nat)
    requires Store2OkFor(st, h, cat) && cat != m.cat
    ensures Store2OkFor(Sent2(Stored2(st, m), m.cat), Record(h, m), cat)
  {
    RecordAt(h, m, cat);
    PushToAt(st.data1, Calc1, m, cat);
    PushToAt(st.data2, Calc2, m, cat);
    PushToAt(st.data3, Ref, m, cat);
    assert PendingAt(Sent2(Stored2(st, m), m.cat), cat) == PendingAt(st, cat);
  }

  // One message: its queue grows and the queues of its category drain.
  lemma Store2OkGrows(st: Store2, h: History, m: Message)
    requires Store2Ok(st, h) && Ordered(Record(h, m))
    ensures Store2Ok(Sent2(Stored2(st, m), m.cat), Record(h, m))
  {
    var (st1, h') := (Stored2(st, m), Record(h, m));
    var st' := Sent2(st1, m.cat);
    StoredDrains(st, h, m);
    DrainedKeeps(PendingAt(st1, m.cat), At(h'.calc1, m.cat), At(h'.calc2, m.cat), At(h'.ref, m.cat));
    assert PendingAt(st', m.cat) == Drained(PendingAt(st1, m.cat));
    forall cat ensures Store2OkFor(st', h', cat) {
      if cat != m.cat { DrainedElsewhere(st, h, m, cat); }
    }
  }

  // ---------------------------------------------------------------------

  // The history of a log.
  ghost function HistoryOf(log: seq<Message>): History {
    if log == [] then History(map[], map[], map[])
    else Record(HistoryOf(log[..|log| - 1]), log[|log| - 1])
  }

  ghost function StreamOf(h: History, source: Source, cat: nat): seq<Message> {
    match source
    case Calc1 => At(h.calc1, cat)
    case Calc2 => At(h.calc2, cat)
    case Ref => At(h.ref, cat)
  }

  lemma {:induction false} HistoryMeaning(log: seq<Message>, source: Source, cat: nat)
    requires InOrder(log)
    ensures Increasing(StreamOf(HistoryOf(log), source, cat))
    ensures forall m :: m in StreamOf(HistoryOf(log), source, cat) <==> m in log && m.source == source && m.cat == cat
    decreases |log|
  {
    if log != [] {
      var n := |log| - 1;
      HistoryMeaning(log[..n], source, cat);
      assert log == log[..n] + [log[n]];
      var s := StreamOf(HistoryOf(log[..n]), source, cat);
      if log[n].source == source && log[n].cat == cat {
        forall i | 0 <= i < |s| ensures s[i].seqId < log[n].seqId {
          assert s[i] in log[..n];
        }
      }
    }
  }

  lemma HistoryOrdered(log: seq<Message>)
    requires InOrder(log)
    ensures Ordered(HistoryOf(log))
  {
    var h := HistoryOf(log);
    forall cat
      ensures Increasing(At(h.calc1, cat)) && Increasing(At(h.calc2, cat)) && Increasing(At(h.ref, cat))
    {
      HistoryMeaning(log, Calc1, cat);
      HistoryMeaning(log, Calc2, cat);
      HistoryMeaning(log, Ref, cat);
    }
  }

  lemma HasIffSeen(log: seq<Message>, source: Source, cat: nat, x: nat)
    requires InOrder(log)
    ensures Has(StreamOf(HistoryOf(log), source, cat), x) <==> SeenOn(log, source, cat, x)
  {
    HistoryMeaning(log, source, cat);
    var s := StreamOf(HistoryOf(log), source, cat);
    if Has(s, x) {
      var i :| 0 <= i < |s| && s[i].seqId == x;
      assert s[i] in s;
    }
    if SeenOn(log, source, cat, x) {
      var m :| m in log && m.source == source && m.cat == cat && m.seqId == x;
      assert m in s;
    }
  }

  lemma JoinOfLog(log: seq<Message>, cat: nat, out: seq<nat>)
    requires InOrder(log)
    requires var h := HistoryOf(log); IsJoin(out, At(h.calc1, cat), At(h.calc2, cat), At(h.ref, cat))
    ensures IsJoinOf(out, log, cat)
  {
    var h := HistoryOf(log);
    forall x: nat
      ensures x in out <==> SeenOn(log, Calc1, cat, x) && SeenOn(log, Calc2, cat, x) && SeenOn(log, Ref, cat, x)
    {
      assert x in out <==> OnAll(At(h.calc1, cat), At(h.calc2, cat), At(h.ref, cat), x);
      HasIffSeen(log, Calc1, cat, x);
      HasIffSeen(log, Calc2, cat, x);
      HasIffSeen(log, Ref, cat, x);
    }
  }

  lemma ReportIsJoin(log: seq<Message>, cat: nat, st: Store)
    requires InOrder(log) && StoreOk(st, HistoryOf(log))
    ensures IsJoinOf(OutAt(st.out, cat), log, cat)
  {
    assert StoreOkFor(st, HistoryOf(log), cat);
    JoinOfLog(log, cat, OutAt(st.out, cat));
  }

  lemma Report2IsJoin(log: seq<Message>, cat: nat, st: Store2)
    requires InOrder(log) && Store2Ok(st, HistoryOf(log))
    ensures IsJoinOf(OutAt(st.out, cat), log, cat)
  {
    var h := HistoryOf(log);
    assert Store2OkFor(st, h, cat);
    RestIsJoin(At(h.calc1, cat), At(h.calc2, cat), At(h.ref, cat),
               At(st.data1, cat), At(st.data2, cat), At(st.data3, cat), OutAt(st.out, cat));
    JoinOfLog(log, cat, OutAt(st.out, cat));
  }

  lemma Agree(log: seq<Message>, cat: nat, st: Store, st2: Store2)
    requires InOrder(log) && StoreOk(st, HistoryOf(log)) && Store2Ok(st2, HistoryOf(log))
    ensures IsJoinOf(OutAt(st.out, cat), log, cat)
    ensures OutAt(st.out, cat) == OutAt(st2.out, cat)
  {
    ReportIsJoin(log, cat, st);
    Report2IsJoin(log, cat, st2);
    JoinOfIsUnique(OutAt(st.out, cat), OutAt(st2.out, cat), log, cat);
  }

  lemma HistoryStep(log: seq<Message>, k: nat)
    requires InOrder(log) && k < |log|
    ensures HistoryOf(log[..k + 1]) == Record(HistoryOf(log[..k]), log[k])
    ensures Ordered(HistoryOf(log[..k + 1]))
  {
    assert log[..k + 1][..k] == log[..k];
    HistoryOrdered(log[..k + 1]);
  }

  // The lists reported after each of the first messages are the joins.
  ghost predicate TraceOk(trace: seq<seq<nat>>, log: seq<Message>, cat: nat) {
    |trace| <= |log| && forall k :: 0 <= k < |trace| ==> IsJoinOf(trace[k], log[..k + 1], cat)
  }

  lemma TraceMore(trace: seq<seq<nat>>, log: seq<Message>, cat: nat, out: seq<nat>)
    requires TraceOk(trace, log, cat) && |trace| < |log| && IsJoinOf(out, log[..|trace| + 1], cat)
    ensures TraceOk(trace + [out], log, cat)
  {
  }

  lemma TraceIsUnique(p: seq<seq<nat>>, q: seq<seq<nat>>, log: seq<Message>, cat: nat)
    requires TraceOk(p, log, cat) && TraceOk(q, log, cat) && |p| == |q|
    ensures p == q
  {
    forall k | 0 <= k < |p| ensures p[k] == q[k] {
      assert IsJoinOf(p[k], log[..k + 1], cat) && IsJoinOf(q[k], log[..k + 1], cat);
      JoinOfIsUnique(p[k], q[k], log[..k + 1], cat);
    }
  }

  lemma JoinOfIsUnique(p: seq<nat>, q: seq<nat>, log: seq<Message>, cat: nat)
    requires IsJoinOf(p, log, cat) && IsJoinOf(q, log, cat)
    ensures p == q
  {
    SameMembersSameList(p, q);
  }
}

module AtomicSets {
  import opened StreamJoins

  class AtomicSet {
    var data1: Queues
    var data2: Queues
    var data3: Queues
    var msgSeqCount: map<nat, map<nat, nat>>
    var atomicSet: map<nat, seq<nat>>
    ghost var history: History   // all messages so far

    ghost function Snapshot(): Store
      reads this
    {
      Store(data1, data2, data3, msgSeqCount, atomicSet)
    }

    ghost predicate Valid()
      reads this
    {
      StoreOk(Snapshot(), history)
    }

    constructor ()
      ensures Valid() && history == History(map[], map[], map[])
    {
      data1, data2, data3, msgSeqCount, atomicSet := map[], map[], map[], map[], map[];
      history := History(map[], map[], map[]);
    }

    method AddMessage(m: Message)
      requires Valid() && Ordered(Record(history, m))
      modifies this
      ensures Valid() && history == Record(old(history), m)
    {
      ghost var (st, h) := (Snapshot(), history);
      StoreOkGrows(st, h, m);
      match m.source {
        case Calc1 => data1 := data1[m.cat := At(data1, m.cat) + [m]];
        case Calc2 => data2 := data2[m.cat := At(data2, m.cat) + [m]];
        case Ref => data3 := data3[m.cat := At(data3, m.cat) + [m]];
      }
      assert Snapshot() == Stored(st, m);
      SendAtomic(m.cat, m.seqId);
      history := Record(history, m);
      assert Snapshot() == Sent(Stored(st, m), m.cat, m.seqId);
    }

    method SendAtomic(cat: nat, seqId: nat)
      modifies this`data1, this`data2, this`data3, this`msgSeqCount, this`atomicSet
      ensures Snapshot() == Sent(old(Snapshot()), cat, seqId)
    {
      var counts: map<nat, nat> := Increment(CountsAt(msgSeqCount, cat), seqId);
      msgSeqCount := msgSeqCount[cat := counts];
      if counts[seqId] < 3 {
        return;
      }
      UpdateTwice(old(msgSeqCount), cat, counts, counts - {seqId});
      msgSeqCount := msgSeqCount[cat := counts - {seqId}];
      var d1 := DropBelow(At(data1, cat), seqId);
      var d2 := DropBelow(At(data2, cat), seqId);
      var d3 := DropBelow(At(data3, cat), seqId);
      atomicSet := atomicSet[cat := OutAt(atomicSet, cat) + [seqId]];
      data1 := data1[cat := DropEqual(d1, seqId)];
      data2 := data2[cat := DropEqual(d2, seqId)];
      data3 := data3[cat := DropEqual(d3, seqId)];
    }
  }

  class AtomicSet2 {
    var data1: Queues
    var data2: Queues
    var data3: Queues
    var atomicSet: map<nat, seq<nat>>
    ghost var history: History   // all messages so far

    ghost function Snapshot(): Store2
      reads this
    {
      Store2(data1, data2, data3, atomicSet)
    }

    ghost predicate Valid()
      reads this
    {
      Store2Ok(Snapshot(), history)
    }

    constructor ()
      ensures Valid() && history == History(map[], map[], map[])
    {
      data1, data2, data3, atomicSet := map[], map[], map[], map[];
      history := History(map[], map[], map[]);
    }

    method AddMessage(m: Message)
      requires Valid() && Ordered(Record(history, m))
      modifies this
      ensures Valid() && history == Record(old(history), m)
    {
      ghost var (st, h) := (Snapshot(), history);
      Store2OkGrows(st, h, m);
      match m.source {
        case Calc1 => data1 := data1[m.cat := At(data1, m.cat) + [m]];
        case Calc2 => data2 := data2[m.cat := At(data2, m.cat) + [m]];
        case Ref => data3 := data3[m.cat := At(data3, m.cat) + [m]];
      }
      assert Snapshot() == Stored2(st, m);
      SendAtomic(m.cat);
      history := Record(history, m);
      assert Snapshot() == Sent2(Stored2(st, m), m.cat);
    }

    method SendAtomic(cat: nat)
      modifies this`data1, this`data2, this`data3, this`atomicSet
      ensures Snapshot() == Sent2(old(Snapshot()), cat)
    {
      var q := Drain(Pending(At(data1, cat), At(data2, cat), At(data3, cat), OutAt(atomicSet, cat)));
      data1, data2, data3 := data1[cat := q.d1], data2[cat := q.d2], data3[cat := q.d3];
      atomicSet := atomicSet[cat := q.out];
    }
  }

  // What each class has reported for a category after each message.
  method Feed(log: seq<Message>, cat: nat) returns (trace: seq<seq<nat>>)
    requires InOrder(log)
    ensures |trace| == |log| && TraceOk(trace, log, cat)
  {
    var s := new AtomicSet();
    trace := [];
    for k := 0 to |log|
      invariant fresh(s) && s.Valid() && s.history == HistoryOf(log[..k])
      invariant |trace| == k && TraceOk(trace, log, cat)
    {
      HistoryStep(log, k);
      s.AddMessage(log[k]);
      ReportIsJoin(log[..k + 1], cat, s.Snapshot());
      TraceMore(trace, log, cat, OutAt(s.atomicSet, cat));
      trace := trace + [OutAt(s.atomicSet, cat)];
    }
  }

  method Feed2(log: seq<Message>, cat: nat) returns (trace: seq<seq<nat>>)
    requires InOrder(log)
    ensures |trace| == |log| && TraceOk(trace, log, cat)
  {
    var s := new AtomicSet2();
    trace := [];
    for k := 0 to |log|
      invariant fresh(s) && s.Valid() && s.history == HistoryOf(log[..k])
      invariant |trace| == k && TraceOk(trace, log, cat)
    {
      HistoryStep(log, k);
      s.AddMessage(log[k]);
      Report2IsJoin(log[..k + 1], cat, s.Snapshot());
      TraceMore(trace, log, cat, OutAt(s.atomicSet, cat));
      trace := trace + [OutAt(s.atomicSet, cat)];
    }
  }

  // Main result: fed the same messages, both classes have reported the same
  // list for every category after every message, and it is the join.
  method FeedBoth(log: seq<Message>, cat: nat) returns (trace1: seq<seq<nat>>, trace2: seq<seq<nat>>)
    requires InOrder(log)
    ensures trace1 == trace2 && |trace1| == |log| && TraceOk(trace1, log, cat)
  {
    trace1 := Feed(log, cat);
    trace2 := Feed2(log, cat);
    TraceIsUnique(trace1, trace2, log, cat);
  }
}
