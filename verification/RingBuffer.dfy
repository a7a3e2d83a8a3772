// The single-reader, single-writer ring of library/RingBufferAtomic.h as a
// state machine.  Every load and store of an atomic index is one step, so is
// every access to a slot, and the two threads interleave freely.

module RingBuffer {

  // Where the pushing thread stands inside push or push_wait.
  datatype Pusher<T> =
    | PushIdle
    | PushLoaded(w: nat, v: T)    // `write` has been loaded
    | PushHasRoom(w: nat, v: T)   // the ring was seen not to be full
    | PushWritten(w: nat, v: T)   // the slot holds the value, `write` is not yet stored

  // Where the popping thread stands inside pop or pop_wait.
  datatype Popper =
    | PopIdle
    | PopLoaded(r: nat)      // `read` has been loaded
    | PopHasItem(r: nat)     // the ring was seen not to be empty
    | PopPublished(r: nat)   // `read` is already advanced, the slot is not yet moved out

  // `pushed` and `popped` record the values whose push was published and whose
  // pop has moved the value out, in order.
  datatype State<T> = State(
    slots: seq<T>, read: nat, write: nat,
    pusher: Pusher<T>, popper: Popper,
    pushed: seq<T>, popped: seq<T>)

  datatype Action<T> =
    | LoadWrite(v: T) | CheckFull(giveUp: bool) | WriteSlot | StoreWrite
    | LoadRead | CheckEmpty(giveUp: bool) | StoreRead | MoveOut(junk: T)

  function Next(i: nat, ringSize: nat): (j: nat)
    requires i < ringSize
    ensures j == if i + 1 == ringSize then 0 else i + 1
  {
    (i + 1) % ringSize
  }

  predicate Enabled<T>(s: State<T>, a: Action<T>) {
    match a
    case LoadWrite(_) => s.pusher.PushIdle?
    case CheckFull(_) => s.pusher.PushLoaded?
    case WriteSlot => s.pusher.PushHasRoom?
    case StoreWrite => s.pusher.PushWritten?
    case LoadRead => s.popper.PopIdle?
    case CheckEmpty(_) => s.popper.PopLoaded?
    case StoreRead => s.popper.PopHasItem?
    case MoveOut(_) => s.popper.PopPublished?
  }

  // One atomic step.  A full (empty) check that fails either ends the call, as
  // push and pop do, or leaves the thread where it is, as push_wait and
  // pop_wait do.  Moving out leaves an arbitrary value in the slot.
  function Apply<T>(s: State<T>, a: Action<T>): (s': State<T>)
    requires InBounds(s) && Enabled(s, a)
  {
    match a
    case LoadWrite(v) => s.(pusher := PushLoaded(s.write, v))
    case CheckFull(giveUp) =>
      if Next(s.pusher.w, |s.slots|) == s.read
      then (if giveUp then s.(pusher := PushIdle) else s)
      else s.(pusher := PushHasRoom(s.pusher.w, s.pusher.v))
    case WriteSlot =>
      s.(slots := s.slots[s.pusher.w := s.pusher.v], pusher := PushWritten(s.pusher.w, s.pusher.v))
    case StoreWrite =>
      s.(write := Next(s.pusher.w, |s.slots|), pushed := s.pushed + [s.pusher.v], pusher := PushIdle)
    case LoadRead => s.(popper := PopLoaded(s.read))
    case CheckEmpty(giveUp) =>
      if s.write == s.popper.r
      then (if giveUp then s.(popper := PopIdle) else s)
      else s.(popper := PopHasItem(s.popper.r))
    case StoreRead => s.(read := Next(s.popper.r, |s.slots|), popper := PopPublished(s.popper.r))
    case MoveOut(junk) =>
      s.(popped := s.popped + [s.slots[s.popper.r]],
         slots := s.slots[s.popper.r := junk],
         popper := PopIdle)
  }

  // Every index a step may use lies inside the ring.
  predicate InBounds<T>(s: State<T>) {
    && |s.slots| > 0
    && s.read < |s.slots| && s.write < |s.slots|
    && (!s.pusher.PushIdle? ==> s.pusher.w < |s.slots|)
    && (!s.popper.PopIdle? ==> s.popper.r < |s.slots|)
  }

  // A fresh ring of bufSize usable slots: one more slot than that, both
  // indices 0, nobody inside a call.
  predicate Init<T>(s: State<T>, bufSize: nat) {
    && |s.slots| == bufSize + 1
    && s.read == 0 && s.write == 0
    && s.pusher.PushIdle? && s.popper.PopIdle?
    && s.pushed == [] && s.popped == []
  }

  // How many values the reader has published as taken; one more than those
  // moved out while a pop is between its store and its move.
  function Taken<T>(s: State<T>): (n: nat)
  {
    |s.popped| + (if s.popper.PopPublished? then 1 else 0)
  }

  // The invariant: indices are the two counters modulo the ring size, at most
  // |slots| - 1 values are published and unread, and every published value not
  // yet moved out still sits in its slot.
  ghost predicate Inv<T>(s: State<T>) {
    && InBounds(s)
    && var n := |s.slots|;
    && s.read == Slot(Taken(s), n)
    && s.write == Slot(|s.pushed|, n)
    && Taken(s) <= |s.pushed| < Taken(s) + n
    && (forall i :: |s.popped| <= i < |s.pushed| ==> s.slots[Slot(i, n)] == s.pushed[i])
    && s.popped <= s.pushed
    && (!s.pusher.PushIdle? ==> s.pusher.w == s.write)
    && (s.pusher.PushHasRoom? || s.pusher.PushWritten? ==> |s.pushed| + 1 < Taken(s) + n)
    && (s.pusher.PushWritten? ==> s.slots[s.pusher.w] == s.pusher.v)
    && (s.popper.PopLoaded? || s.popper.PopHasItem? ==> s.popper.r == s.read)
    && (s.popper.PopHasItem? ==> Taken(s) < |s.pushed|)
    && (s.popper.PopPublished? ==> s.popper.r == Slot(|s.popped|, n))
  }

  // The slot of the i-th value: i modulo the ring size, by repeated subtraction.
  ghost function Slot(i: nat, n: nat): (j: nat)
    requires n > 0
    ensures j < n
    decreases i
  {
    if i < n then i else Slot(i - n, n)
  }

  lemma {:induction false} NextSlot(i: nat, n: nat)
    requires n > 0
    ensures Slot(i + 1, n) == Next(Slot(i, n), n)
    decreases i
  {
    if i >= n { NextSlot(i - n, n); }
  }

  lemma {:induction false} SlotRepeats(i: nat, n: nat)
    requires n > 0
    ensures Slot(i + n, n) == Slot(i, n)
  {
  }

  lemma {:induction false} DistinctSlots(i: nat, j: nat, n: nat)
    requires i < j < i + n
    ensures Slot(i, n) != Slot(j, n)
    decreases i
  {
    if i >= n { DistinctSlots(i - n, j - n, n); }
  }

  // The pusher never writes a slot whose value is still needed, in particular
  // not the one whose removal was published before it was moved out.
  lemma WriteHitsNoLiveSlot<T>(s: State<T>)
    requires Inv(s) && s.pusher.PushHasRoom?
    ensures forall i :: |s.popped| <= i < |s.pushed| ==> Slot(i, |s.slots|) != s.pusher.w
    ensures s.popper.PopPublished? ==> s.popper.r != s.pusher.w
  {
    forall i | |s.popped| <= i < |s.pushed| ensures Slot(i, |s.slots|) != s.pusher.w {
      DistinctSlots(i, |s.pushed|, |s.slots|);
    }
  }

  lemma InitInv<T>(s: State<T>, bufSize: nat)
    requires Init(s, bufSize)
    ensures Inv(s)
  {
  }

  // Once round the ring the slot after the last value is that of the first.
  lemma FullRing(first: nat, last: nat, n: nat)
    requires n > 0 && last + 1 == first + n
    ensures Next(Slot(last, n), n) == Slot(first, n)
  {
    NextSlot(last, n);
    SlotRepeats(first, n);
  }

  lemma CheckFullKeepsInv<T>(s: State<T>, giveUp: bool)
    requires Inv(s) && s.pusher.PushLoaded?
    ensures Inv(Apply(s, CheckFull(giveUp)))
  {
    if |s.pushed| + 1 == Taken(s) + |s.slots| { FullRing(Taken(s), |s.pushed|, |s.slots|); }
  }

  lemma CheckEmptyKeepsInv<T>(s: State<T>, giveUp: bool)
    requires Inv(s) && s.popper.PopLoaded?
    ensures Inv(Apply(s, CheckEmpty(giveUp)))
  {
  }

  lemma LoadsKeepInv<T>(s: State<T>, a: Action<T>)
    requires Inv(s) && (a.LoadWrite? || a.LoadRead?) && Enabled(s, a)
    ensures Inv(Apply(s, a))
  {
  }

  lemma SlotsKept<T>(s: State<T>, a: Action<T>)
    requires InBounds(s) && Enabled(s, a)
    ensures |Apply(s, a).slots| == |s.slots|
  {
  }

  lemma WriteSlotKeepsInv<T>(s: State<T>)
    requires Inv(s) && s.pusher.PushHasRoom?
    ensures Inv(Apply(s, WriteSlot))
  {
    WriteHitsNoLiveSlot(s);
  }

  lemma StoreWriteKeepsInv<T>(s: State<T>)
    requires Inv(s) && s.pusher.PushWritten?
    ensures Inv(Apply(s, StoreWrite))
  {
    NextSlot(|s.pushed|, |s.slots|);
  }

  lemma StoreReadKeepsInv<T>(s: State<T>)
    requires Inv(s) && s.popper.PopHasItem?
    ensures Inv(Apply(s, StoreRead))
  {
    NextSlot(|s.popped|, |s.slots|);
  }

  lemma MoveOutKeepsInv<T>(s: State<T>, junk: T)
    requires Inv(s) && s.popper.PopPublished?
    ensures Inv(Apply(s, MoveOut(junk)))
  {
    var n := |s.slots|;
    var s' := Apply(s, MoveOut(junk));
    forall i | |s'.popped| <= i < |s'.pushed| ensures s'.slots[Slot(i, n)] == s'.pushed[i] {
      DistinctSlots(|s.popped|, i, n);
    }
    if s.pusher.PushWritten? { DistinctSlots(|s.popped|, |s.pushed|, n); }
  }

  ghost predicate Step<T>(s: State<T>, a: Action<T>, s': State<T>) {
    InBounds(s) && Enabled(s, a) && s' == Apply(s, a)
  }

  lemma StepKeepsInv<T>(s: State<T>, a: Action<T>, s': State<T>)
    requires Inv(s) && Step(s, a, s')
    ensures Inv(s') && |s'.slots| == |s.slots|
  {
    SlotsKept(s, a);
    match a
    case LoadWrite(_) => LoadsKeepInv(s, a);
    case CheckFull(giveUp) => CheckFullKeepsInv(s, giveUp);
    case WriteSlot => WriteSlotKeepsInv(s);
    case StoreWrite => StoreWriteKeepsInv(s);
    case LoadRead => LoadsKeepInv(s, a);
    case CheckEmpty(giveUp) => CheckEmptyKeepsInv(s, giveUp);
    case StoreRead => StoreReadKeepsInv(s);
    case MoveOut(junk) => MoveOutKeepsInv(s, junk);
  }

  // A run: the states visited and the actions between them.
  ghost predicate Run<T>(states: seq<State<T>>, actions: seq<Action<T>>) {
    && |states| == |actions| + 1
    && forall i, j :: 0 <= i < |actions| && j == i + 1 ==> Step(states[i], actions[i], states[j])
  }

  lemma {:induction false} RunKeepsInv<T>(states: seq<State<T>>, actions: seq<Action<T>>, bufSize: nat, k: nat)
    requires Run(states, actions) && Init(states[0], bufSize) && k < |states|
    ensures Inv(states[k]) && |states[k].slots| == bufSize + 1
  {
    if k == 0 {
      InitInv(states[0], bufSize);
    } else {
      RunKeepsInv(states, actions, bufSize, k - 1);
      assert Step(states[k - 1], actions[k - 1], states[k]);
      StepKeepsInv(states[k - 1], actions[k - 1], states[k]);
    }
  }

  // ---- what the calls of a run mean, from its actions alone -----------------

  // The argument of the latest call of push, as a list: empty before any call.
  ghost function Argument<T>(actions: seq<Action<T>>): seq<T> {
    if actions == [] then []
    else
      var a := actions[|actions| - 1];
      if a.LoadWrite? then [a.v] else Argument(actions[..|actions| - 1])
  }

  // The arguments of the pushes that have stored the write index, in order.
  ghost function Arguments<T>(actions: seq<Action<T>>): seq<T> {
    if actions == [] then []
    else
      var front := actions[..|actions| - 1];
      Arguments(front) + if actions[|actions| - 1].StoreWrite? then Argument(front) else []
  }

  // How many pops have moved their value out.
  ghost function MovesOut<T>(actions: seq<Action<T>>): nat {
    if actions == [] then 0
    else MovesOut(actions[..|actions| - 1]) + if actions[|actions| - 1].MoveOut? then 1 else 0
  }

  lemma {:induction false} HistoriesAreOfTheCalls<T>(states: seq<State<T>>, actions: seq<Action<T>>, bufSize: nat,
                                                     k: nat)
    requires Run(states, actions) && Init(states[0], bufSize) && k < |states|
    ensures states[k].pushed == Arguments(actions[..k])
    ensures !states[k].pusher.PushIdle? ==> Argument(actions[..k]) == [states[k].pusher.v]
    ensures |states[k].popped| == MovesOut(actions[..k])
  {
    if k > 0 {
      HistoriesAreOfTheCalls(states, actions, bufSize, k - 1);
      assert Step(states[k - 1], actions[k - 1], states[k]);
      assert actions[..k][..k - 1] == actions[..k - 1];
    }
  }

  // Main result: at every point of every interleaving the values popped are a
  // prefix of the arguments pushed, at most bufSize of these are published and
  // unread, and a value whose removal is published but not yet moved out is
  // the next one in push order and still in its slot.
  lemma PoppedIsPrefixOfPushed<T>(states: seq<State<T>>, actions: seq<Action<T>>, bufSize: nat, k: nat)
    requires Run(states, actions) && Init(states[0], bufSize) && k < |states|
    ensures var (s, arguments) := (states[k], Arguments(actions[..k]));
      && s.popped <= arguments && |s.popped| == MovesOut(actions[..k])
      && Taken(s) <= |arguments| <= Taken(s) + bufSize
      && (s.popper.PopPublished? ==>
            && |s.popped| < |arguments| && s.popper.r < |s.slots|
            && s.slots[s.popper.r] == arguments[|s.popped|])
      && (s.popper.PopPublished? && s.pusher.PushHasRoom? ==> s.pusher.w != s.popper.r)
  {
    RunKeepsInv(states, actions, bufSize, k);
    HistoriesAreOfTheCalls(states, actions, bufSize, k);
    if states[k].pusher.PushHasRoom? { WriteHitsNoLiveSlot(states[k]); }
  }

  // The n-th pop hands out the n-th argument pushed.
  lemma PopReturnsArgument<T>(states: seq<State<T>>, actions: seq<Action<T>>, bufSize: nat, k: nat)
    requires Run(states, actions) && Init(states[0], bufSize) && k < |actions| && actions[k].MoveOut?
    ensures states[k].popper.PopPublished? && states[k].popper.r < |states[k].slots|
    ensures MovesOut(actions[..k]) < |Arguments(actions[..k])|
    ensures states[k].slots[states[k].popper.r] == Arguments(actions[..k])[MovesOut(actions[..k])]
  {
    PoppedIsPrefixOfPushed(states, actions, bufSize, k);
    var next := k + 1;
    assert Step(states[k], actions[k], states[next]);
  }

  // With room, a push that nobody interrupts publishes its argument ...
  lemma PushCompletes<T>(s: State<T>, v: T, giveUp: bool) returns (states: seq<State<T>>)
    requires Inv(s) && s.pusher.PushIdle? && |s.pushed| + 1 < Taken(s) + |s.slots|
    ensures Run(states, [LoadWrite(v), CheckFull(giveUp), WriteSlot, StoreWrite]) && states[0] == s
    ensures states[4] == s.(slots := states[4].slots, write := states[4].write, pushed := s.pushed + [v])
  {
    var s1 := Apply(s, LoadWrite(v));
    StepKeepsInv(s, LoadWrite(v), s1);
    FullExactly(s1, giveUp);
    var s2 := Apply(s1, CheckFull(giveUp));
    StepKeepsInv(s1, CheckFull(giveUp), s2);
    var s3 := Apply(s2, WriteSlot);
    StepKeepsInv(s2, WriteSlot, s3);
    states := [s, s1, s2, s3, Apply(s3, StoreWrite)];
  }

  // ... and a pop moves out the oldest value not yet taken.
  lemma PopCompletes<T>(s: State<T>, giveUp: bool, junk: T) returns (states: seq<State<T>>)
    requires Inv(s) && s.popper.PopIdle? && |s.popped| < |s.pushed|
    ensures Run(states, [LoadRead, CheckEmpty(giveUp), StoreRead, MoveOut(junk)]) && states[0] == s
    ensures states[4] == s.(slots := states[4].slots, read := states[4].read,
                            popped := s.popped + [s.pushed[|s.popped|]])
  {
    var s1 := Apply(s, LoadRead);
    StepKeepsInv(s, LoadRead, s1);
    EmptyExactly(s1, giveUp);
    var s2 := Apply(s1, CheckEmpty(giveUp));
    StepKeepsInv(s1, CheckEmpty(giveUp), s2);
    var s3 := Apply(s2, StoreRead);
    StepKeepsInv(s2, StoreRead, s3);
    states := [s, s1, s2, s3, Apply(s3, MoveOut(junk))];
  }

  lemma FullExactly<T>(s: State<T>, giveUp: bool)
    requires Inv(s) && s.pusher.PushLoaded?
    ensures Apply(s, CheckFull(giveUp)).pusher.PushHasRoom? <==> |s.pushed| + 1 < Taken(s) + |s.slots|
  {
    NextSlot(|s.pushed|, |s.slots|);
    if |s.pushed| + 1 < Taken(s) + |s.slots| {
      DistinctSlots(Taken(s), |s.pushed| + 1, |s.slots|);
    } else {
      FullRing(Taken(s), |s.pushed|, |s.slots|);
    }
  }

  lemma EmptyExactly<T>(s: State<T>, giveUp: bool)
    requires Inv(s) && s.popper.PopLoaded?
    ensures Apply(s, CheckEmpty(giveUp)).popper.PopHasItem? <==> Taken(s) < |s.pushed|
  {
    if Taken(s) < |s.pushed| { DistinctSlots(Taken(s), |s.pushed|, |s.slots|); }
  }

  // A push is refused exactly when bufSize values are published and unread,
  // a pop exactly when none is, at the instant of the decisive load; push and
  // pop then return, push_wait and pop_wait stay, and nothing else changes.
  lemma RefusalsAreExact<T>(states: seq<State<T>>, actions: seq<Action<T>>, bufSize: nat, k: nat, giveUp: bool)
    requires Run(states, actions) && Init(states[0], bufSize) && k < |states|
    ensures InBounds(states[k])
    ensures states[k].pusher.PushLoaded? ==>
              Apply(states[k], CheckFull(giveUp)) ==
                if |states[k].pushed| < Taken(states[k]) + bufSize
                then states[k].(pusher := PushHasRoom(states[k].pusher.w, states[k].pusher.v))
                else if giveUp then states[k].(pusher := PushIdle) else states[k]
    ensures states[k].popper.PopLoaded? ==>
              Apply(states[k], CheckEmpty(giveUp)) ==
                if Taken(states[k]) < |states[k].pushed|
                then states[k].(popper := PopHasItem(states[k].popper.r))
                else if giveUp then states[k].(popper := PopIdle) else states[k]
  {
    RunKeepsInv(states, actions, bufSize, k);
    if states[k].pusher.PushLoaded? { FullExactly(states[k], giveUp); }
    if states[k].popper.PopLoaded? { EmptyExactly(states[k], giveUp); }
  }

  // size(): the number computed from a loaded read index and a loaded write index.
  function SizeOf(r: nat, w: nat, ringSize: nat): (n: int)
  {
    if r <= w then w - r else w + ringSize - r
  }

  lemma {:induction false} SizeOfCounters(r: nat, w: nat, n: nat)
    requires r <= w < r + n
    ensures SizeOf(Slot(r, n), Slot(w, n), n) == w - r
    decreases r
  {
    if r >= n { SizeOfCounters(r - n, w - n, n); }
  }

  predicate PusherAction<T>(a: Action<T>) {
    a.LoadWrite? || a.CheckFull? || a.WriteSlot? || a.StoreWrite?
  }

  // A step of one end leaves what belongs to the other.
  lemma StepLeavesOther<T>(s: State<T>, a: Action<T>, s': State<T>)
    requires Step(s, a, s')
    ensures PusherAction(a) ==> s'.read == s.read && s'.popped == s.popped && s'.popper == s.popper
    ensures !PusherAction(a) ==> s'.write == s.write && s'.pushed == s.pushed
  {
  }

  lemma {:induction false} OnlyPusherSteps<T>(states: seq<State<T>>, actions: seq<Action<T>>, i: nat, j: nat)
    requires Run(states, actions) && i <= j < |states|
    requires forall k :: i <= k < j ==> PusherAction(actions[k])
    ensures states[j].read == states[i].read && Taken(states[j]) == Taken(states[i])
  {
    if i < j {
      OnlyPusherSteps(states, actions, i, j - 1);
      assert Step(states[j - 1], actions[j - 1], states[j]);
      StepLeavesOther(states[j - 1], actions[j - 1], states[j]);
    }
  }

  lemma {:induction false} OnlyPopperSteps<T>(states: seq<State<T>>, actions: seq<Action<T>>, i: nat, j: nat)
    requires Run(states, actions) && i <= j < |states|
    requires forall k :: i <= k < j ==> !PusherAction(actions[k])
    ensures states[j].write == states[i].write && states[j].pushed == states[i].pushed
  {
    if i < j {
      OnlyPopperSteps(states, actions, i, j - 1);
      assert Step(states[j - 1], actions[j - 1], states[j]);
      StepLeavesOther(states[j - 1], actions[j - 1], states[j]);
    }
  }

  // The size computed from the two indices of a state is exact.
  lemma SizeOfState<T>(s: State<T>, bufSize: nat)
    requires Inv(s) && |s.slots| == bufSize + 1
    ensures SizeOf(s.read, s.write, bufSize + 1) == |s.pushed| - Taken(s)
    ensures s.read <= bufSize && s.write <= bufSize
  {
    SizeOfCounters(Taken(s), |s.pushed|, bufSize + 1);
  }

  // size() loads `read` at step i and `write` at step j.  Called by the popping
  // thread, so that only the pusher moves in between, it returns the number of
  // values published and unread at step j; called by the pushing thread, that
  // number at step i.  For any other caller it is only known to be at most
  // bufSize.
  lemma SizeIsExactForBothEnds<T>(states: seq<State<T>>, actions: seq<Action<T>>, bufSize: nat, i: nat, j: nat)
    requires Run(states, actions) && Init(states[0], bufSize) && i <= j < |states|
    ensures 0 <= SizeOf(states[i].read, states[j].write, bufSize + 1) <= bufSize
    ensures (forall k :: i <= k < j ==> PusherAction(actions[k])) ==>
              SizeOf(states[i].read, states[j].write, bufSize + 1) == |states[j].pushed| - Taken(states[j])
    ensures (forall k :: i <= k < j ==> !PusherAction(actions[k])) ==>
              SizeOf(states[i].read, states[j].write, bufSize + 1) == |states[i].pushed| - Taken(states[i])
  {
    RunKeepsInv(states, actions, bufSize, i);
    RunKeepsInv(states, actions, bufSize, j);
    SizeOfState(states[i], bufSize);
    SizeOfState(states[j], bufSize);
    if forall k :: i <= k < j ==> PusherAction(actions[k]) { OnlyPusherSteps(states, actions, i, j); }
    if forall k :: i <= k < j ==> !PusherAction(actions[k]) { OnlyPopperSteps(states, actions, i, j); }
  }
}
