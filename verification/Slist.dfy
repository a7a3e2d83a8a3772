// The lock-free list slist_r of cpp11/slist.h with an atomic head.  Any number
// of threads push with a compare-and-swap loop and take the whole list with
// another; every access to `head` is one step and steps interleave freely.

module LockFreeList {
  import opened Options
  import opened Sequences

  type Addr = nat
  type Thread = nat

  datatype Node<T> = Node(data: T, next: Option<Addr>)

  // A thread inside a call; threads outside any call are not listed.
  datatype Call =
    | Filling(n: Addr)              // push_front: the node is made, `head` not yet loaded
    | Linked(n: Addr)               // push_front: before a compare-and-swap, n's next is the expected head
    | Taking(seen: Option<Addr>)    // pop_all: before a compare-and-swap, `seen` is the expected head

  // `taken` holds the nodes of batches already handed to a caller and not yet
  // deleted.  `pushed` and `batches` record the successful pushes and the lists
  // handed out, in the order of their compare-and-swaps.
  datatype State<T> = State(
    heap: map<Addr, Node<T>>, head: Option<Addr>, calls: map<Thread, Call>,
    taken: set<Addr>, pushed: seq<T>, batches: seq<seq<T>>)

  // A weak compare-and-swap may fail although the head is the expected one.
  datatype Action<T> =
    | NewNode(t: Thread, v: T, n: Addr)
    | LoadForPush(t: Thread)
    | SwapForPush(t: Thread, spurious: bool)
    | LoadForTake(t: Thread)
    | SwapForTake(t: Thread, spurious: bool)
    | OwnerWrites(n: Addr, node: Node<T>)
    | OwnerDeletes(n: Addr)

  // A new node may get any address not in use, also one that was deleted and
  // is still some thread's expected head.
  predicate Enabled<T>(s: State<T>, a: Action<T>) {
    match a
    case NewNode(t, _, n) => t !in s.calls && n !in s.heap
    case LoadForPush(t) => t in s.calls && s.calls[t].Filling?
    case SwapForPush(t, _) => t in s.calls && s.calls[t].Linked?
    case LoadForTake(t) => t !in s.calls
    case SwapForTake(t, _) => t in s.calls && s.calls[t].Taking?
    case OwnerWrites(n, _) => n in s.taken
    case OwnerDeletes(n) => n in s.taken
  }

  // The node a pushing thread has not published yet.
  function Own(c: Call): Option<Addr> {
    if c.Taking? then None else Some(c.n)
  }

  // Every node a step looks at is allocated.
  predicate Safe<T>(s: State<T>) {
    forall t :: t in s.calls && Own(s.calls[t]).Some? ==> Own(s.calls[t]).value in s.heap
  }

  // The values met by following `next` from p for at most n nodes.
  function Walk<T>(heap: map<Addr, Node<T>>, p: Option<Addr>, n: nat): seq<T>
    decreases n
  {
    if n == 0 || p.None? || p.value !in heap then []
    else [heap[p.value].data] + Walk(heap, heap[p.value].next, n - 1)
  }

  // What a caller who gets p reads: no list is longer than the heap.
  function List<T>(heap: map<Addr, Node<T>>, p: Option<Addr>): seq<T> {
    Walk(heap, p, |heap.Keys|)
  }

  // The nodes reached by following `next` from p for at most n nodes.
  function Reached<T>(heap: map<Addr, Node<T>>, p: Option<Addr>, n: nat): set<Addr>
    decreases n
  {
    if n == 0 || p.None? || p.value !in heap then {}
    else {p.value} + Reached(heap, heap[p.value].next, n - 1)
  }

  function Apply<T>(s: State<T>, a: Action<T>): (s': State<T>)
    requires Safe(s) && Enabled(s, a)
  {
    match a
    case NewNode(t, v, n) =>
      s.(heap := s.heap[n := Node(v, None)], calls := s.calls[t := Filling(n)])
    case LoadForPush(t) =>
      var n := s.calls[t].n;
      assert Own(s.calls[t]) == Some(n);
      s.(heap := s.heap[n := Node(s.heap[n].data, s.head)], calls := s.calls[t := Linked(n)])
    case SwapForPush(t, spurious) =>
      var n := s.calls[t].n;
      assert Own(s.calls[t]) == Some(n);
      if s.head == s.heap[n].next && !spurious
      then s.(head := Some(n), calls := s.calls - {t}, pushed := s.pushed + [s.heap[n].data])
      else s.(heap := s.heap[n := Node(s.heap[n].data, s.head)])
    case LoadForTake(t) =>
      if s.head.None?
      then s.(batches := s.batches + [[]])
      else s.(calls := s.calls[t := Taking(s.head)])
    case SwapForTake(t, spurious) =>
      if s.head == s.calls[t].seen && !spurious
      then s.(head := None, calls := s.calls - {t},
              taken := s.taken + Reached(s.heap, s.head, |s.heap.Keys|),
              batches := s.batches + [List(s.heap, s.head)])
      else s.(calls := s.calls[t := Taking(s.head)])
    case OwnerWrites(n, node) => s.(heap := s.heap[n := node])
    case OwnerDeletes(n) => s.(heap := s.heap - {n}, taken := s.taken - {n})
  }

  predicate Init<T>(s: State<T>) {
    s.head == None && s.calls == map[] && s.taken == {} && s.pushed == [] && s.batches == []
  }

  // Following `next` from p meets exactly these nodes, then null.
  ghost predicate IsList<T>(heap: map<Addr, Node<T>>, p: Option<Addr>, nodes: seq<Addr>)
    decreases |nodes|
  {
    if nodes == [] then p == None
    else p == Some(nodes[0]) && nodes[0] in heap && IsList(heap, heap[nodes[0]].next, nodes[1..])
  }

  ghost function Values<T>(heap: map<Addr, Node<T>>, nodes: seq<Addr>): seq<T>
    requires Members(nodes) <= heap.Keys
    decreases |nodes|
  {
    if nodes == [] then []
    else
      assert nodes[0] in Members(nodes) && Members(nodes[1..]) <= Members(nodes);
      [heap[nodes[0]].data] + Values(heap, nodes[1..])
  }

  // The list holds these nodes, all different; it, the nodes being pushed and
  // the nodes handed out are apart.
  ghost predicate Apart<T>(s: State<T>, nodes: seq<Addr>) {
    && Members(nodes) <= s.heap.Keys && s.taken <= s.heap.Keys
    && NoDuplicates(nodes)
    && s.taken !! Members(nodes)
    && (forall t :: t in s.calls && Own(s.calls[t]).Some? ==> OwnApart(s, nodes, Own(s.calls[t]).value))
    && (forall t, u :: t in s.calls && u in s.calls && t != u && Own(s.calls[t]).Some? ==>
          Own(s.calls[t]) != Own(s.calls[u]))
  }

  ghost predicate OwnApart<T>(s: State<T>, nodes: seq<Addr>, n: Addr) {
    n in s.heap && n !in s.taken && n !in Members(nodes)
  }

  // Each batch back in push order, one after the other.
  function Undone<T>(batches: seq<seq<T>>): seq<T>
    decreases |batches|
  {
    if batches == [] then []
    else Undone(batches[..|batches| - 1]) + Reversed(batches[|batches| - 1])
  }

  ghost predicate InvFor<T>(s: State<T>, nodes: seq<Addr>) {
    && Apart(s, nodes)
    && IsList(s.heap, s.head, nodes)
    && Undone(s.batches) + Reversed(Values(s.heap, nodes)) == s.pushed
  }

  // ----- lists in a heap that changes elsewhere

  lemma {:induction false} ListKept<T>(heap: map<Addr, Node<T>>, heap': map<Addr, Node<T>>, p: Option<Addr>,
                                       nodes: seq<Addr>)
    requires Members(nodes) <= heap.Keys && IsList(heap, p, nodes)
    requires forall n :: n in nodes ==> n in heap' && heap'[n] == heap[n]
    ensures Members(nodes) <= heap'.Keys
    ensures IsList(heap', p, nodes) && Values(heap', nodes) == Values(heap, nodes)
    decreases |nodes|
  {
    if nodes != [] {
      assert nodes[0] in Members(nodes) && Members(nodes[1..]) <= Members(nodes);
      ListKept(heap, heap', heap[nodes[0]].next, nodes[1..]);
    }
  }

  // A walk long enough reads the whole list.
  lemma {:induction false} WalkReads<T>(heap: map<Addr, Node<T>>, p: Option<Addr>, nodes: seq<Addr>, n: nat)
    requires Members(nodes) <= heap.Keys && IsList(heap, p, nodes) && |nodes| <= n
    ensures Walk(heap, p, n) == Values(heap, nodes)
    ensures Reached(heap, p, n) == Members(nodes)
    decreases |nodes|
  {
    if nodes != [] {
      assert nodes[0] in Members(nodes) && Members(nodes[1..]) <= Members(nodes);
      WalkReads(heap, heap[nodes[0]].next, nodes[1..], n - 1);
      assert Members(nodes) == {nodes[0]} + Members(nodes[1..]);
    }
  }

  lemma ListIsLongEnough<T>(heap: map<Addr, Node<T>>, p: Option<Addr>, nodes: seq<Addr>)
    requires Members(nodes) <= heap.Keys && NoDuplicates(nodes) && IsList(heap, p, nodes)
    ensures List(heap, p) == Values(heap, nodes)
    ensures Reached(heap, p, |heap.Keys|) == Members(nodes)
  {
    DistinctSize(nodes);
    SubsetSize(Members(nodes), heap.Keys);
    WalkReads(heap, p, nodes, |heap.Keys|);
  }

  lemma ListReads<T>(s: State<T>, nodes: seq<Addr>)
    requires Apart(s, nodes) && IsList(s.heap, s.head, nodes)
    ensures List(s.heap, s.head) == Values(s.heap, nodes)
    ensures Reached(s.heap, s.head, |s.heap.Keys|) == Members(nodes)
  {
    ListIsLongEnough(s.heap, s.head, nodes);
  }

  // ----- each step

  // A step that only changes nodes outside the list and records nothing.
  lemma QuietStep<T>(s: State<T>, s': State<T>, nodes: seq<Addr>)
    requires InvFor(s, nodes) && Apart(s', nodes)
    requires s'.head == s.head && s'.pushed == s.pushed && s'.batches == s.batches
    requires forall n :: n in nodes ==> n in s'.heap && s'.heap[n] == s.heap[n]
    ensures InvFor(s', nodes)
  {
    ListKept(s.heap, s'.heap, s.head, nodes);
  }

  lemma PushSucceeds<T>(s: State<T>, s': State<T>, nodes: seq<Addr>, t: Thread)
    requires Safe(s) && Enabled(s, SwapForPush(t, false)) && s' == Apply(s, SwapForPush(t, false))
    requires InvFor(s, nodes) && s.calls[t].n in s.heap && s.head == s.heap[s.calls[t].n].next
    ensures InvFor(s', [s.calls[t].n] + nodes)
  {
    var n := s.calls[t].n;
    assert Own(s.calls[t]) == Some(n);
    assert OwnApart(s, nodes, n);
    var nodes' := [n] + nodes;
    assert Members(nodes') == {n} + Members(nodes);
    assert nodes'[1..] == nodes;
    assert forall m :: m in nodes <==> m in Members(nodes);
    assert Apart(s', nodes');
    var v := s.heap[n].data;
    assert Values(s'.heap, nodes') == [v] + Values(s.heap, nodes);
    assert ([v] + Values(s.heap, nodes))[1..] == Values(s.heap, nodes);
    assert Reversed(Values(s'.heap, nodes')) == Reversed(Values(s.heap, nodes)) + [v];
  }

  lemma TakeSucceeds<T>(s: State<T>, s': State<T>, nodes: seq<Addr>, t: Thread)
    requires InvFor(s, nodes) && t in s.calls
    requires s' == s.(head := None, calls := s.calls - {t}, taken := s.taken + Members(nodes),
                      batches := s.batches + [Values(s.heap, nodes)])
    ensures InvFor(s', [])
  {
    forall u | u in s'.calls && Own(s'.calls[u]).Some? ensures OwnApart(s', [], Own(s'.calls[u]).value) {
      assert OwnApart(s, nodes, Own(s.calls[u]).value);
    }
    UndoneMore(s.batches, Values(s.heap, nodes));
  }

  lemma UndoneMore<T>(batches: seq<seq<T>>, batch: seq<T>)
    ensures Undone(batches + [batch]) == Undone(batches) + Reversed(batch)
  {
    assert (batches + [batch])[..|batches|] == batches;
  }

  lemma OwnNode<T>(s: State<T>, nodes: seq<Addr>, t: Thread)
    requires Apart(s, nodes) && t in s.calls && !s.calls[t].Taking?
    ensures OwnApart(s, nodes, s.calls[t].n)
    ensures forall u :: u in s.calls && u != t ==> Own(s.calls[u]) != Some(s.calls[t].n)
  {
    assert Own(s.calls[t]) == Some(s.calls[t].n);
  }

  lemma SafeFor<T>(s: State<T>, nodes: seq<Addr>)
    requires Apart(s, nodes)
    ensures Safe(s)
  {
    forall t | t in s.calls && Own(s.calls[t]).Some? ensures Own(s.calls[t]).value in s.heap {
      assert OwnApart(s, nodes, Own(s.calls[t]).value);
    }
  }

  lemma EmptyTake<T>(s: State<T>, s': State<T>, nodes: seq<Addr>)
    requires InvFor(s, nodes) && s' == s.(batches := s.batches + [[]])
    ensures InvFor(s', nodes)
  {
    UndoneMore(s.batches, []);
    assert Reversed<T>([]) == [];
    forall u | u in s'.calls && Own(s'.calls[u]).Some? ensures OwnApart(s', nodes, Own(s'.calls[u]).value) {
      assert OwnApart(s, nodes, Own(s.calls[u]).value);
    }
  }

  ghost predicate Inv<T>(s: State<T>) {
    exists nodes :: InvFor(s, nodes)
  }

  lemma NewNodeKeeps<T>(s: State<T>, a: Action<T>, nodes: seq<Addr>)
    requires a.NewNode? && Safe(s) && Enabled(s, a) && InvFor(s, nodes)
    ensures InvFor(Apply(s, a), nodes)
  {
    var s' := Apply(s, a);
    SafeFor(s, nodes);
    assert forall m :: m in nodes <==> m in Members(nodes);
    forall u | u in s'.calls && Own(s'.calls[u]).Some? ensures OwnApart(s', nodes, Own(s'.calls[u]).value) {
      if u != a.t { assert OwnApart(s, nodes, Own(s.calls[u]).value); }
    }
    QuietStep(s, s', nodes);
  }

  // Loading the head into the own node, as a first load or a failed swap does.
  lemma RelinkKeeps<T>(s: State<T>, s': State<T>, nodes: seq<Addr>, t: Thread)
    requires InvFor(s, nodes) && t in s.calls && !s.calls[t].Taking? && s.calls[t].n in s.heap
    requires s' == s.(heap := s.heap[s.calls[t].n := Node(s.heap[s.calls[t].n].data, s.head)],
                      calls := s.calls[t := Linked(s.calls[t].n)])
    ensures InvFor(s', nodes)
  {
    OwnNode(s, nodes, t);
    assert forall m :: m in nodes <==> m in Members(nodes);
    forall u | u in s'.calls && Own(s'.calls[u]).Some? ensures OwnApart(s', nodes, Own(s'.calls[u]).value) {
      assert Own(s.calls[u]) == Own(s'.calls[u]);
      assert OwnApart(s, nodes, Own(s.calls[u]).value);
    }
    QuietStep(s, s', nodes);
  }

  // A thread inside pop_all notes the head it expects.
  lemma ExpectKeeps<T>(s: State<T>, s': State<T>, nodes: seq<Addr>, t: Thread)
    requires InvFor(s, nodes) && (t in s.calls ==> s.calls[t].Taking?)
    requires s' == s.(calls := s.calls[t := Taking(s.head)])
    ensures InvFor(s', nodes)
  {
    forall u | u in s'.calls && Own(s'.calls[u]).Some? ensures OwnApart(s', nodes, Own(s'.calls[u]).value) {
      assert OwnApart(s, nodes, Own(s.calls[u]).value);
    }
    QuietStep(s, s', nodes);
  }

  lemma OwnerKeeps<T>(s: State<T>, a: Action<T>, nodes: seq<Addr>)
    requires (a.OwnerWrites? || a.OwnerDeletes?) && Safe(s) && Enabled(s, a) && InvFor(s, nodes)
    ensures InvFor(Apply(s, a), nodes)
  {
    var s' := Apply(s, a);
    assert forall m :: m in nodes <==> m in Members(nodes);
    forall u | u in s'.calls && Own(s'.calls[u]).Some? ensures OwnApart(s', nodes, Own(s'.calls[u]).value) {
      assert OwnApart(s, nodes, Own(s.calls[u]).value);
    }
    QuietStep(s, s', nodes);
  }

  lemma StepKeepsInv<T>(s: State<T>, a: Action<T>)
    requires Inv(s) && Safe(s) && Enabled(s, a)
    ensures Inv(Apply(s, a)) && Safe(Apply(s, a))
  {
    var nodes :| InvFor(s, nodes);
    var nodes' := nodes;
    match a {
      case NewNode(_, _, _) => NewNodeKeeps(s, a, nodes);
      case LoadForPush(t) =>
        OwnNode(s, nodes, t);
        RelinkKeeps(s, Apply(s, a), nodes, t);
      case SwapForPush(t, spurious) =>
        OwnNode(s, nodes, t);
        if s.head == s.heap[s.calls[t].n].next && !spurious {
          PushSucceeds(s, Apply(s, a), nodes, t);
          nodes' := [s.calls[t].n] + nodes;
        } else {
          assert s.calls[t := Linked(s.calls[t].n)] == s.calls;
          RelinkKeeps(s, Apply(s, a), nodes, t);
        }
      case LoadForTake(t) =>
        if s.head.None? { EmptyTake(s, Apply(s, a), nodes); } else { ExpectKeeps(s, Apply(s, a), nodes, t); }
      case SwapForTake(t, spurious) =>
        if s.head == s.calls[t].seen && !spurious {
          ListReads(s, nodes);
          TakeSucceeds(s, Apply(s, a), nodes, t);
          nodes' := [];
        } else {
          ExpectKeeps(s, Apply(s, a), nodes, t);
        }
      case OwnerWrites(_, _) => OwnerKeeps(s, a, nodes);
      case OwnerDeletes(_) => OwnerKeeps(s, a, nodes);
    }
    assert InvFor(Apply(s, a), nodes');
    SafeFor(Apply(s, a), nodes');
  }

  // ----- whole runs

  ghost predicate Step<T>(s: State<T>, a: Action<T>, s': State<T>) {
    Safe(s) && Enabled(s, a) && s' == Apply(s, a)
  }

  ghost predicate Run<T>(states: seq<State<T>>, actions: seq<Action<T>>) {
    && |states| == |actions| + 1 && Init(states[0])
    && forall i, j :: 0 <= i < |actions| && j == i + 1 ==> Step(states[i], actions[i], states[j])
  }

  // No step ever touches a node that is not allocated.
  lemma {:induction false} RunKeepsInv<T>(states: seq<State<T>>, actions: seq<Action<T>>, k: nat)
    requires Run(states, actions) && k < |states|
    ensures Inv(states[k]) && Safe(states[k])
  {
    if k == 0 {
      assert InvFor(states[0], []);
    } else {
      RunKeepsInv(states, actions, k - 1);
      assert Step(states[k - 1], actions[k - 1], states[k]);
      StepKeepsInv(states[k - 1], actions[k - 1]);
    }
  }

  // ----- what the calls of a run mean, from its actions and returns

  // The argument of t's latest push_front, as a list: empty before any call.
  ghost function Argument<T>(actions: seq<Action<T>>, t: Thread): seq<T> {
    if actions == [] then []
    else
      var a := actions[|actions| - 1];
      if a.NewNode? && a.t == t then [a.v] else Argument(actions[..|actions| - 1], t)
  }

  // The call ends with this action: its thread is in no call afterwards.
  ghost predicate Returns<T>(a: Action<T>, after: State<T>) {
    (a.SwapForPush? || a.LoadForTake? || a.SwapForTake?) && a.t !in after.calls
  }

  // The arguments of the calls of push_front that have returned, in the order of
  // their last swaps.
  ghost function Arguments<T>(states: seq<State<T>>, actions: seq<Action<T>>, k: nat): seq<T>
    requires k < |states| == |actions| + 1
  {
    if k == 0 then []
    else
      var a := actions[k - 1];
      Arguments(states, actions, k - 1)
      + if a.SwapForPush? && Returns(a, states[k]) then Argument(actions[..k - 1], a.t) else []
  }

  // How many calls of pop_all have returned.
  ghost function Takings<T>(states: seq<State<T>>, actions: seq<Action<T>>, k: nat): nat
    requires k < |states| == |actions| + 1
  {
    if k == 0 then 0
    else
      var a := actions[k - 1];
      Takings(states, actions, k - 1) + if !a.SwapForPush? && Returns(a, states[k]) then 1 else 0
  }

  // The node of a call holds the argument.
  ghost predicate HoldsArgument<T>(s: State<T>, done: seq<Action<T>>, t: Thread) {
    t in s.calls && Own(s.calls[t]).Some? ==>
      s.calls[t].n in s.heap && Argument(done, t) == [s.heap[s.calls[t].n].data]
  }

  // No step but those of t itself touches t's call and the node it pushes.
  lemma CallKept<T>(s: State<T>, a: Action<T>, t: Thread)
    requires Inv(s) && Safe(s) && Enabled(s, a) && t in s.calls && !Acts(a, t)
    ensures t in Apply(s, a).calls && Apply(s, a).calls[t] == s.calls[t]
    ensures Own(s.calls[t]).Some? ==>
              var n := s.calls[t].n; n in s.heap && n in Apply(s, a).heap && Apply(s, a).heap[n] == s.heap[n]
  {
    var nodes :| InvFor(s, nodes);
    if Own(s.calls[t]).Some? { OwnNode(s, nodes, t); }
    if a.LoadForPush? || a.SwapForPush? { OwnNode(s, nodes, a.t); }
  }

  // A step of the thread itself.
  predicate Acts<T>(a: Action<T>, t: Thread) {
    !a.OwnerWrites? && !a.OwnerDeletes? && a.t == t
  }

  lemma ArgumentHeld<T>(s: State<T>, done: seq<Action<T>>, a: Action<T>, t: Thread)
    requires Inv(s) && Safe(s) && Enabled(s, a) && HoldsArgument(s, done, t)
    ensures HoldsArgument(Apply(s, a), done + [a], t)
  {
    var nodes :| InvFor(s, nodes);
    assert (done + [a])[..|done|] == done;
    if t in s.calls {
      if !Acts(a, t) { CallKept(s, a, t); } else if Own(s.calls[t]).Some? { OwnNode(s, nodes, t); }
    }
  }

  lemma HistoryStep<T>(s: State<T>, done: seq<Action<T>>, a: Action<T>)
    requires Safe(s) && Enabled(s, a)
    requires a.SwapForPush? ==> HoldsArgument(s, done, a.t)
    ensures var s' := Apply(s, a);
      && s'.pushed == s.pushed + (if a.SwapForPush? && Returns(a, s') then Argument(done, a.t) else [])
      && |s'.batches| == |s.batches| + if !a.SwapForPush? && Returns(a, s') then 1 else 0
  {
  }

  lemma {:induction false} HistoriesAreOfTheCalls<T>(states: seq<State<T>>, actions: seq<Action<T>>, k: nat)
    requires Run(states, actions) && k < |states|
    ensures states[k].pushed == Arguments(states, actions, k)
    ensures |states[k].batches| == Takings(states, actions, k)
    ensures forall t :: HoldsArgument(states[k], actions[..k], t)
  {
    if k > 0 {
      var i := k - 1;
      var s, a, done := states[i], actions[i], actions[..i];
      HistoriesAreOfTheCalls(states, actions, i);
      RunKeepsInv(states, actions, i);
      assert Step(s, a, states[k]);
      assert actions[..k] == done + [a];
      forall t ensures HoldsArgument(states[k], actions[..k], t) { ArgumentHeld(s, done, a, t); }
      HistoryStep(s, done, a);
    }
  }

  // Main result: at every point of every interleaving, the batches in the order
  // they were taken, each reversed, followed by the reversed list now shared,
  // are the arguments of the calls of push_front that have returned, in the
  // order of their swaps.
  lemma PushOrderKept<T>(states: seq<State<T>>, actions: seq<Action<T>>, k: nat)
    requires Run(states, actions) && k < |states|
    ensures Undone(states[k].batches) + Reversed(List(states[k].heap, states[k].head))
            == Arguments(states, actions, k)
    ensures |states[k].batches| == Takings(states, actions, k)
  {
    RunKeepsInv(states, actions, k);
    HistoriesAreOfTheCalls(states, actions, k);
    var nodes :| InvFor(states[k], nodes);
    ListReads(states[k], nodes);
  }

  // ----- progress

  // What the thread's next swap expects the head to be.
  ghost function Expected<T>(s: State<T>, t: Thread): Option<Addr>
    requires t in s.calls && Own(s.calls[t]).Some? ==> s.calls[t].n in s.heap
  {
    if t in s.calls then
      match s.calls[t]
      case Filling(_) => None
      case Linked(n) => s.heap[n].next
      case Taking(seen) => seen
    else None
  }

  ghost predicate ExpectsHead<T>(s: State<T>, t: Thread) {
    && t in s.calls && !s.calls[t].Filling? && (s.calls[t].Linked? ==> s.calls[t].n in s.heap)
    && Expected(s, t) == s.head
  }

  // The m-th action is a swap that succeeds: its call returns.
  ghost predicate IsWon<T>(states: seq<State<T>>, actions: seq<Action<T>>, m: nat)
    requires m < |actions| && |states| == |actions| + 1
  {
    (actions[m].SwapForPush? || actions[m].SwapForTake?) && Returns(actions[m], states[m + 1])
  }

  // A step of another thread that is no successful swap.
  ghost predicate IsQuiet<T>(states: seq<State<T>>, actions: seq<Action<T>>, t: Thread, m: nat)
    requires m < |actions| && |states| == |actions| + 1
  {
    !Acts(actions[m], t) && !IsWon(states, actions, m)
  }

  lemma {:induction false} HeadStays<T>(states: seq<State<T>>, actions: seq<Action<T>>, t: Thread, i: nat, j: nat)
    requires Run(states, actions) && i <= j < |states| && ExpectsHead(states[i], t)
    requires forall m :: i <= m < j ==> IsQuiet(states, actions, t, m)
    ensures ExpectsHead(states[j], t)
    decreases j
  {
    if i < j {
      var m := j - 1;
      HeadStays(states, actions, t, i, m);
      RunKeepsInv(states, actions, m);
      assert Step(states[m], actions[m], states[j]);
      assert IsQuiet(states, actions, t, m);
      CallKept(states[m], actions[m], t);
    }
  }

  // The list is lock-free: a swap that fails, and not spuriously, does so because
  // a swap of another thread has succeeded since this one last looked at the
  // head.
  lemma FailureMeansProgress<T>(states: seq<State<T>>, actions: seq<Action<T>>, t: Thread, i: nat, k: nat)
    requires Run(states, actions) && i < k < |actions|
    requires Acts(actions[i], t) && !actions[i].NewNode? && t in states[i + 1].calls
    requires forall m :: i < m < k ==> !Acts(actions[m], t)
    requires actions[k] in {SwapForPush(t, false), SwapForTake(t, false)} && t in states[k + 1].calls
    ensures exists m :: i < m < k && IsWon(states, actions, m)
  {
    var first, last := i + 1, k + 1;
    RunKeepsInv(states, actions, i);
    assert Step(states[i], actions[i], states[first]);
    assert Step(states[k], actions[k], states[last]);
    assert ExpectsHead(states[first], t);
    if forall m :: i < m < k ==> !IsWon(states, actions, m) {
      assert forall m :: i < m < k ==> IsQuiet(states, actions, t, m);
      HeadStays(states, actions, t, first, k);
    }
  }

  // Left alone, a call of push_front puts its argument in front of the list ...
  lemma PushCompletes<T>(s: State<T>, t: Thread, v: T, n: Addr) returns (s1: State<T>, s2: State<T>, s3: State<T>)
    requires Inv(s) && Safe(s) && t !in s.calls && n !in s.heap
    ensures Step(s, NewNode(t, v, n), s1) && Step(s1, LoadForPush(t), s2) && Step(s2, SwapForPush(t, false), s3)
    ensures s3.calls == s.calls && List(s3.heap, s3.head) == [v] + List(s.heap, s.head)
  {
    s1 := s.(heap := s.heap[n := Node(v, None)], calls := s.calls[t := Filling(n)]);
    StepKeepsInv(s, NewNode(t, v, n));
    s2 := s.(heap := s.heap[n := Node(v, s.head)], calls := s.calls[t := Linked(n)]);
    LoadStep(s1, t, n, s2);
    s3 := s.(heap := s2.heap, head := Some(n), calls := s2.calls - {t}, pushed := s.pushed + [v]);
    SwapStep(s2, t, n, s3);
    assert s3.calls == s.calls;
    PushedList(s, s3.heap, n);
  }

  lemma SwapStep<T>(s: State<T>, t: Thread, n: Addr, s': State<T>)
    requires Safe(s) && t in s.calls && s.calls[t] == Linked(n) && n in s.heap && s.heap[n].next == s.head
    requires s' == s.(head := Some(n), calls := s.calls - {t}, pushed := s.pushed + [s.heap[n].data])
    ensures Step(s, SwapForPush(t, false), s')
  {
  }

  lemma LoadStep<T>(s: State<T>, t: Thread, n: Addr, s': State<T>)
    requires Safe(s) && t in s.calls && s.calls[t] == Filling(n) && n in s.heap
    requires s'.heap == s.heap[n := Node(s.heap[n].data, s.head)] && s'.calls == s.calls[t := Linked(n)]
    requires s' == s.(heap := s'.heap, calls := s'.calls)
    ensures Step(s, LoadForPush(t), s') && Safe(s')
  {
  }

  lemma PushedList<T>(s: State<T>, heap: map<Addr, Node<T>>, n: Addr)
    requires Inv(s) && n !in s.heap && n in heap && heap - {n} == s.heap && heap[n].next == s.head
    ensures List(heap, Some(n)) == [heap[n].data] + List(s.heap, s.head)
  {
    var nodes: seq<Addr> :| InvFor(s, nodes);
    assert forall m :: m in nodes <==> m in Members(nodes);
    forall m | m in s.heap ensures m in heap && heap[m] == s.heap[m] { assert (heap - {n})[m] == heap[m]; }
    ListReads(s, nodes);
    ListKept(s.heap, heap, s.head, nodes);
    ListGrows(heap, n, nodes);
  }

  lemma ListGrows<T>(heap: map<Addr, Node<T>>, n: Addr, nodes: seq<Addr>)
    requires n in heap && n !in nodes && NoDuplicates(nodes) && Members(nodes) <= heap.Keys
    requires IsList(heap, heap[n].next, nodes)
    ensures List(heap, Some(n)) == [heap[n].data] + Values(heap, nodes)
  {
    var nodes' := [n] + nodes;
    assert nodes'[1..] == nodes && Members(nodes') == {n} + Members(nodes);
    ListIsLongEnough(heap, Some(n), nodes');
  }

  // ... and one of pop_all takes the whole list.
  lemma TakeCompletes<T>(s: State<T>, t: Thread) returns (states: seq<State<T>>)
    requires Inv(s) && Safe(s) && t !in s.calls && s.head.Some?
    ensures |states| == 3 && states[0] == s
    ensures Step(states[0], LoadForTake(t), states[1]) && Step(states[1], SwapForTake(t, false), states[2])
    ensures states[2].head == None && states[2].calls == s.calls
    ensures states[2].batches == s.batches + [List(s.heap, s.head)]
  {
    StepKeepsInv(s, LoadForTake(t));
    var s1 := Apply(s, LoadForTake(t));
    states := [s, s1, Apply(s1, SwapForTake(t, false))];
    assert s1.calls - {t} == s.calls;
  }

  ghost function Bag<T>(batches: seq<seq<T>>): multiset<T> {
    if batches == [] then multiset{} else Bag(batches[..|batches| - 1]) + multiset(batches[|batches| - 1])
  }

  lemma {:induction false} ReversedBag<T>(s: seq<T>)
    ensures multiset(Reversed(s)) == multiset(s)
  {
    if s != [] {
      ReversedBag(s[1..]);
      assert s == [s[0]] + s[1..];
    }
  }

  lemma {:induction false} UndoneBag<T>(batches: seq<seq<T>>)
    ensures multiset(Undone(batches)) == Bag(batches)
    decreases |batches|
  {
    if batches != [] {
      UndoneBag(batches[..|batches| - 1]);
      ReversedBag(batches[|batches| - 1]);
    }
  }

  // Every argument pushed is in exactly one batch or in the shared list, counted
  // with repetitions, and nothing else is.
  lemma NothingLostOrDoubled<T>(states: seq<State<T>>, actions: seq<Action<T>>, k: nat)
    requires Run(states, actions) && k < |states|
    ensures multiset(Arguments(states, actions, k)) ==
            Bag(states[k].batches) + multiset(List(states[k].heap, states[k].head))
  {
    PushOrderKept(states, actions, k);
    UndoneBag(states[k].batches);
    ReversedBag(List(states[k].heap, states[k].head));
  }

  // Only its owner changes or deletes a node of a batch handed out.
  lemma BatchUntouched<T>(states: seq<State<T>>, actions: seq<Action<T>>, k: nat, n: Addr)
    requires Run(states, actions) && k + 1 < |states| && n in states[k].taken
    requires actions[k] != OwnerDeletes(n) && (actions[k].OwnerWrites? ==> actions[k].n != n)
    ensures n in states[k].heap && n in states[k + 1].heap && n in states[k + 1].taken
    ensures states[k + 1].heap[n] == states[k].heap[n]
  {
    RunKeepsInv(states, actions, k);
    var s, a, next := states[k], actions[k], k + 1;
    var nodes :| InvFor(s, nodes);
    assert Step(s, a, states[next]);
    if a.LoadForPush? || a.SwapForPush? { OwnNode(s, nodes, a.t); }
  }

  // The step hands out the whole list.
  predicate Takes<T>(s: State<T>, a: Action<T>) {
    a.SwapForTake? && Enabled(s, a) && s.head == s.calls[a.t].seen && !a.spurious
  }

  // Its owner changes or deletes one of these nodes.
  ghost predicate Touches<T>(a: Action<T>, nodes: set<Addr>) {
    (a.OwnerWrites? || a.OwnerDeletes?) && a.n in nodes
  }

  lemma {:induction false} TakenListKept<T>(states: seq<State<T>>, actions: seq<Action<T>>, k: nat, j: nat,
                                            p: Option<Addr>, nodes: seq<Addr>)
    requires Run(states, actions) && k <= j < |states|
    requires IsList(states[k].heap, p, nodes)
    requires Members(nodes) <= states[k].taken && Members(nodes) <= states[k].heap.Keys
    requires forall i :: k <= i < j ==> !Touches(actions[i], Members(nodes))
    ensures IsList(states[j].heap, p, nodes)
    ensures Members(nodes) <= states[j].taken && Members(nodes) <= states[j].heap.Keys
    ensures Values(states[j].heap, nodes) == Values(states[k].heap, nodes)
    decreases j
  {
    if k < j {
      var i := j - 1;
      TakenListKept(states, actions, k, i, p, nodes);
      assert !Touches(actions[i], Members(nodes));
      forall n | n in nodes
        ensures n in states[j].heap && states[j].heap[n] == states[i].heap[n] && n in states[j].taken
      {
        assert n in Members(nodes);
        BatchUntouched(states, actions, i, n);
      }
      ListKept(states[i].heap, states[j].heap, p, nodes);
    }
  }

  // What the caller of pop_all relies on: from its successful swap on, and as
  // long as it changes and deletes none of the nodes itself, the pointer it got
  // leads to the batch recorded for it, whatever the other threads do.
  lemma BatchStaysReadable<T>(states: seq<State<T>>, actions: seq<Action<T>>, k: nat, j: nat)
    requires Run(states, actions) && k < j < |states| && Takes(states[k], actions[k])
    requires forall i :: k < i < j ==>
               !Touches(actions[i], Reached(states[k].heap, states[k].head, |states[k].heap.Keys|))
    ensures states[k + 1].batches == states[k].batches + [List(states[j].heap, states[k].head)]
  {
    RunKeepsInv(states, actions, k);
    var s, next := states[k], k + 1;
    var nodes: seq<Addr> :| InvFor(s, nodes);
    ListReads(s, nodes);
    assert Step(s, actions[k], states[next]);
    TakenListKept(states, actions, next, j, s.head, nodes);
    ListIsLongEnough(states[j].heap, s.head, nodes);
  }
}

// slist_r::reverse, which relinks the nodes of a list in place.
module ListReversal {
  import opened Sequences

  class Node<T> {
    var data: T
    var next: Node?<T>

    constructor (data: T)
      ensures this.data == data && next == null
    {
      this.data, next := data, null;
    }
  }

  ghost predicate IsList<T>(head: Node?<T>, nodes: seq<Node<T>>)
    reads nodes
    decreases |nodes|
  {
    if nodes == [] then head == null
    else head == nodes[0] && IsList(nodes[0].next, nodes[1..])
  }

  // A list ending in a given node, whatever that node's own next.
  ghost predicate EndsAt<T>(head: Node?<T>, nodes: seq<Node<T>>)
    reads nodes
  {
    nodes != [] && head == nodes[0] && forall i :: 0 <= i < |nodes| - 1 ==> nodes[i].next == nodes[i + 1]
  }

  lemma {:induction false} ListFromLinks<T>(head: Node?<T>, nodes: seq<Node<T>>)
    requires EndsAt(head, nodes) && nodes[|nodes| - 1].next == null
    ensures IsList(head, nodes)
    decreases |nodes|
  {
    if |nodes| > 1 {
      assert nodes[0].next == nodes[1];
      ListFromLinks(nodes[1], nodes[1..]);
    }
  }

  lemma {:induction false} LinksFromList<T>(head: Node?<T>, nodes: seq<Node<T>>)
    requires IsList(head, nodes) && nodes != []
    ensures EndsAt(head, nodes) && nodes[|nodes| - 1].next == null
    decreases |nodes|
  {
    if |nodes| > 1 {
      LinksFromList(nodes[0].next, nodes[1..]);
      forall i | 0 <= i < |nodes| - 1 ensures nodes[i].next == nodes[i + 1] {
        if i > 0 { assert nodes[1..][i - 1].next == nodes[1..][i]; }
      }
    }
  }

  lemma Joined<T>(first: Node?<T>, back: seq<Node<T>>, head: Node<T>)
    requires EndsAt(first, back) && back[|back| - 1].next == head && head.next == null
    ensures IsList(first, back + [head])
  {
    var all := back + [head];
    assert forall i :: 0 <= i < |back| ==> all[i] == back[i];
    ListFromLinks(first, all);
  }

  // Returns the first and the last node of the same nodes in reverse order.
  method Reverse<T>(head: Node?<T>, ghost nodes: seq<Node<T>>) returns (first: Node?<T>, last: Node?<T>)
    requires IsList(head, nodes) && NoDuplicates(nodes)
    modifies set n | n in nodes :: n`next
    ensures IsList(first, Reversed(nodes)) && last == head
    decreases |nodes|
  {
    if head == null || head.next == null {
      if head != null { assert nodes == [head]; }
      return head, head;
    }
    ghost var rest, back := nodes[1..], Reversed(nodes[1..]);
    LinksFromList(head, nodes);
    assert head in nodes && rest[0] in nodes && rest[0] == head.next && forall n :: n in rest ==> n in nodes;
    first, last := Reverse(head.next, rest);
    LinksFromList(first, back);
    ReversedNodes(rest);
    last.next := head;
    head.next := null;
    Joined(first, back, head);
    last := head;
  }
}
