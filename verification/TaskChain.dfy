// Task chaining over a thread pool, cppcon/TaskWaiting.cpp, as a state machine.
// A step is one of: a section under a lock, a look at the stop flag, the
// return of a task's own function.  Any number of clients and workers interleave.

module TaskChain {
  import opened Options
  import opened Sequences

  type Task = nat   // tasks are numbered in the order they are created

  // Chaining_internals, without its function.
  datatype Internals = Internals(complete: bool, continuation: Option<Task>)

  datatype Job = RunTask(t: Task) | StopTask

  // Where a worker stands in its loop.
  datatype Phase =
    | LoopHead
    | Taking               // saw no stop, is inside get_task
    | Running(t: Task)     // inside the task's function
    | Returned(t: Task)    // the function has returned, `complete` is not yet set
    | Stopping             // inside an empty stop task
    | Exited

  datatype Event = Submitted(t: Task) | DidReturn(t: Task)

  // `after[t]` is the task whose handle created t by `then`; `dropped` holds the
  // continuations replaced before they were submitted.
  datatype State = State(
    tasks: seq<Internals>, queue: seq<Job>, workers: seq<Phase>,
    stop: bool, stopsQueued: bool,
    after: seq<Option<Task>>, dropped: set<Task>, log: seq<Event>)

  datatype Action =
    | SubmitNew | Then(h: Task)
    | Check(w: nat) | Take(w: nat) | Return(w: nat) | Finish(w: nat)
    | SetStop | QueueStops

  predicate Enabled(s: State, a: Action) {
    match a
    case SubmitNew => true
    case Then(h) => h < |s.tasks|
    case Check(w) => w < |s.workers| && s.workers[w].LoopHead?
    case Take(w) => w < |s.workers| && s.workers[w].Taking? && s.queue != []
    case Return(w) => w < |s.workers| && (s.workers[w].Running? || s.workers[w].Stopping?)
    case Finish(w) => w < |s.workers| && s.workers[w].Returned? && s.workers[w].t < |s.tasks|
    case SetStop => !s.stop
    case QueueStops => s.stop && !s.stopsQueued
  }

  function Submit(s: State, t: Task): State {
    s.(queue := s.queue + [RunTask(t)], log := s.log + [Submitted(t)])
  }

  function Create(s: State, after: Option<Task>): State {
    s.(tasks := s.tasks + [Internals(false, None)], after := s.after + [after])
  }

  function ChainNext(s: State, h: Task, t: Task): State
    requires h < |s.tasks|
  {
    if s.tasks[h].complete then Submit(s, t)
    else
      s.(tasks := s.tasks[h := Internals(false, Some(t))],
         dropped := s.dropped + (if s.tasks[h].continuation.Some? then {s.tasks[h].continuation.value} else {}))
  }

  function Complete(s: State, t: Task): State
    requires t < |s.tasks|
  {
    var c := s.tasks[t].continuation;
    var s' := s.(tasks := s.tasks[t := Internals(true, c)]);
    if c.Some? then Submit(s', c.value) else s'
  }

  function Moved(s: State, w: nat, p: Phase): State
    requires w < |s.workers|
  {
    s.(workers := s.workers[w := p])
  }

  function Apply(s: State, a: Action): State
    requires Enabled(s, a)
  {
    match a
    case SubmitNew => Submit(Create(s, None), |s.tasks|)
    case Then(h) => ChainNext(Create(s, Some(h)), h, |s.tasks|)
    case Check(w) => Moved(s, w, if s.stop then Exited else Taking)
    case Take(w) =>
      Moved(s, w, match s.queue[0] case RunTask(t) => Running(t) case StopTask => Stopping)
        .(queue := s.queue[1..])
    case Return(w) =>
      (match s.workers[w]
       case Running(t) => Moved(s, w, Returned(t)).(log := s.log + [DidReturn(t)])
       case _ => Moved(s, w, LoopHead))
    case Finish(w) => Moved(Complete(s, s.workers[w].t), w, LoopHead)
    case SetStop => s.(stop := true)
    case QueueStops => s.(queue := s.queue + seq(|s.workers|, _ => StopTask), stopsQueued := true)
  }

  predicate Init(s: State) {
    && s.tasks == [] && s.queue == [] && !s.stop && !s.stopsQueued
    && s.after == [] && s.dropped == {} && s.log == []
    && forall w :: 0 <= w < |s.workers| ==> s.workers[w].LoopHead?
  }

  // ----- the invariant

  // t is the continuation of a task that has not completed.
  predicate Awaits(s: State, t: Task)
    requires t < |s.after|
  {
    && s.after[t].Some? && s.after[t].value < |s.tasks|
    && s.tasks[s.after[t].value] == Internals(false, Some(t))
  }

  // What the queue and the workers hold of a task agrees with the log.  The task
  // in `limbo` is the one a step has made ready but not yet placed.
  ghost predicate TaskOk(s: State, t: Task, limbo: Option<Task>)
    requires t < |s.tasks| == |s.after|
  {
    && (s.after[t].Some? ==> s.after[t].value < t)
    && (s.tasks[t].continuation.Some? ==> ContinuationOf(s, t, s.tasks[t].continuation.value))
    && (Submitted(t) in s.log <==> !Awaits(s, t) && t !in s.dropped && limbo != Some(t))
    && (Awaits(s, t) ==> t !in s.dropped && limbo != Some(t))
    && (limbo == Some(t) ==> t !in s.dropped)
    && (DidReturn(t) in s.log ==> Submitted(t) in s.log)
    && (s.tasks[t].complete ==> DidReturn(t) in s.log)
    && Unreturned(s, t) == (if Submitted(t) in s.log && DidReturn(t) !in s.log then 1 else 0)
    && Uncompleted(s, t) == (if DidReturn(t) in s.log && !s.tasks[t].complete then 1 else 0)
  }

  // Where t is held: by the queue or by workers inside its function, or by
  // workers about to mark it complete.
  function Unreturned(s: State, t: Task): nat {
    multiset(s.queue)[RunTask(t)] + multiset(s.workers)[Running(t)]
  }

  function Uncompleted(s: State, t: Task): nat {
    multiset(s.workers)[Returned(t)]
  }

  predicate ContinuationOf(s: State, h: Task, t: Task) {
    t < |s.after| && s.after[t] == Some(h)
  }

  // No event is logged twice, and a task made by `then` is submitted only
  // after the task before it has returned.
  ghost predicate LogOk(log: seq<Event>, after: seq<Option<Task>>) {
    && NoDuplicates(log)
    && forall i :: 0 <= i < |log| ==> EventOk(log, after, i)
  }

  ghost predicate EventOk(log: seq<Event>, after: seq<Option<Task>>, i: nat)
    requires i < |log|
  {
    && log[i].t < |after|
    && (log[i].Submitted? && after[log[i].t].Some? ==> DidReturn(after[log[i].t].value) in log[..i])
  }

  ghost predicate Known(s: State) {
    && |s.tasks| == |s.after|
    && (forall t: Task :: t in s.dropped ==> t < |s.tasks|)
    && (forall t: Task :: RunTask(t) in s.queue ==> t < |s.tasks|)
    && (forall t: Task :: Running(t) in s.workers || Returned(t) in s.workers ==> t < |s.tasks|)
  }

  ghost predicate InvFor(s: State, limbo: Option<Task>) {
    && Known(s)
    && LogOk(s.log, s.after)
    && (limbo.Some? ==> limbo.value < |s.tasks|)
    && (forall t: Task :: t < |s.tasks| ==> TaskOk(s, t, limbo))
  }

  ghost predicate Inv(s: State) {
    InvFor(s, None)
  }

  // ----- the parts of a step

  lemma LogAppend(log: seq<Event>, after: seq<Option<Task>>, e: Event)
    requires LogOk(log, after) && e !in log && e.t < |after|
    requires e.Submitted? && after[e.t].Some? ==> DidReturn(after[e.t].value) in log
    ensures LogOk(log + [e], after)
  {
    var log' := log + [e];
    forall i | 0 <= i < |log'| ensures EventOk(log', after, i) {
      if i < |log| {
        assert EventOk(log, after, i);
        assert log'[..i] == log[..i];
      } else {
        assert log'[..i] == log;
      }
    }
  }

  lemma CreateKeeps(s: State, after: Option<Task>)
    requires Inv(s) && (after.Some? ==> after.value < |s.tasks|)
    ensures InvFor(Create(s, after), Some(|s.tasks|))
  {
    var n, s' := |s.tasks|, Create(s, after);
    forall i | 0 <= i < |s.log| ensures EventOk(s'.log, s'.after, i) && s.log[i].t < n {
      assert EventOk(s.log, s.after, i);
    }
    if after.Some? { assert TaskOk(s, after.value, None); }
    forall t: Task | t < n + 1 ensures TaskOk(s', t, Some(n)) {
      if t < n {
        assert TaskOk(s, t, None);
        assert s'.tasks[t] == s.tasks[t] && s'.after[t] == s.after[t];
        assert s.after[t].Some? ==> s'.tasks[s.after[t].value] == s.tasks[s.after[t].value];
      }
    }
  }

  lemma SubmitKeeps(s: State, t: Task)
    requires InvFor(s, Some(t))
    requires s.after[t].Some? ==> DidReturn(s.after[t].value) in s.log
    ensures Inv(Submit(s, t))
  {
    var s' := Submit(s, t);
    assert TaskOk(s, t, Some(t));
    LogAppend(s.log, s.after, Submitted(t));
    forall u: Task | u < |s.tasks| ensures TaskOk(s', u, None) {
      assert TaskOk(s, u, Some(t));
      assert Awaits(s', u) == Awaits(s, u);
    }
  }

  lemma LinkKeeps(s: State, h: Task, t: Task)
    requires InvFor(s, Some(t)) && s.after[t] == Some(h) && h < |s.tasks| && !s.tasks[h].complete
    ensures Inv(ChainNext(s, h, t))
  {
    var s' := ChainNext(s, h, t);
    assert TaskOk(s, h, Some(t));
    assert TaskOk(s, t, Some(t));
    forall u: Task | u < |s.tasks| ensures TaskOk(s', u, None) {
      assert TaskOk(s, u, Some(t));
      if Awaits(s, u) && s.after[u] == Some(h) { assert s.tasks[h].continuation == Some(u); }
    }
  }

  // The worker's lock section: t is marked complete and the worker moves on.
  lemma MarkKeeps(s: State, t: Task, w: nat, s': State)
    requires Inv(s) && w < |s.workers| && s.workers[w] == Returned(t) && t < |s.tasks|
    requires s' == Moved(s.(tasks := s.tasks[t := Internals(true, s.tasks[t].continuation)]), w, LoopHead)
    ensures InvFor(s', s.tasks[t].continuation)
    ensures DidReturn(t) in s.log && s.after == s'.after
    ensures s.tasks[t].continuation.Some? ==> ContinuationOf(s, t, s.tasks[t].continuation.value)
  {
    var c := s.tasks[t].continuation;
    assert TaskOk(s, t, None);
    if c.Some? { assert TaskOk(s, c.value, None); }
    forall u: Task | u < |s.tasks| ensures TaskOk(s', u, c) {
      assert TaskOk(s, u, None);
    }
  }

  // ----- each step

  lemma ThenKeeps(s: State, h: Task)
    requires Inv(s) && h < |s.tasks|
    ensures Inv(Apply(s, Then(h)))
  {
    var s1 := Create(s, Some(h));
    CreateKeeps(s, Some(h));
    assert TaskOk(s, h, None);
    if s.tasks[h].complete { SubmitKeeps(s1, |s.tasks|); } else { LinkKeeps(s1, h, |s.tasks|); }
  }

  lemma FinishKeeps(s: State, w: nat)
    requires Inv(s) && Enabled(s, Finish(w))
    ensures Inv(Apply(s, Finish(w)))
  {
    var t := s.workers[w].t;
    var s1 := Moved(s.(tasks := s.tasks[t := Internals(true, s.tasks[t].continuation)]), w, LoopHead);
    MarkKeeps(s, t, w, s1);
    if s.tasks[t].continuation.Some? {
      SubmitKeeps(s1, s.tasks[t].continuation.value);
      assert Apply(s, Finish(w)) == Submit(s1, s.tasks[t].continuation.value);
    }
  }

  lemma TakeKeeps(s: State, w: nat)
    requires Inv(s) && Enabled(s, Take(w))
    ensures Inv(Apply(s, Take(w)))
  {
    var s' := Apply(s, Take(w));
    assert s.queue == [s.queue[0]] + s.queue[1..];
    forall t: Task | t < |s.tasks| ensures TaskOk(s', t, None) {
      assert TaskOk(s, t, None);
    }
  }

  lemma ReturnKeeps(s: State, w: nat)
    requires Inv(s) && Enabled(s, Return(w)) && s.workers[w].Running?
    ensures Inv(Apply(s, Return(w)))
  {
    var t, s' := s.workers[w].t, Apply(s, Return(w));
    assert s.workers[w] in s.workers;
    assert TaskOk(s, t, None);
    LogAppend(s.log, s.after, DidReturn(t));
    forall u: Task | u < |s.tasks| ensures TaskOk(s', u, None) {
      assert TaskOk(s, u, None);
    }
  }

  // A step that moves a worker outside any task, or sets the flag.
  lemma IdleMoveKeeps(s: State, w: nat, p: Phase)
    requires Inv(s) && w < |s.workers|
    requires !s.workers[w].Running? && !s.workers[w].Returned? && !p.Running? && !p.Returned?
    ensures Inv(Moved(s, w, p))
  {
    var s' := Moved(s, w, p);
    forall t: Task | t < |s.tasks| ensures TaskOk(s', t, None) { assert TaskOk(s, t, None); }
  }

  lemma QueueStopsKeeps(s: State)
    requires Inv(s) && Enabled(s, QueueStops)
    ensures Inv(Apply(s, QueueStops))
  {
    var s' := Apply(s, QueueStops);
    var stops := seq(|s.workers|, _ => StopTask);
    forall t: Task | t < |s.tasks| ensures TaskOk(s', t, None) {
      assert TaskOk(s, t, None);
      assert RunTask(t) !in stops;
    }
  }

  lemma SetStopKeeps(s: State)
    requires Inv(s)
    ensures Inv(s.(stop := true))
  {
    var s' := s.(stop := true);
    forall t: Task | t < |s.tasks| ensures TaskOk(s', t, None) { assert TaskOk(s, t, None); }
  }

  lemma StepKeepsInv(s: State, a: Action)
    requires Inv(s) && Enabled(s, a)
    ensures Inv(Apply(s, a))
  {
    match a
    case SubmitNew =>
      CreateKeeps(s, None);
      SubmitKeeps(Create(s, None), |s.tasks|);
    case Then(h) => ThenKeeps(s, h);
    case Check(w) => IdleMoveKeeps(s, w, if s.stop then Exited else Taking);
    case Take(w) => TakeKeeps(s, w);
    case Return(w) => if s.workers[w].Running? { ReturnKeeps(s, w); } else { IdleMoveKeeps(s, w, LoopHead); }
    case Finish(w) => FinishKeeps(s, w);
    case SetStop => SetStopKeeps(s);
    case QueueStops => QueueStopsKeeps(s);
  }

  // ----- whole runs

  ghost predicate Step(s: State, a: Action, s': State) {
    Enabled(s, a) && s' == Apply(s, a)
  }

  ghost predicate Run(states: seq<State>, actions: seq<Action>) {
    && |states| == |actions| + 1 && Init(states[0])
    && forall i, j :: 0 <= i < |actions| && j == i + 1 ==> Step(states[i], actions[i], states[j])
  }

  lemma {:induction false} RunKeepsInv(states: seq<State>, actions: seq<Action>, k: nat)
    requires Run(states, actions) && k < |states|
    ensures Inv(states[k]) && TwinsOk(states[k]) && StopsOk(states[k])
  {
    if k > 0 {
      RunKeepsInv(states, actions, k - 1);
      assert Step(states[k - 1], actions[k - 1], states[k]);
      StepKeepsInv(states[k - 1], actions[k - 1]);
      TwinsKept(states[k - 1], actions[k - 1]);
      StopsKept(states[k - 1], actions[k - 1]);
    }
  }

  // In every run no task is submitted twice or returns twice, and a chained one
  // is submitted only after the one before it has returned.
  lemma SubmittedOnceAndInOrder(states: seq<State>, actions: seq<Action>, k: nat)
    requires Run(states, actions) && k < |states|
    ensures NoDuplicates(states[k].log)
    ensures forall i :: 0 <= i < |states[k].log| ==> states[k].log[i].t < |states[k].after|
    ensures forall i :: 0 <= i < |states[k].log| && states[k].log[i].Submitted? ==>
              var before := states[k].after[states[k].log[i].t];
              before.Some? ==> DidReturn(before.value) in states[k].log[..i]
  {
    RunKeepsInv(states, actions, k);
    var s := states[k];
    forall i | 0 <= i < |s.log|
      ensures s.log[i].t < |s.after|
      ensures s.log[i].Submitted? && s.after[s.log[i].t].Some? ==> DidReturn(s.after[s.log[i].t].value) in s.log[..i]
    {
      assert EventOk(s.log, s.after, i);
    }
  }

  // Nothing is queued and no worker is inside a task.
  predicate PoolIdle(s: State) {
    && (forall job :: job in s.queue ==> job.StopTask?)
    && (forall p :: p in s.workers ==> !p.Running? && !p.Returned?)
  }

  lemma {:induction false} IdleCompletes(s: State, t: Task)
    requires Inv(s) && PoolIdle(s) && s.dropped == {} && t < |s.tasks|
    ensures s.tasks[t].complete && DidReturn(t) in s.log
    decreases t
  {
    assert TaskOk(s, t, None);
    assert RunTask(t) !in s.queue && Running(t) !in s.workers && Returned(t) !in s.workers;
    if s.after[t].Some? { IdleCompletes(s, s.after[t].value); }
  }

  lemma DroppedNeverRuns(s: State, t: Task)
    requires Inv(s) && t in s.dropped
    ensures t < |s.tasks| && Submitted(t) !in s.log && DidReturn(t) !in s.log
  {
    assert TaskOk(s, t, None);
  }

  // A waiting continuation is replaced exactly by a `then` on a handle whose
  // task has not completed and already has one.
  ghost predicate Replaces(s: State, a: Action)
    requires Enabled(s, a)
  {
    a.Then? && !s.tasks[a.h].complete && s.tasks[a.h].continuation.Some?
  }

  lemma DroppedBy(s: State, a: Action)
    requires Inv(s) && Enabled(s, a)
    ensures s.dropped <= Apply(s, a).dropped
    ensures Apply(s, a).dropped != s.dropped <==> Replaces(s, a)
  {
    if Replaces(s, a) {
      var c := s.tasks[a.h].continuation.value;
      assert TaskOk(s, a.h, None);
      assert TaskOk(s, c, None) && Awaits(s, c);
      assert c in Apply(s, a).dropped;
    }
  }

  lemma {:induction false} TasksStay(states: seq<State>, actions: seq<Action>, i: nat, j: nat)
    requires Run(states, actions) && i <= j < |states|
    ensures |states[i].tasks| <= |states[j].tasks|
    decreases j
  {
    if i < j {
      TasksStay(states, actions, i, j - 1);
      assert Step(states[j - 1], actions[j - 1], states[j]);
    }
  }

  // The actions before point k include a `then` on h.
  ghost predicate ThenBefore(actions: seq<Action>, h: Task, k: nat)
    requires k <= |actions|
  {
    exists i :: 0 <= i < k && actions[i] == Then(h)
  }

  lemma ContinuedStep(s: State, a: Action, h: Task)
    requires Enabled(s, a) && h < |Apply(s, a).tasks| && !Apply(s, a).tasks[h].complete
    ensures h < |s.tasks| ==> !s.tasks[h].complete
    ensures Apply(s, a).tasks[h].continuation.Some? <==>
              h < |s.tasks| && (s.tasks[h].continuation.Some? || a == Then(h))
  {
  }

  // An incomplete task has a continuation exactly when there was a `then` on it.
  lemma {:induction false} ContinuedIff(states: seq<State>, actions: seq<Action>, h: Task, k: nat)
    requires Run(states, actions) && k < |states| && h < |states[k].tasks| && !states[k].tasks[h].complete
    ensures states[k].tasks[h].continuation.Some? <==> ThenBefore(actions, h, k)
    decreases k
  {
    var s, a := states[k - 1], actions[k - 1];
    assert Step(s, a, states[k]);
    ContinuedStep(s, a, h);
    if h < |s.tasks| {
      ContinuedIff(states, actions, h, k - 1);
    } else {
      forall i | 0 <= i < k ensures actions[i] != Then(h) {
        var j := i + 1;
        assert Step(states[i], actions[i], states[j]);
        TasksStay(states, actions, i, k - 1);
      }
    }
    assert ThenBefore(actions, h, k) <==> ThenBefore(actions, h, k - 1) || a == Then(h);
  }

  // Some handle was used for a second `then` before its task had completed.
  ghost predicate ThenTwice(states: seq<State>, actions: seq<Action>, k: nat)
    requires k < |states| == |actions| + 1
  {
    exists i, j :: 0 <= i < j < k && SecondThen(states[j], actions[i], actions[j])
  }

  ghost predicate SecondThen(s: State, before: Action, a: Action) {
    a.Then? && before == a && a.h < |s.tasks| && !s.tasks[a.h].complete
  }

  lemma {:induction false} DroppedIffThenTwice(states: seq<State>, actions: seq<Action>, k: nat)
    requires Run(states, actions) && k < |states|
    ensures states[k].dropped != {} <==> ThenTwice(states, actions, k)
  {
    if k > 0 {
      var n := k - 1;
      var s, a := states[n], actions[n];
      DroppedIffThenTwice(states, actions, n);
      RunKeepsInv(states, actions, n);
      assert Step(s, a, states[k]);
      DroppedBy(s, a);
      if a.Then? && !s.tasks[a.h].complete { ContinuedIff(states, actions, a.h, n); }
      assert Replaces(s, a) <==> exists i :: 0 <= i < n && SecondThen(s, actions[i], a);
      assert ThenTwice(states, actions, k) <==>
               ThenTwice(states, actions, n) || exists i :: 0 <= i < n && SecondThen(s, actions[i], a);
    }
  }

  // Main result: when the pool is idle, every task created so far has run if
  // and only if no handle was used for a second `then` before its task had
  // completed ...
  lemma IdleMeansAllRan(states: seq<State>, actions: seq<Action>, k: nat)
    requires Run(states, actions) && k < |states| && PoolIdle(states[k])
    ensures (forall t: Task :: t < |states[k].tasks| ==> DidReturn(t) in states[k].log)
            <==> !ThenTwice(states, actions, k)
    ensures states[k].dropped == {} <==> !ThenTwice(states, actions, k)
  {
    RunKeepsInv(states, actions, k);
    DroppedIffThenTwice(states, actions, k);
    var s := states[k];
    if s.dropped == {} {
      forall t: Task | t < |s.tasks| ensures DidReturn(t) in s.log { IdleCompletes(s, t); }
    } else {
      var t :| t in s.dropped;
      DroppedNeverRuns(s, t);
    }
  }

  lemma RunMore(states: seq<State>, actions: seq<Action>, a: Action, next: State)
    requires Run(states, actions) && Step(states[|actions|], a, next)
    ensures Run(states + [next], actions + [a])
  {
    var (states', actions') := (states + [next], actions + [a]);
    forall i, j | 0 <= i < |actions'| && j == i + 1 ensures Step(states'[i], actions'[i], states'[j]) {
      if i < |actions| {
        assert Step(states[i], actions[i], states[j]);
      }
    }
  }

  // A failing run: the handle of task 0 is used for two thens before its task
  // has completed, and the single worker then runs until the pool is idle.
  // Task 1 has never run.
  lemma TwoThensLoseATask() returns (states: seq<State>, actions: seq<Action>)
    ensures Run(states, actions) && |states[|actions|].workers| == 1
    ensures var s := states[|actions|];
      PoolIdle(s) && !s.stop && |s.tasks| == 3 && s.dropped == {1} && DidReturn(1) !in s.log
  {
    var s;
    s, states, actions := TwoThens();
    s, states, actions := OneTask(s, states, actions);
    assert s.queue == [RunTask(2)] && s.log == [Submitted(0), DidReturn(0), Submitted(2)];
    s, states, actions := OneTask(s, states, actions);
  }

  lemma TwoThens() returns (s: State, states: seq<State>, actions: seq<Action>)
    ensures Run(states, actions) && s == states[|actions|]
    ensures s == State([Internals(false, Some(2)), Internals(false, None), Internals(false, None)], [RunTask(0)],
                       [LoopHead], false, false, [None, Some(0), Some(0)], {1}, [Submitted(0)])
  {
    s := State([], [], [LoopHead], false, false, [], {}, []);
    states, actions := [s], [];
    s, states, actions := After(s, states, actions, SubmitNew);
    s, states, actions := After(s, states, actions, Then(0));
    s, states, actions := After(s, states, actions, Then(0));
  }

  lemma After(s: State, states: seq<State>, actions: seq<Action>, a: Action)
    returns (s': State, states': seq<State>, actions': seq<Action>)
    requires Run(states, actions) && s == states[|actions|] && Enabled(s, a)
    ensures s' == Apply(s, a) && Run(states', actions') && s' == states'[|actions'|]
  {
    s' := Apply(s, a);
    RunMore(states, actions, a, s');
    states', actions' := states + [s'], actions + [a];
  }

  // The only worker takes and finishes the first task of the queue.
  lemma OneTask(s: State, states: seq<State>, actions: seq<Action>)
    returns (s': State, states': seq<State>, actions': seq<Action>)
    requires Run(states, actions) && s == states[|actions|] && !s.stop && s.workers == [LoopHead]
    requires s.queue != [] && s.queue[0].RunTask? && s.queue[0].t < |s.tasks|
    ensures var t := s.queue[0].t;
      s' == Complete(s.(queue := s.queue[1..], log := s.log + [DidReturn(t)]), t)
    ensures Run(states', actions') && s' == states'[|actions'|]
  {
    s', states', actions' := After(s, states, actions, Check(0));
    s', states', actions' := After(s', states', actions', Take(0));
    s', states', actions' := After(s', states', actions', Return(0));
    s', states', actions' := After(s', states', actions', Finish(0));
    assert s'.workers == [LoopHead];
  }

  // ... so that with at most one `then` a handle every task has run.
  ghost predicate HandlesUsedOnce(s: State) {
    forall t: Task, u: Task :: t < u < |s.after| && s.after[t].Some? ==> s.after[t] != s.after[u]
  }

  ghost predicate TwinsOk(s: State) {
    forall t: Task :: t in s.dropped ==> HasTwin(s.after, t)
  }

  // Another task was created from the same handle.
  ghost predicate HasTwin(after: seq<Option<Task>>, t: Task) {
    t < |after| && after[t].Some? && exists u: Task :: u < |after| && u != t && after[u] == after[t]
  }

  lemma TwinStays(after: seq<Option<Task>>, after': seq<Option<Task>>, t: Task)
    requires HasTwin(after, t) && after <= after'
    ensures HasTwin(after', t)
  {
    var u: Task :| u < |after| && u != t && after[u] == after[t];
    assert after'[u] == after'[t];
  }

  lemma AfterGrows(s: State, a: Action)
    requires Enabled(s, a)
    ensures s.after <= Apply(s, a).after
  {
  }

  // A continuation replaced by `then` has the new task for a twin.
  lemma ReplacedHasTwin(s: State, h: Task, t: Task)
    requires Inv(s) && h < |s.tasks| && s.tasks[h].continuation == Some(t)
    ensures HasTwin(s.after + [Some(h)], t)
  {
    assert TaskOk(s, h, None);
    var after' := s.after + [Some(h)];
    assert after'[|s.after|] == after'[t];
  }

  lemma TwinsKept(s: State, a: Action)
    requires Inv(s) && TwinsOk(s) && Enabled(s, a)
    ensures TwinsOk(Apply(s, a))
  {
    var s' := Apply(s, a);
    AfterGrows(s, a);
    forall t | t in s'.dropped ensures HasTwin(s'.after, t) {
      if t in s.dropped { TwinStays(s.after, s'.after, t); } else { ReplacedHasTwin(s, a.h, t); }
    }
  }

  lemma NoTwins(s: State)
    requires HandlesUsedOnce(s)
    ensures forall t: Task :: !HasTwin(s.after, t)
  {
  }

  lemma AllRunWhenIdle(states: seq<State>, actions: seq<Action>, k: nat)
    requires Run(states, actions) && k < |states| && PoolIdle(states[k]) && HandlesUsedOnce(states[k])
    ensures forall t: Task :: t < |states[k].tasks| ==> DidReturn(t) in states[k].log
  {
    RunKeepsInv(states, actions, k);
    var s := states[k];
    NoTwins(s);
    assert forall t :: t in s.dropped ==> HasTwin(s.after, t);
    assert s.dropped == {};
    IdleMeansAllRan(states, actions, k);
  }

  // ----- before the stop flag is set

  // Until then every worker stays in its loop and there are only tasks to run.
  ghost predicate OpenOk(s: State) {
    && (s.stopsQueued ==> s.stop)
    && (!s.stop ==> forall job :: job in s.queue ==> job.RunTask?)
    && (!s.stop ==> forall p :: p in s.workers ==> !p.Exited? && !p.Stopping?)
  }

  lemma OpenKept(s: State, a: Action)
    requires OpenOk(s) && Enabled(s, a)
    ensures OpenOk(Apply(s, a)) && |Apply(s, a).workers| == |s.workers|
    ensures Apply(s, a).stop <==> s.stop || a.SetStop?
  {
  }

  lemma {:induction false} StopIff(states: seq<State>, actions: seq<Action>, k: nat)
    requires Run(states, actions) && k < |states|
    ensures OpenOk(states[k]) && |states[k].workers| == |states[0].workers|
    ensures states[k].stop <==> SetStop in actions[..k]
  {
    if k > 0 {
      StopIff(states, actions, k - 1);
      assert Step(states[k - 1], actions[k - 1], states[k]);
      OpenKept(states[k - 1], actions[k - 1]);
      assert actions[..k] == actions[..k - 1] + [actions[k - 1]];
    }
  }

  // No worker leaves before shutdown has begun.
  lemma NoneExitsBeforeStop(states: seq<State>, actions: seq<Action>, k: nat)
    requires Run(states, actions) && k < |states| && SetStop !in actions[..k]
    ensures |states[k].workers| == |states[0].workers|
    ensures forall p :: p in states[k].workers ==> !p.Exited? && !p.Stopping?
  {
    StopIff(states, actions, k);
  }

  // The tasks whose function has not returned.
  function Outstanding(s: State): set<Task> {
    set t: Task | t < |s.tasks| && DidReturn(t) !in s.log
  }

  function Effort(p: Phase): nat {
    match p
    case Returned(_) => 3
    case LoopHead => 2
    case Taking => 1
    case _ => 0
  }

  // A bound on the steps the workers still have to make.
  function Work(s: State): nat {
    4 * |Outstanding(s)| + Total(s.workers, Effort)
  }

  lemma {:induction false} EffortAtMost(workers: seq<Phase>)
    ensures Total(workers, Effort) <= 3 * |workers|
  {
    if workers != [] { EffortAtMost(workers[1..]); }
  }

  lemma {:induction false} BelowSize(n: nat, ts: set<Task>)
    requires forall t :: t in ts ==> t < n
    ensures |ts| <= n
    decreases n
  {
    if n == 0 { assert ts == {}; } else { BelowSize(n - 1, ts - {n - 1}); }
  }

  lemma WorkAtMost(s: State)
    ensures Work(s) <= 4 * |s.tasks| + 3 * |s.workers|
  {
    EffortAtMost(s.workers);
    BelowSize(|s.tasks|, Outstanding(s));
  }

  lemma ReturnEndsTask(s: State, w: nat)
    requires Inv(s) && Enabled(s, Return(w)) && s.workers[w].Running?
    ensures |Outstanding(Apply(s, Return(w)))| == |Outstanding(s)| - 1
  {
    var t := s.workers[w].t;
    assert s.workers[w] in s.workers;
    assert TaskOk(s, t, None);
    assert Outstanding(Apply(s, Return(w))) == Outstanding(s) - {t};
  }

  lemma OtherStepsEndNone(s: State, a: Action)
    requires Enabled(s, a) && (a.Check? || a.Take? || a.Finish?)
    ensures Outstanding(Apply(s, a)) == Outstanding(s)
  {
  }

  lemma WorkDrops(s: State, a: Action)
    requires Inv(s) && OpenOk(s) && !s.stop && Enabled(s, a) && WorkerStep(a)
    ensures Work(Apply(s, a)) + 1 <= Work(s) && |Apply(s, a).tasks| == |s.tasks|
  {
    assert s.workers[a.w] in s.workers;
    TotalUpdate(s.workers, Effort, a.w, Apply(s, a).workers[a.w]);
    assert Apply(s, a).workers == s.workers[a.w := Apply(s, a).workers[a.w]];
    if a.Take? { assert s.queue[0] in s.queue; }
    if a.Return? { ReturnEndsTask(s, a.w); } else { OtherStepsEndNone(s, a); }
  }

  lemma ClientsAddWork(s: State, a: Action)
    requires Inv(s) && Enabled(s, a) && !WorkerStep(a)
    ensures Work(Apply(s, a)) <= Work(s) + 4 * (|Apply(s, a).tasks| - |s.tasks|)
  {
    var n := |s.tasks|;
    if a.SubmitNew? || a.Then? {
      assert Outstanding(Apply(s, a)) <= Outstanding(s) + {n};
      SubsetSize(Outstanding(Apply(s, a)), Outstanding(s) + {n});
    } else {
      assert Outstanding(Apply(s, a)) == Outstanding(s);
    }
  }

  // Before the stop flag is set, whatever clients and workers do in any order, the
  // workers make at most the steps that were still to be made, and four more for
  // each new task.
  lemma {:induction false} WorkIsBounded(states: seq<State>, actions: seq<Action>, i: nat, k: nat)
    requires Run(states, actions) && i <= k < |states| && SetStop !in actions[..k]
    ensures Work(states[k]) + WorkerSteps(actions, i, k)
            <= Work(states[i]) + 4 * (|states[k].tasks| - |states[i].tasks|)
    decreases k
  {
    if i < k {
      var (s, a) := (states[k - 1], actions[k - 1]);
      assert actions[..k] == actions[..k - 1] + [a];
      WorkIsBounded(states, actions, i, k - 1);
      RunKeepsInv(states, actions, k - 1);
      StopIff(states, actions, k - 1);
      assert Step(s, a, states[k]);
      if WorkerStep(a) { WorkDrops(s, a); } else { ClientsAddWork(s, a); }
    }
  }

  // And as long as the pool is not idle, some worker can move.
  lemma SomeWorkerMoves(states: seq<State>, actions: seq<Action>, k: nat) returns (a: Action)
    requires Run(states, actions) && k < |states| && SetStop !in actions[..k]
    requires |states[0].workers| > 0 && !PoolIdle(states[k])
    ensures WorkerStep(a) && Enabled(states[k], a)
  {
    StopIff(states, actions, k);
    RunKeepsInv(states, actions, k);
    var s := states[k];
    if w: nat :| w < |s.workers| && !s.workers[w].Taking? {
      a := match s.workers[w] case LoopHead => Check(w) case Returned(_) => Finish(w) case _ => Return(w);
      assert s.workers[w] in s.workers;
    } else {
      assert s.workers[0].Taking?;
      a := Take(0);
    }
  }

  // So the workers alone bring the pool to rest, in a bounded number of steps ...
  lemma {:induction false} PoolComesToRest(states: seq<State>, actions: seq<Action>)
    returns (states': seq<State>, actions': seq<Action>)
    requires Run(states, actions) && SetStop !in actions && |states[0].workers| > 0
    ensures Run(states', actions') && states <= states' && actions <= actions' && SetStop !in actions'
    ensures forall i :: |actions| <= i < |actions'| ==> WorkerStep(actions'[i])
    ensures |actions'| - |actions| <= Work(states[|actions|]) && PoolIdle(states'[|actions'|])
    decreases Work(states[|actions|])
  {
    var k := |actions|;
    assert actions[..k] == actions;
    if PoolIdle(states[k]) {
      states', actions' := states, actions;
    } else {
      var a := SomeWorkerMoves(states, actions, k);
      RunKeepsInv(states, actions, k);
      StopIff(states, actions, k);
      WorkDrops(states[k], a);
      RunMore(states, actions, a, Apply(states[k], a));
      states', actions' := PoolComesToRest(states + [Apply(states[k], a)], actions + [a]);
      assert actions'[k] == (actions + [a])[k];
    }
  }

  // ... and then all tasks have run if and only if no handle had been used for a
  // second `then` too early.
  lemma AllTasksGetRun(states: seq<State>, actions: seq<Action>)
    returns (states': seq<State>, actions': seq<Action>)
    requires Run(states, actions) && SetStop !in actions && |states[0].workers| > 0
    ensures Run(states', actions') && states <= states' && actions <= actions'
    ensures forall i :: |actions| <= i < |actions'| ==> WorkerStep(actions'[i])
    ensures |actions'| - |actions| <= 4 * |states[|actions|].tasks| + 3 * |states[0].workers|
    ensures var s := states'[|actions'|];
      (forall t: Task :: t < |s.tasks| ==> DidReturn(t) in s.log) <==> !ThenTwice(states, actions, |actions|)
  {
    states', actions' := PoolComesToRest(states, actions);
    WorkAtMost(states[|actions|]);
    StopIff(states, actions, |actions|);
    assert actions[..|actions|] == actions;
    IdleMeansAllRan(states', actions', |actions'|);
    WorkersAddNoThen(states, actions, states', actions');
  }

  lemma WorkersAddNoThen(states: seq<State>, actions: seq<Action>, states': seq<State>, actions': seq<Action>)
    requires |states| == |actions| + 1 && |states'| == |actions'| + 1 && states <= states' && actions <= actions'
    requires forall i :: |actions| <= i < |actions'| ==> WorkerStep(actions'[i])
    ensures ThenTwice(states, actions, |actions|) <==> ThenTwice(states', actions', |actions'|)
  {
    if ThenTwice(states', actions', |actions'|) {
      var i, j :| 0 <= i < j < |actions'| && SecondThen(states'[j], actions'[i], actions'[j]);
      assert !WorkerStep(actions'[j]);
      assert SecondThen(states[j], actions[i], actions[j]);
    }
    if ThenTwice(states, actions, |actions|) {
      var i, j :| 0 <= i < j < |actions| && SecondThen(states[j], actions[i], actions[j]);
      assert SecondThen(states'[j], actions'[i], actions'[j]);
    }
  }

  // ----- what the clients did, from the actions alone

  // For each task in order of creation, the task whose handle it was created from.
  ghost function Created(actions: seq<Action>): seq<Option<Task>> {
    if actions == [] then []
    else
      Created(actions[..|actions| - 1])
      + match actions[|actions| - 1] case SubmitNew => [None] case Then(h) => [Some(h)] case _ => []
  }

  // The tasks workers have started, in order.
  ghost function Started(states: seq<State>, actions: seq<Action>, k: nat): seq<Task>
    requires k < |states| == |actions| + 1
  {
    if k == 0 then []
    else
      var (a, workers) := (actions[k - 1], states[k].workers);
      Started(states, actions, k - 1)
      + if a.Take? && a.w < |workers| && workers[a.w].Running? then [workers[a.w].t] else []
  }

  ghost function Submissions(log: seq<Event>): seq<Task> {
    if log == [] then []
    else
      var e := log[|log| - 1];
      Submissions(log[..|log| - 1]) + if e.Submitted? then [e.t] else []
  }

  ghost function Waiting(queue: seq<Job>): seq<Task> {
    if queue == [] then []
    else
      var job := queue[|queue| - 1];
      Waiting(queue[..|queue| - 1]) + if job.RunTask? then [job.t] else []
  }

  lemma {:induction false} WaitingFirst(queue: seq<Job>)
    requires queue != []
    ensures Waiting(queue) == (if queue[0].RunTask? then [queue[0].t] else []) + Waiting(queue[1..])
    decreases |queue|
  {
    if |queue| > 1 {
      var front := queue[..|queue| - 1];
      WaitingFirst(front);
      assert queue[1..][..|queue| - 2] == front[1..];
    }
  }

  lemma {:induction false} WaitingStops(queue: seq<Job>, n: nat)
    ensures Waiting(queue + seq(n, _ => StopTask)) == Waiting(queue)
  {
    var stops := seq(n, _ => StopTask);
    if n == 0 {
      assert queue + stops == queue;
    } else {
      WaitingStops(queue, n - 1);
      assert (queue + stops)[..|queue| + n - 1] == queue + seq(n - 1, _ => StopTask);
    }
  }
  lemma Appends(log: seq<Event>, e: Event, queue: seq<Job>, job: Job)
    ensures Submissions(log + [e]) == Submissions(log) + if e.Submitted? then [e.t] else []
    ensures Waiting(queue + [job]) == Waiting(queue) + if job.RunTask? then [job.t] else []
  {
    assert (log + [e])[..|log|] == log && (queue + [job])[..|queue|] == queue;
  }

  // The tasks submitted are those started and those waiting, in this order.
  ghost predicate InOrder(log: seq<Event>, queue: seq<Job>, started: seq<Task>) {
    Submissions(log) == started + Waiting(queue)
  }

  // What a step does to the log and the queue.
  datatype Change = Same | Adds(t: Task) | Starts | Ends(t: Task) | Stops(n: nat)

  ghost function LogAfter(log: seq<Event>, c: Change): seq<Event> {
    match c
    case Adds(t) => log + [Submitted(t)]
    case Ends(t) => log + [DidReturn(t)]
    case _ => log
  }

  ghost function QueueAfter(queue: seq<Job>, c: Change): seq<Job>
    requires c.Starts? ==> queue != []
  {
    match c
    case Adds(t) => queue + [RunTask(t)]
    case Starts => queue[1..]
    case Stops(n) => queue + seq(n, _ => StopTask)
    case _ => queue
  }

  ghost function Begun(queue: seq<Job>, c: Change): seq<Task>
    requires c.Starts? ==> queue != []
  {
    if c.Starts? && queue[0].RunTask? then [queue[0].t] else []
  }

  lemma OrderKept(log: seq<Event>, queue: seq<Job>, started: seq<Task>, c: Change)
    requires InOrder(log, queue, started) && (c.Starts? ==> queue != [])
    ensures InOrder(LogAfter(log, c), QueueAfter(queue, c), started + Begun(queue, c))
  {
    match c
    case Same =>
    case Adds(t) => AddKeepsOrder(log, queue, started, t);
    case Starts => StartKeepsOrder(log, queue, started);
    case Ends(t) => EndKeepsOrder(log, queue, started, t);
    case Stops(n) => WaitingStops(queue, n);
  }

  lemma AddKeepsOrder(log: seq<Event>, queue: seq<Job>, started: seq<Task>, t: Task)
    requires InOrder(log, queue, started)
    ensures InOrder(log + [Submitted(t)], queue + [RunTask(t)], started)
  {
    Appends(log, Submitted(t), queue, RunTask(t));
  }

  lemma StartKeepsOrder(log: seq<Event>, queue: seq<Job>, started: seq<Task>)
    requires InOrder(log, queue, started) && queue != []
    ensures InOrder(log, queue[1..], started + Begun(queue, Starts))
  {
    WaitingFirst(queue);
  }

  lemma EndKeepsOrder(log: seq<Event>, queue: seq<Job>, started: seq<Task>, t: Task)
    requires InOrder(log, queue, started)
    ensures InOrder(log + [DidReturn(t)], queue, started)
  {
    Appends(log, DidReturn(t), queue, StopTask);
  }

  // The task an action makes some worker start.
  ghost function StartedBy(s: State, a: Action): seq<Task>
    requires Enabled(s, a)
  {
    if a.Take? && Apply(s, a).workers[a.w].Running? then [Apply(s, a).workers[a.w].t] else []
  }

  lemma ChangeOf(s: State, a: Action) returns (c: Change)
    requires Enabled(s, a)
    ensures c.Starts? ==> s.queue != []
    ensures Apply(s, a).log == LogAfter(s.log, c) && Apply(s, a).queue == QueueAfter(s.queue, c)
    ensures StartedBy(s, a) == Begun(s.queue, c)
  {
    match a
    case SubmitNew => c := Adds(|s.tasks|);
    case Then(h) => c := if s.tasks[h].complete then Adds(|s.tasks|) else Same;
    case Check(_) => c := Same;
    case Take(_) => c := Starts;
    case Return(w) => c := if s.workers[w].Running? then Ends(s.workers[w].t) else Same;
    case Finish(w) =>
      var next := s.tasks[s.workers[w].t].continuation;
      c := if next.Some? then Adds(next.value) else Same;
    case SetStop => c := Same;
    case QueueStops => c := Stops(|s.workers|);
  }

  // Main result: the pool starts tasks in the order in which they are submitted ...
  lemma {:induction false} FirstInFirstOut(states: seq<State>, actions: seq<Action>, k: nat)
    requires Run(states, actions) && k < |states|
    ensures InOrder(states[k].log, states[k].queue, Started(states, actions, k))
  {
    if k > 0 {
      var s, a := states[k - 1], actions[k - 1];
      FirstInFirstOut(states, actions, k - 1);
      assert Step(s, a, states[k]);
      var c := ChangeOf(s, a);
      OrderKept(s.log, s.queue, Started(states, actions, k - 1), c);
      StartedMore(states, actions, k);
    }
  }

  lemma StartedMore(states: seq<State>, actions: seq<Action>, k: nat)
    requires 0 < k < |states| == |actions| + 1 && Step(states[k - 1], actions[k - 1], states[k])
    ensures Started(states, actions, k)
            == Started(states, actions, k - 1) + StartedBy(states[k - 1], actions[k - 1])
  {
  }

  lemma CreatedBy(s: State, a: Action)
    requires Enabled(s, a)
    ensures Apply(s, a).after == s.after + match a case SubmitNew => [None] case Then(h) => [Some(h)] case _ => []
    ensures |s.tasks| == |s.after| ==> |Apply(s, a).tasks| == |Apply(s, a).after|
  {
  }

  // ... and the tasks are those the clients created.
  lemma {:induction false} TasksAreCreated(states: seq<State>, actions: seq<Action>, k: nat)
    requires Run(states, actions) && k < |states|
    ensures states[k].after == Created(actions[..k]) && |states[k].tasks| == |states[k].after|
  {
    if k > 0 {
      TasksAreCreated(states, actions, k - 1);
      assert Step(states[k - 1], actions[k - 1], states[k]);
      assert actions[..k][..k - 1] == actions[..k - 1];
      CreatedBy(states[k - 1], actions[k - 1]);
    }
  }

  // ----- shutdown

  // Once the stop tasks are queued there are at least as many jobs as workers
  // that may still take one.
  ghost predicate StopsOk(s: State) {
    s.stopsQueued ==> s.stop && multiset(s.workers)[Taking] <= |s.queue|
  }

  lemma AtMostAll(workers: seq<Phase>, p: Phase)
    ensures multiset(workers)[p] <= |workers|
  {
    assert |multiset(workers)| == |workers|;
    var m := multiset(workers);
    assert m == (m - multiset{p}[p := m[p]]) + multiset{p}[p := m[p]];
  }

  lemma StopsKept(s: State, a: Action)
    requires StopsOk(s) && Enabled(s, a)
    ensures StopsOk(Apply(s, a))
  {
    if a.QueueStops? {
      AtMostAll(s.workers, Taking);
    } else if WorkerStep(a) {
      WorkerStepCounts(s, a);
    }
  }

  // Only a worker that takes a job shortens the queue, and it is then no
  // longer about to take one; with the flag set no worker comes to take one.
  lemma WorkerStepCounts(s: State, a: Action)
    requires Enabled(s, a) && WorkerStep(a)
    ensures var s' := Apply(s, a);
      && s'.stop == s.stop && s'.stopsQueued == s.stopsQueued
      && (s.stop ==> multiset(s'.workers)[Taking] + |s.queue| <= multiset(s.workers)[Taking] + |s'.queue|)
  {
    PhaseMoves(s.workers, a.w, Apply(s, a).workers[a.w]);
  }

  lemma PhaseMoves(workers: seq<Phase>, w: nat, p: Phase)
    requires w < |workers|
    ensures multiset(workers[w := p])[Taking] == multiset(workers)[Taking]
              - (if workers[w] == Taking then 1 else 0) + (if p == Taking then 1 else 0)
  {
  }

  // No worker can then wait on an empty queue for ever.
  lemma NoWorkerStarves(states: seq<State>, actions: seq<Action>, k: nat, w: nat)
    requires Run(states, actions) && k < |states| && states[k].stopsQueued
    requires w < |states[k].workers| && states[k].workers[w].Taking?
    ensures Enabled(states[k], Take(w))
  {
    RunKeepsInv(states, actions, k);
    assert states[k].workers[w] in multiset(states[k].workers);
  }

  function Rank(p: Phase): nat {
    match p
    case Taking => 4
    case Running(_) => 3
    case Returned(_) => 2
    case Stopping => 2
    case LoopHead => 1
    case Exited => 0
  }

  function Total(workers: seq<Phase>, rank: Phase -> nat): nat {
    if workers == [] then 0 else rank(workers[0]) + Total(workers[1..], rank)
  }

  lemma {:induction false} TotalUpdate(workers: seq<Phase>, rank: Phase -> nat, w: nat, p: Phase)
    requires w < |workers|
    ensures Total(workers[w := p], rank) + rank(workers[w]) == Total(workers, rank) + rank(p)
    decreases |workers|
  {
    if w > 0 {
      TotalUpdate(workers[1..], rank, w - 1, p);
      assert workers[w := p][1..] == workers[1..][w - 1 := p];
    } else {
      assert workers[w := p][1..] == workers[1..];
    }
  }

  predicate WorkerStep(a: Action) {
    a.Check? || a.Take? || a.Return? || a.Finish?
  }

  // How many of the steps i to k - 1 are steps of workers.
  function WorkerSteps(actions: seq<Action>, i: nat, k: nat): nat
    requires k <= |actions|
    decreases k
  {
    if k <= i then 0 else WorkerSteps(actions, i, k - 1) + (if WorkerStep(actions[k - 1]) then 1 else 0)
  }

  lemma StepRank(s: State, a: Action)
    requires Enabled(s, a) && s.stop
    ensures Total(Apply(s, a).workers, Rank) + (if WorkerStep(a) then 1 else 0) <= Total(s.workers, Rank)
    ensures Apply(s, a).stop && |Apply(s, a).workers| == |s.workers|
  {
    if WorkerStep(a) { TotalUpdate(s.workers, Rank, a.w, Apply(s, a).workers[a.w]); }
  }

  // From the moment the stop flag is set the workers together make at most as
  // many more steps as their phases allow, at most four each.
  lemma {:induction false} ShutdownIsBounded(states: seq<State>, actions: seq<Action>, i: nat, k: nat)
    requires Run(states, actions) && i <= k < |states| && states[i].stop
    ensures states[k].stop
    ensures Total(states[k].workers, Rank) + WorkerSteps(actions, i, k) <= Total(states[i].workers, Rank)
    decreases k
  {
    if i < k {
      ShutdownIsBounded(states, actions, i, k - 1);
      assert Step(states[k - 1], actions[k - 1], states[k]);
      StepRank(states[k - 1], actions[k - 1]);
    }
  }

  // And until all have exited one of them can move: the joins return.
  lemma ShutdownProgresses(states: seq<State>, actions: seq<Action>, k: nat, w: nat)
    requires Run(states, actions) && k < |states| && states[k].stopsQueued
    requires w < |states[k].workers| && !states[k].workers[w].Exited?
    ensures exists a :: WorkerStep(a) && a.w == w && Enabled(states[k], a)
  {
    RunKeepsInv(states, actions, k);
    var s := states[k];
    assert s.workers[w] in s.workers;
    match s.workers[w]
    case LoopHead => assert Enabled(s, Check(w));
    case Taking => NoWorkerStarves(states, actions, k, w);
    case Running(_) => assert Enabled(s, Return(w));
    case Stopping => assert Enabled(s, Return(w));
    case Returned(_) => assert Enabled(s, Finish(w));
  }
}
