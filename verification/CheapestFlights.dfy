// DirectGraph::findCheapestPrice of leetcode/Graph.cpp: at most K+1 rounds of
// relaxation, each from the vertices touched in the round before.

// Flights, routes and what one round of relaxation does.
module FlightRounds {
  import opened Arithmetic

  const UNREACHED := 0x7FFF_FFFF / 2   // INT_MAX / 2

  datatype Flight = Flight(from: nat, to: nat, fare: int)

  // A route, last flight first.
  datatype Route = Stay | Fly(before: Route, flight: Flight)

  ghost predicate IsRoute(flights: set<Flight>, src: nat, t: nat, r: Route)
    decreases r
  {
    match r
    case Stay => src == t
    case Fly(before, f) => f in flights && f.to == t && IsRoute(flights, src, f.from, before)
  }

  ghost function Hops(r: Route): nat {
    match r
    case Stay => 0
    case Fly(before, _) => 1 + Hops(before)
  }

  ghost function Fare(r: Route): int {
    match r
    case Stay => 0
    case Fly(before, f) => Fare(before) + f.fare
  }

  ghost predicate NoNegativeFare(flights: set<Flight>) {
    forall f :: f in flights ==> f.fare >= 0
  }

  ghost predicate HasRoute(flights: set<Flight>, src: nat, t: nat, hops: nat, fare: int) {
    exists r :: IsRoute(flights, src, t, r) && Hops(r) <= hops && Fare(r) == fare
  }

  // The promised answer: the least fare below INT_MAX / 2 over all routes of at
  // most `hops` flights, or -1 when there is none.
  ghost predicate IsCheapest(flights: set<Flight>, src: nat, dst: nat, hops: nat, answer: int) {
    if answer == -1 then
      forall r :: IsRoute(flights, src, dst, r) && Hops(r) <= hops ==> Fare(r) >= 1_073_741_823
    else
      && answer < 1_073_741_823
      && HasRoute(flights, src, dst, hops, answer)
      && forall r :: IsRoute(flights, src, dst, r) && Hops(r) <= hops ==> answer <= Fare(r)
  }

  // The loop `for (int i = 0; i <= K ...)` makes this many rounds at most.
  function MaxRounds(k: int): nat {
    if k < 0 then 0 else k + 1
  }

  // ---- one round --------------------------------------------------------

  type Adjacency = seq<seq<Flight>>

  // Each list holds flights out of its own city; where they lead is open,
  // because cities can be dropped by a later call.
  ghost predicate Outgoing(adj: Adjacency) {
    forall s, i :: 0 <= s < |adj| && 0 <= i < |adj[s]| ==> adj[s][i].from == s
  }

  ghost predicate Within(flights: set<Flight>, n: nat) {
    forall f :: f in flights ==> f.from < n && f.to < n
  }

  ghost function From(adj: Adjacency, q: set<nat>): set<Flight> {
    set s, i | s in q && s < |adj| && 0 <= i < |adj[s]| :: adj[s][i]
  }

  ghost function All(adj: Adjacency): set<Flight> {
    set s, i | 0 <= s < |adj| && 0 <= i < |adj[s]| :: adj[s][i]
  }

  // dist' improves on dist by exactly the flights `used`, each taken from its
  // origin's old distance; q' holds their destinations other than dst.
  ghost predicate IsRound(used: set<Flight>, dist: seq<int>, dst: nat, dist': seq<int>, q': set<nat>) {
    && |dist'| == |dist|
    && Within(used, |dist|)
    && (forall v :: 0 <= v < |dist| ==> dist'[v] <= dist[v])
    && (forall f :: f in used ==> dist'[f.to] <= dist[f.from] + f.fare)
    && (forall v {:trigger Explained(used, dist, dist', v)} :: 0 <= v < |dist| ==> Explained(used, dist, dist', v))
    && (forall v :: v in q' ==> v != dst && Touched(used, v))
    && (forall f :: f in used && f.to != dst ==> f.to in q')
  }

  ghost predicate Touched(used: set<Flight>, v: nat) {
    exists f :: f in used && f.to == v
  }

  ghost predicate Explained(used: set<Flight>, dist: seq<int>, dist': seq<int>, v: nat)
    requires v < |dist| == |dist'|
  {
    dist'[v] == dist[v]
    || exists f :: f in used && f.to == v && f.from < |dist| && dist'[v] == dist[f.from] + f.fare
  }

  datatype Stage = Stage(dist: seq<int>, q: set<nat>)

  ghost predicate NextStage(adj: Adjacency, dst: nat, a: Stage, b: Stage) {
    a.q != {} && IsRound(From(adj, a.q), a.dist, dst, b.dist, b.q)
  }

  // The stages of a search from `start` with frontier {src}.
  ghost predicate Rounds(adj: Adjacency, start: seq<int>, src: nat, dst: nat, stages: seq<Stage>) {
    && stages != [] && stages[0] == Stage(start, {src})
    && forall i :: 0 < i < |stages| ==> NextStage(adj, dst, stages[i - 1], stages[i])
  }

  // The distances when the loop stops: after k rounds, or with nothing left to
  // relax.
  ghost predicate RunsTo(adj: Adjacency, start: seq<int>, src: nat, dst: nat, k: nat, final: seq<int>) {
    exists stages: seq<Stage> :: StopsWith(adj, start, src, dst, k, stages, final)
  }

  ghost predicate StopsWith(adj: Adjacency, start: seq<int>, src: nat, dst: nat, k: nat,
                            stages: seq<Stage>, final: seq<int>) {
    && Rounds(adj, start, src, dst, stages)
    && |stages| - 1 <= k
    && final == stages[|stages| - 1].dist
    && (|stages| - 1 == k || stages[|stages| - 1].q == {})
  }

  lemma RoundAdds(used: set<Flight>, dist: seq<int>, dst: nat, d: seq<int>, q: set<nat>, f: Flight)
    requires IsRound(used, dist, dst, d, q) && f.from < |dist| && f.to < |dist|
    ensures var d' := d[f.to := Min(d[f.to], dist[f.from] + f.fare)];
      IsRound(used + {f}, dist, dst, d', if f.to != dst then q + {f.to} else q)
  {
    var d', used' := d[f.to := Min(d[f.to], dist[f.from] + f.fare)], used + {f};
    forall v | 0 <= v < |dist| ensures Explained(used', dist, d', v) {
      assert Explained(used, dist, d, v);
      assert f in used';
    }
    var q' := if f.to != dst then q + {f.to} else q;
    forall v | v in q'
      ensures v != dst && Touched(used', v)
    {
      if v in q {
        assert Touched(used, v);
        var g :| g in used && g.to == v;
        assert g in used';
      } else {
        assert f in used';
      }
    }
  }

  // One flight, and several in order, taken from the distances `dist`.
  function RelaxFlight(f: Flight, dist: seq<int>, dst: nat, st: Stage): (r: Stage)
    requires f.from < |dist| && f.to < |dist| == |st.dist|
    ensures |r.dist| == |dist|
  {
    Stage(st.dist[f.to := Min(st.dist[f.to], dist[f.from] + f.fare)], if f.to != dst then st.q + {f.to} else st.q)
  }

  function RelaxFlights(flights: seq<Flight>, dist: seq<int>, dst: nat, st: Stage): (r: Stage)
    requires |dist| == |st.dist| && forall f :: f in flights ==> f.from < |dist| && f.to < |dist|
    ensures |r.dist| == |dist|
  {
    if flights == [] then st
    else RelaxFlight(flights[|flights| - 1], dist, dst, RelaxFlights(flights[..|flights| - 1], dist, dst, st))
  }

  ghost function Given(flights: seq<Flight>): set<Flight> {
    set f | f in flights
  }

  lemma GivenAppended(front: seq<Flight>, f: Flight, done: set<Flight>)
    ensures done + Given(front + [f]) == done + Given(front) + {f}
  {
  }

  lemma FlightAdds(f: Flight, dist: seq<int>, dst: nat, st: Stage, used: set<Flight>, used': set<Flight>)
    requires f.from < |dist| && f.to < |dist| == |st.dist| && used' == used + {f}
    requires IsRound(used, dist, dst, st.dist, st.q)
    ensures var r := RelaxFlight(f, dist, dst, st); IsRound(used', dist, dst, r.dist, r.q)
  {
    RoundAdds(used, dist, dst, st.dist, st.q, f);
  }

  lemma {:induction false} FlightsAdd(flights: seq<Flight>, dist: seq<int>, dst: nat, st: Stage, done: set<Flight>)
    requires |dist| == |st.dist| && forall f :: f in flights ==> f.from < |dist| && f.to < |dist|
    requires IsRound(done, dist, dst, st.dist, st.q)
    ensures var r := RelaxFlights(flights, dist, dst, st);
      IsRound(done + Given(flights), dist, dst, r.dist, r.q)
    decreases |flights|
  {
    if flights == [] {
      assert done + Given(flights) == done;
    } else {
      var (front, f) := (flights[..|flights| - 1], flights[|flights| - 1]);
      assert flights == front + [f];
      FlightsAdd(front, dist, dst, st, done);
      GivenAppended(front, f, done);
      FlightAdds(f, dist, dst, RelaxFlights(front, dist, dst, st), done + Given(front), done + Given(flights));
    }
  }

  // The flights out of one vertex.
  method RelaxFrom(adj: Adjacency, s: nat, dist: seq<int>, dst: nat, d: seq<int>, q: set<nat>)
    returns (d': seq<int>, q': set<nat>)
    requires |d| == |dist| == |adj| && s < |adj|
    requires forall f :: f in adj[s] ==> f.from == s && f.to < |adj|
    ensures Stage(d', q') == RelaxFlights(adj[s], dist, dst, Stage(d, q))
  {
    d', q' := d, q;
    for i := 0 to |adj[s]|
      invariant |d'| == |dist| && Stage(d', q') == RelaxFlights(adj[s][..i], dist, dst, Stage(d, q))
    {
      var f := adj[s][i];
      assert adj[s][..i + 1][..i] == adj[s][..i];
      d' := d'[f.to := Min(d'[f.to], dist[s] + f.fare)];
      if f.to != dst {
        q' := q' + {f.to};
      }
    }
    assert adj[s][..|adj[s]|] == adj[s];
  }

  lemma FromOneMore(adj: Adjacency, q: set<nat>, s: nat)
    requires s < |adj|
    ensures From(adj, q + {s}) == From(adj, q) + Given(adj[s])
  {
    forall f | f in From(adj, q) + Given(adj[s]) ensures f in From(adj, q + {s}) {
      if f in From(adj, q) {
        var t, i :| t in q && t < |adj| && 0 <= i < |adj[t]| && adj[t][i] == f;
        assert t in q + {s};
      }
    }
  }

  lemma FlightsOut(adj: Adjacency, q: set<nat>, s: nat)
    requires Outgoing(adj) && Within(From(adj, q), |adj|) && s in q && s < |adj|
    ensures forall f :: f in adj[s] ==> f.from == s && f.to < |adj|
  {
    forall f | f in adj[s] ensures f.from == s && f.to < |adj| {
      var i :| 0 <= i < |adj[s]| && adj[s][i] == f;
      assert f in From(adj, q);
    }
  }

  method Round(adj: Adjacency, dist: seq<int>, q: set<nat>, dst: nat) returns (dist': seq<int>, q': set<nat>)
    requires Outgoing(adj) && |dist| == |adj| && Within(From(adj, q), |adj|) && forall s :: s in q ==> s < |adj|
    ensures IsRound(From(adj, q), dist, dst, dist', q')
  {
    dist', q' := dist, {};
    var todo := q;
    ghost var done: set<nat> := {};
    assert From(adj, done) == {};
    while todo != {}
      invariant done + todo == q
      invariant IsRound(From(adj, done), dist, dst, dist', q')
      decreases todo
    {
      var s :| s in todo;
      FlightsOut(adj, q, s);
      FlightsAdd(adj[s], dist, dst, Stage(dist', q'), From(adj, done));
      dist', q' := RelaxFrom(adj, s, dist, dst, dist', q');
      FromOneMore(adj, done, s);
      todo := todo - {s};
      done := done + {s};
    }
    assert done == q;
  }

  // No way point after the start is dst.
  ghost predicate Direct(r: Route, dst: nat) {
    match r
    case Stay => true
    case Fly(before, f) => Direct(before, dst) && (before == Stay || f.from != dst)
  }

  ghost predicate DirectRoute(flights: set<Flight>, src: nat, dst: nat, hops: nat, v: nat, r: Route) {
    IsRoute(flights, src, v, r) && Direct(r, dst) && Hops(r) <= hops
  }

  // No direct route of at most `hops` flights leaves the cities below n.
  ghost predicate StaysWithin(flights: set<Flight>, src: nat, dst: nat, hops: nat, n: nat) {
    forall v: nat, r :: DirectRoute(flights, src, dst, hops, v, r) ==> v < n
  }

  lemma WithinStays(flights: set<Flight>, src: nat, dst: nat, hops: nat, n: nat)
    requires Within(flights, n) && src < n
    ensures StaysWithin(flights, src, dst, hops, n)
  {
    forall v: nat, r | DirectRoute(flights, src, dst, hops, v, r) ensures v < n {}
  }

  // ---- what rounds compute, from any distances at the start ------------------

  ghost function At(start: seq<int>, v: nat): int {
    if v < |start| then start[v] else UNREACHED
  }

  // The least, over the points on a route to v, of the distance at that point
  // plus the fare of the rest of the route.
  ghost function Carried(start: seq<int>, v: nat, r: Route): int
    decreases r
  {
    match r
    case Stay => At(start, v)
    case Fly(before, f) => Min(At(start, v), Carried(start, f.from, before) + f.fare)
  }

  ghost predicate Carries(flights: set<Flight>, start: seq<int>, src: nat, dst: nat, hops: nat, v: nat, c: int) {
    c == At(start, v) || exists r :: DirectRoute(flights, src, dst, hops, v, r) && c == Carried(start, v, r)
  }

  // c is the least of the starting distance and what direct routes carry to v.
  ghost predicate IsLeast(flights: set<Flight>, start: seq<int>, src: nat, dst: nat, hops: nat, v: nat, c: int) {
    && Carries(flights, start, src, dst, hops, v, c)
    && c <= At(start, v)
    && forall r :: DirectRoute(flights, src, dst, hops, v, r) ==> c <= Carried(start, v, r)
  }

  // The frontier after i rounds: the ends of the direct routes of exactly i
  // flights, but not dst.
  ghost predicate Frontier(flights: set<Flight>, src: nat, dst: nat, i: nat, q: set<nat>) {
    forall v :: v in q ==> FrontRoute(flights, src, dst, i, v)
  }

  ghost predicate FrontRoute(flights: set<Flight>, src: nat, dst: nat, i: nat, v: nat) {
    (v != dst || i == 0) && exists r :: DirectRoute(flights, src, dst, i, v, r) && Hops(r) == i
  }

  lemma FrontierMoves(adj: Adjacency, src: nat, dst: nat, i: nat, q: set<nat>, used: set<Flight>, q1: set<nat>)
    requires Outgoing(adj) && Frontier(All(adj), src, dst, i, q) && used == From(adj, q)
    requires forall v :: v in q1 ==> v != dst && Touched(used, v)
    ensures Frontier(All(adj), src, dst, i + 1, q1)
  {
    forall v | v in q1 ensures FrontRoute(All(adj), src, dst, i + 1, v) {
      var f :| f in used && f.to == v;
      var r := FrontFlight(adj, src, dst, i, q, f);
    }
  }

  // A flight out of the frontier prolongs a direct route.
  lemma FrontFlight(adj: Adjacency, src: nat, dst: nat, i: nat, q: set<nat>, f: Flight) returns (r: Route)
    requires Outgoing(adj) && Frontier(All(adj), src, dst, i, q) && f in From(adj, q)
    ensures f in All(adj) && f.from in q && f.from < |adj|
    ensures DirectRoute(All(adj), src, dst, i, f.from, r) && Hops(r) == i
    ensures DirectRoute(All(adj), src, dst, i + 1, f.to, Fly(r, f))
  {
    var s, j :| s in q && s < |adj| && 0 <= j < |adj[s]| && adj[s][j] == f;
    assert FrontRoute(All(adj), src, dst, i, s);
    r :| DirectRoute(All(adj), src, dst, i, s, r) && Hops(r) == i;
  }

  lemma FrontierWithin(adj: Adjacency, src: nat, dst: nat, i: nat, q: set<nat>, hops: nat)
    requires Outgoing(adj) && Frontier(All(adj), src, dst, i, q) && i < hops
    requires StaysWithin(All(adj), src, dst, hops, |adj|)
    ensures Within(From(adj, q), |adj|)
    ensures forall v :: v in q ==> v < |adj|
  {
    forall f | f in From(adj, q) ensures f.from < |adj| && f.to < |adj| {
      var r := FrontFlight(adj, src, dst, i, q, f);
      assert DirectRoute(All(adj), src, dst, hops, f.to, Fly(r, f));
    }
    forall v | v in q ensures v < |adj| {
      assert FrontRoute(All(adj), src, dst, i, v);
      var r :| DirectRoute(All(adj), src, dst, i, v, r) && Hops(r) == i;
      assert DirectRoute(All(adj), src, dst, hops, v, r);
    }
  }

  // What holds after i rounds.
  ghost predicate RouteBound(flights: set<Flight>, start: seq<int>, src: nat, dst: nat, i: nat, dist: seq<int>,
                             q: set<nat>, v: nat, r: Route) {
    IsRoute(flights, src, v, r) && Direct(r, dst) && v < |dist| ==>
      && (Hops(r) <= i ==> dist[v] <= Carried(start, v, r))
      && (Hops(r) == i && (v != dst || i == 0) ==> v in q)
  }

  ghost predicate AfterRounds(flights: set<Flight>, start: seq<int>, src: nat, dst: nat, i: nat,
                              dist: seq<int>, q: set<nat>) {
    && |dist| == |start| && Frontier(flights, src, dst, i, q)
    && (forall v :: 0 <= v < |dist| ==> dist[v] <= start[v])
    && (forall v: nat {:trigger Carries(flights, start, src, dst, i, v, dist[v])} ::
          v < |dist| ==> Carries(flights, start, src, dst, i, v, dist[v]))
    && (forall v, r {:trigger RouteBound(flights, start, src, dst, i, dist, q, v, r)} ::
          RouteBound(flights, start, src, dst, i, dist, q, v, r))
  }

  lemma AtStart(flights: set<Flight>, start: seq<int>, src: nat, dst: nat)
    ensures AfterRounds(flights, start, src, dst, 0, start, {src})
  {
    assert DirectRoute(flights, src, dst, 0, src, Stay) && Hops(Stay) == 0;
    assert FrontRoute(flights, src, dst, 0, src);
    forall v, r ensures RouteBound(flights, start, src, dst, 0, start, {src}, v, r) {}
  }

  lemma RoundKeepsSound(adj: Adjacency, start: seq<int>, src: nat, dst: nat, i: nat, dist: seq<int>, q: set<nat>,
                        d1: seq<int>, q1: set<nat>, v: nat)
    requires Outgoing(adj) && |dist| == |adj| && AfterRounds(All(adj), start, src, dst, i, dist, q)
    requires IsRound(From(adj, q), dist, dst, d1, q1) && v < |dist|
    ensures Carries(All(adj), start, src, dst, i + 1, v, d1[v])
  {
    assert Explained(From(adj, q), dist, d1, v);
    assert Carries(All(adj), start, src, dst, i, v, dist[v]);
    if d1[v] == dist[v] {
      if dist[v] != At(start, v) {
        var r :| DirectRoute(All(adj), src, dst, i, v, r) && dist[v] == Carried(start, v, r);
        assert DirectRoute(All(adj), src, dst, i + 1, v, r);
      }
    } else {
      var f :| f in From(adj, q) && f.to == v && f.from < |dist| && d1[v] == dist[f.from] + f.fare;
      var r := RouteTo(adj, start, src, dst, i, dist, q, f);
      assert DirectRoute(All(adj), src, dst, i + 1, v, Fly(r, f));
    }
  }

  // The distance at a city of the frontier is what some direct route carries.
  lemma RouteTo(adj: Adjacency, start: seq<int>, src: nat, dst: nat, i: nat, dist: seq<int>, q: set<nat>,
                f: Flight) returns (r: Route)
    requires Outgoing(adj) && |dist| == |adj| && AfterRounds(All(adj), start, src, dst, i, dist, q)
    requires f in From(adj, q)
    ensures f.from < |dist| && DirectRoute(All(adj), src, dst, i + 1, f.to, Fly(r, f))
    ensures dist[f.from] == Carried(start, f.from, r)
  {
    r := FrontFlight(adj, src, dst, i, q, f);
    var s := f.from;
    assert Carries(All(adj), start, src, dst, i, s, dist[s]);
    assert RouteBound(All(adj), start, src, dst, i, dist, q, s, r);
    if dist[s] != At(start, s) {
      assert FrontRoute(All(adj), src, dst, i, s);
      r :| DirectRoute(All(adj), src, dst, i, s, r) && dist[s] == Carried(start, s, r);
    }
  }

  lemma RoundKeepsBound(adj: Adjacency, start: seq<int>, src: nat, dst: nat, i: nat, dist: seq<int>, q: set<nat>,
                        d1: seq<int>, q1: set<nat>, v: nat, r: Route)
    requires Outgoing(adj) && |dist| == |adj| && AfterRounds(All(adj), start, src, dst, i, dist, q)
    requires IsRound(From(adj, q), dist, dst, d1, q1)
    ensures RouteBound(All(adj), start, src, dst, i + 1, d1, q1, v, r)
  {
    assert RouteBound(All(adj), start, src, dst, i, dist, q, v, r);
    match r
    case Stay =>
    case Fly(before, f) =>
      assert RouteBound(All(adj), start, src, dst, i, dist, q, f.from, before);
      if IsRoute(All(adj), src, v, r) && Direct(r, dst) && Hops(r) == i + 1 {
        var s, j :| 0 <= s < |adj| && 0 <= j < |adj[s]| && adj[s][j] == f;
        assert f.from in q;
        assert f in From(adj, q);
      }
  }

  lemma RoundKeeps(adj: Adjacency, start: seq<int>, src: nat, dst: nat, i: nat, dist: seq<int>, q: set<nat>,
                   d1: seq<int>, q1: set<nat>)
    requires Outgoing(adj) && |dist| == |adj| && AfterRounds(All(adj), start, src, dst, i, dist, q)
    requires IsRound(From(adj, q), dist, dst, d1, q1)
    ensures AfterRounds(All(adj), start, src, dst, i + 1, d1, q1)
  {
    FrontierMoves(adj, src, dst, i, q, From(adj, q), q1);
    forall v: nat | v < |d1| ensures Carries(All(adj), start, src, dst, i + 1, v, d1[v]) {
      RoundKeepsSound(adj, start, src, dst, i, dist, q, d1, q1, v);
    }
    var j := i + 1;
    forall v, r ensures RouteBound(All(adj), start, src, dst, j, d1, q1, v, r) {
      RoundKeepsBound(adj, start, src, dst, i, dist, q, d1, q1, v, r);
    }
  }

  // With an empty frontier there is no longer direct route.
  lemma {:induction false} NoLongerRoute(adj: Adjacency, start: seq<int>, src: nat, dst: nat, i: nat,
                                         dist: seq<int>, v: nat, r: Route)
    requires Outgoing(adj) && |dist| == |adj| && src < |adj|
    requires AfterRounds(All(adj), start, src, dst, i, dist, {})
    requires IsRoute(All(adj), src, v, r) && Direct(r, dst)
    ensures Hops(r) <= i
    decreases r
  {
    match r
    case Stay =>
    case Fly(before, f) =>
      var s, j :| 0 <= s < |adj| && 0 <= j < |adj[s]| && adj[s][j] == f;
      NoLongerRoute(adj, start, src, dst, i, dist, f.from, before);
      assert RouteBound(All(adj), start, src, dst, i, dist, {}, f.from, before);
  }

  lemma {:induction false} StageKeeps(adj: Adjacency, start: seq<int>, src: nat, dst: nat, stages: seq<Stage>, i: nat)
    requires Outgoing(adj) && |start| == |adj| && Rounds(adj, start, src, dst, stages) && i < |stages|
    ensures AfterRounds(All(adj), start, src, dst, i, stages[i].dist, stages[i].q)
    decreases i
  {
    if i == 0 {
      AtStart(All(adj), start, src, dst);
    } else {
      StageKeeps(adj, start, src, dst, stages, i - 1);
      var a, b := stages[i - 1], stages[i];
      assert NextStage(adj, dst, a, b);
      RoundKeeps(adj, start, src, dst, i - 1, a.dist, a.q, b.dist, b.q);
    }
  }

  // Main result: whatever the distances at the start, a run ends with the least
  // that direct routes of at most k flights carry.
  lemma RunSettles(adj: Adjacency, start: seq<int>, src: nat, dst: nat, k: nat, final: seq<int>, v: nat)
    requires Outgoing(adj) && |start| == |adj| && src < |adj| && v < |adj|
    requires RunsTo(adj, start, src, dst, k, final)
    ensures |final| == |adj| && IsLeast(All(adj), start, src, dst, k, v, final[v])
  {
    var stages: seq<Stage> :| StopsWith(adj, start, src, dst, k, stages, final);
    var (i, q) := (|stages| - 1, stages[|stages| - 1].q);
    StageKeeps(adj, start, src, dst, stages, i);
    StageSettles(adj, start, src, dst, i, final, q, k, v);
  }

  lemma StageSettles(adj: Adjacency, start: seq<int>, src: nat, dst: nat, i: nat, final: seq<int>, q: set<nat>,
                     k: nat, v: nat)
    requires Outgoing(adj) && |final| == |adj| && src < |adj| && AfterRounds(All(adj), start, src, dst, i, final, q)
    requires i <= k && (i == k || q == {}) && v < |adj|
    ensures IsLeast(All(adj), start, src, dst, k, v, final[v])
  {
    assert Carries(All(adj), start, src, dst, i, v, final[v]);
    if final[v] != At(start, v) {
      var r :| DirectRoute(All(adj), src, dst, i, v, r) && final[v] == Carried(start, v, r);
      assert DirectRoute(All(adj), src, dst, k, v, r);
    }
    forall r | DirectRoute(All(adj), src, dst, k, v, r) ensures final[v] <= Carried(start, v, r) {
      assert RouteBound(All(adj), start, src, dst, i, final, q, v, r);
      if q == {} { NoLongerRoute(adj, start, src, dst, i, final, v, r); }
    }
  }
}

module CheapestFlights {
  import opened Arithmetic
  import opened FlightRounds

  // vector::resize
  function ResizedLists(adj: Adjacency, n: nat): (r: Adjacency)
    ensures |r| == n
  {
    if |adj| <= n then adj + seq(n - |adj|, _ => []) else adj[..n]
  }

  function Resized(dist: seq<int>, n: nat): (r: seq<int>)
    ensures |r| == n
  {
    if |dist| <= n then dist + seq(n - |dist|, _ => UNREACHED) else dist[..n]
  }

  datatype Request = Request(n: nat, flights: seq<Flight>, src: nat, dst: nat, k: int)

  ghost predicate InRange(r: Request) {
    r.src < r.n && r.dst < r.n && Within(Given(r.flights), r.n)
  }

  // The flights a call works with: those kept and those given.
  ghost function Offered(adj: Adjacency, r: Request): set<Flight> {
    All(ResizedLists(adj, r.n)) + Given(r.flights)
  }

  // The search stays within the cities below n.  Otherwise the source writes
  // behind its arrays.
  ghost predicate IsSafe(adj: Adjacency, r: Request) {
    InRange(r) && StaysWithin(Offered(adj, r), r.src, r.dst, MaxRounds(r.k), r.n)
  }

  ghost function StartOf(dist: seq<int>, r: Request): (start: seq<int>)
    requires InRange(r)
    ensures |start| == r.n
  {
    Resized(dist, r.n)[r.src := 0]
  }

  // What a call does on an object with these fields.
  ghost predicate Gives(adj: Adjacency, dist: seq<int>, r: Request, adj': Adjacency, dist': seq<int>, price: int)
    requires InRange(r)
  {
    && |adj'| == |dist'| == r.n && Outgoing(adj')
    && All(adj') == Offered(adj, r)
    && RunsTo(adj', StartOf(dist, r), r.src, r.dst, MaxRounds(r.k), dist')
    && price == if dist'[r.dst] >= UNREACHED then -1 else dist'[r.dst]
  }

  // What calls without negative fares leave behind: among other things a city
  // at distance 0, the last start.
  ghost predicate IsUsed(adj: Adjacency, dist: seq<int>, last: nat) {
    && |adj| == |dist| && Outgoing(adj) && NoNegativeFare(All(adj))
    && last < |dist| && dist[last] == 0 && forall v :: 0 <= v < |dist| ==> dist[v] >= 0
  }

  class DirectGraph {
    var adjList: Adjacency
    var distTo: seq<int>   // both survive from one call to the next
    ghost var calls: nat
    ghost var last: nat    // the start of the last call

    ghost predicate Valid()
      reads this
    {
      if calls == 0 then adjList == [] && distTo == [] else IsUsed(adjList, distTo, last)
    }

    constructor ()
      ensures Valid() && calls == 0
    {
      adjList, distTo, calls := [], [], 0;
    }

    // The price is the least that direct routes of kept and given flights carry
    // from the distances kept, with the start at 0.
    method FindCheapestPrice(n: nat, flights: seq<Flight>, src: nat, dst: nat, k: int) returns (price: int)
      requires Outgoing(adjList) && IsSafe(adjList, Request(n, flights, src, dst, k))
      modifies this
      ensures calls == old(calls) + 1 && last == src && Outgoing(adjList)
      ensures Gives(old(adjList), old(distTo), Request(n, flights, src, dst, k), adjList, distTo, price)
      ensures PriceIsLeast(old(adjList), old(distTo), Request(n, flights, src, dst, k), price)
      ensures old(Valid()) && NoNegativeFare(Given(flights)) ==> Valid()
    {
      ghost var r := Request(n, flights, src, dst, k);
      AddFlights(n, flights);
      distTo := Resized(distTo, n);
      distTo := distTo[src := 0];
      Search(src, dst, k);
      price := if distTo[dst] >= UNREACHED then -1 else distTo[dst];
      calls, last := calls + 1, src;
      AnyObjectAnswers(old(adjList), old(distTo), r, adjList, distTo, price);
      if old(Valid()) && NoNegativeFare(Given(flights)) {
        CallLeavesUsed(old(adjList), old(distTo), old(last), r, adjList, distTo, price);
      }
    }

    method AddFlights(n: nat, flights: seq<Flight>)
      requires Outgoing(adjList) && Within(Given(flights), n)
      modifies this`adjList
      ensures |adjList| == n && Outgoing(adjList)
      ensures All(adjList) == All(ResizedLists(old(adjList), n)) + Given(flights)
    {
      adjList := ResizedLists(adjList, n);
      ghost var kept := All(adjList);
      for j := 0 to |flights|
        invariant |adjList| == n && Outgoing(adjList)
        invariant All(adjList) == kept + Given(flights[..j])
      {
        var f := flights[j];
        assert f in Given(flights);
        AddOneMore(adjList, kept, flights, j);
        adjList := adjList[f.from := adjList[f.from] + [f]];
      }
      assert flights[..|flights|] == flights;
    }

    method Search(src: nat, dst: nat, k: int)
      requires Outgoing(adjList) && |distTo| == |adjList| && src < |adjList|
      requires StaysWithin(All(adjList), src, dst, MaxRounds(k), |adjList|)
      modifies this`distTo
      ensures |distTo| == |adjList|
      ensures RunsTo(adjList, old(distTo), src, dst, MaxRounds(k), distTo)
    {
      var q: set<nat> := {src};
      var i := 0;
      ghost var stages := [Stage(distTo, q)];
      AtStart(All(adjList), distTo, src, dst);
      while i <= k && q != {}
        invariant 0 <= i <= MaxRounds(k) && |distTo| == |adjList| && Frontier(All(adjList), src, dst, i, q)
        invariant Rounds(adjList, old(distTo), src, dst, stages)
        invariant |stages| == i + 1 && stages[i] == Stage(distTo, q)
        decreases k - i
      {
        FrontierWithin(adjList, src, dst, i, q, MaxRounds(k));
        ghost var q0 := q;
        distTo, q := Round(adjList, distTo, q, dst);
        FrontierMoves(adjList, src, dst, i, q0, From(adjList, q0), q);
        stages := stages + [Stage(distTo, q)];
        i := i + 1;
      }
      assert StopsWith(adjList, old(distTo), src, dst, MaxRounds(k), stages, distTo);
    }

    // Exactly a new object answers every request right.
    lemma AnswersRightIffNew()
      requires Valid()
      ensures AnswersRight(adjList, distTo) <==> calls == 0
    {
      if calls == 0 {
        NewAnswersRight();
      } else {
        var r, adj', dist', price := UsedFails(adjList, distTo, last, 0);
      }
    }
  }

  lemma KeptFlights(adj: Adjacency, n: nat)
    ensures All(ResizedLists(adj, n)) <= All(adj)
    ensures |adj| <= n ==> All(ResizedLists(adj, n)) == All(adj)
    ensures Outgoing(adj) ==> Outgoing(ResizedLists(adj, n))
  {
    var adj' := ResizedLists(adj, n);
    forall g | g in All(adj') ensures g in All(adj) {
      var s, i :| 0 <= s < |adj'| && 0 <= i < |adj'[s]| && adj'[s][i] == g;
      assert adj[s][i] == g;
    }
    forall g | |adj| <= n && g in All(adj) ensures g in All(adj') {
      var s, i :| 0 <= s < |adj| && 0 <= i < |adj[s]| && adj[s][i] == g;
      assert adj'[s][i] == g;
    }
  }

  lemma GivenOneMore(flights: seq<Flight>, j: nat)
    requires j < |flights|
    ensures Given(flights[..j + 1]) == Given(flights[..j]) + {flights[j]}
  {
    assert flights[..j + 1] == flights[..j] + [flights[j]];
  }

  lemma AddFlight(adj: Adjacency, f: Flight)
    requires f.from < |adj|
    ensures All(adj[f.from := adj[f.from] + [f]]) == All(adj) + {f}
    ensures Outgoing(adj) ==> Outgoing(adj[f.from := adj[f.from] + [f]])
  {
    var adj' := adj[f.from := adj[f.from] + [f]];
    assert adj'[f.from][|adj[f.from]|] == f;
    forall g | g in All(adj) ensures g in All(adj') {
      var s, i :| 0 <= s < |adj| && 0 <= i < |adj[s]| && adj[s][i] == g;
      assert adj'[s][i] == g;
    }
    forall g | g in All(adj') ensures g in All(adj) + {f} {
      var s, i :| 0 <= s < |adj'| && 0 <= i < |adj'[s]| && adj'[s][i] == g;
      if i < |adj[s]| { assert adj[s][i] == g; }
    }
  }

  lemma AddOneMore(adj: Adjacency, kept: set<Flight>, flights: seq<Flight>, j: nat)
    requires j < |flights| && flights[j].from < |adj|
    requires Outgoing(adj) && All(adj) == kept + Given(flights[..j])
    ensures var (f, adj') := (flights[j], adj[flights[j].from := adj[flights[j].from] + [flights[j]]]);
      Outgoing(adj') && All(adj') == kept + Given(flights[..j + 1])
  {
    AddFlight(adj, flights[j]);
    GivenOneMore(flights, j);
  }

  // What any object answers: the least, over the direct routes of at most k + 1
  // kept and given flights and over the points on them, of the distance kept for
  // that point plus the fare of the rest.
  ghost predicate PriceIsLeast(adj: Adjacency, dist: seq<int>, r: Request, price: int)
    requires InRange(r)
  {
    exists c :: IsLeast(Offered(adj, r), StartOf(dist, r), r.src, r.dst, MaxRounds(r.k), r.dst, c)
                && price == if c >= UNREACHED then -1 else c
  }

  lemma AnyObjectAnswers(adj: Adjacency, dist: seq<int>, r: Request, adj': Adjacency, dist': seq<int>, price: int)
    requires InRange(r) && Gives(adj, dist, r, adj', dist', price)
    ensures PriceIsLeast(adj, dist, r, price)
  {
    RunSettles(adj', StartOf(dist, r), r.src, r.dst, MaxRounds(r.k), dist', r.dst);
  }

  // ---- a graph used for the first time ------------------------------------

  // With no negative fare, whatever reaches a vertex by way of dst reaches dst
  // itself sooner and no dearer.
  lemma {:induction false} FirstArrival(flights: set<Flight>, src: nat, t: nat, r: Route, dst: nat) returns (c: Route)
    requires NoNegativeFare(flights) && IsRoute(flights, src, t, r) && !Direct(r, dst)
    ensures IsRoute(flights, src, dst, c) && Direct(c, dst) && Hops(c) <= Hops(r) && Fare(c) <= Fare(r)
    decreases r
  {
    var Fly(before, f) := r;
    if Direct(before, dst) {
      c := before;
    } else {
      c := FirstArrival(flights, src, f.from, before, dst);
    }
  }

  // The distances of a search that knows nothing but its start.
  ghost predicate IsFresh(start: seq<int>, src: nat) {
    src < |start| && start[src] == 0 && forall v :: 0 <= v < |start| && v != src ==> start[v] == UNREACHED
  }

  // From a fresh start a route carries at most its fare, and nothing below
  // UNREACHED but the fare of a route.
  lemma {:induction false} FreshCarries(flights: set<Flight>, start: seq<int>, src: nat, v: nat, r: Route)
    requires IsFresh(start, src) && NoNegativeFare(flights) && IsRoute(flights, src, v, r)
    ensures Carried(start, v, r) <= Fare(r)
    ensures Carried(start, v, r) >= UNREACHED || HasRoute(flights, src, v, Hops(r), Carried(start, v, r))
    decreases r
  {
    assert IsRoute(flights, src, src, Stay) && Hops(Stay) == 0 && Fare(Stay) == 0;
    match r
    case Stay =>
    case Fly(before, f) =>
      FreshCarries(flights, start, src, f.from, before);
      var c := Carried(start, f.from, before);
      if c < UNREACHED {
        var b :| IsRoute(flights, src, f.from, b) && Hops(b) <= Hops(before) && Fare(b) == c;
        assert IsRoute(flights, src, v, Fly(b, f)) && Fare(Fly(b, f)) == c + f.fare;
      }
  }

  // On an object that has not been used before, and without negative fares,
  // that is the fare of a cheapest route.
  lemma FirstCallIsCheapest(flights: set<Flight>, start: seq<int>, src: nat, dst: nat, hops: nat, c: int)
    requires IsFresh(start, src) && dst < |start| && NoNegativeFare(flights)
    requires IsLeast(flights, start, src, dst, hops, dst, c)
    ensures IsCheapest(flights, src, dst, hops, if c >= UNREACHED then -1 else c)
  {
    forall r | IsRoute(flights, src, dst, r) && Hops(r) <= hops ensures c <= Fare(r) {
      var d := r;
      if !Direct(r, dst) { d := FirstArrival(flights, src, dst, r, dst); }
      assert DirectRoute(flights, src, dst, hops, dst, d);
      FreshCarries(flights, start, src, dst, d);
    }
    if c < UNREACHED {
      if c == At(start, dst) {
        assert IsRoute(flights, src, dst, Stay) && Hops(Stay) == 0 && Fare(Stay) == 0;
      } else {
        var r :| DirectRoute(flights, src, dst, hops, dst, r) && c == Carried(start, dst, r);
        FreshCarries(flights, start, src, dst, r);
        var b :| IsRoute(flights, src, dst, b) && Hops(b) <= Hops(r) && Fare(b) == c;
      }
      assert HasRoute(flights, src, dst, hops, c);
      var r :| IsRoute(flights, src, dst, r) && Hops(r) <= hops && Fare(r) == c;
      FareNotNegative(flights, src, dst, r);
    }
  }

  lemma {:induction false} FareNotNegative(flights: set<Flight>, src: nat, t: nat, r: Route)
    requires NoNegativeFare(flights) && IsRoute(flights, src, t, r)
    ensures Fare(r) >= 0
    decreases r
  {
    match r
    case Stay =>
    case Fly(before, f) => FareNotNegative(flights, src, f.from, before);
  }

  lemma NewAnswersRight()
    ensures AnswersRight([], [])
  {
    forall r, adj', dist', price | Legal([], r) && Gives([], [], r, adj', dist', price)
      ensures IsCheapest(Given(r.flights), r.src, r.dst, MaxRounds(r.k), price)
    {
      AnyObjectAnswers([], [], r, adj', dist', price);
      NewAnswer(r, price);
    }
  }

  lemma NewAnswer(r: Request, price: int)
    requires Legal([], r) && PriceIsLeast([], [], r, price)
    ensures IsCheapest(Given(r.flights), r.src, r.dst, MaxRounds(r.k), price)
  {
    assert Offered([], r) == Given(r.flights);
    var c :| IsLeast(Offered([], r), StartOf([], r), r.src, r.dst, MaxRounds(r.k), r.dst, c)
             && price == if c >= UNREACHED then -1 else c;
    FirstCallIsCheapest(Given(r.flights), StartOf([], r), r.src, r.dst, MaxRounds(r.k), c);
  }

  lemma NewIsSafe(r: Request)
    requires InRange(r)
    ensures IsSafe([], r)
  {
    assert Offered([], r) == Given(r.flights);
    WithinStays(Given(r.flights), r.src, r.dst, MaxRounds(r.k), r.n);
  }

  // The method with its promise, on a new object.
  method CheapestPrice(n: nat, flights: seq<Flight>, src: nat, dst: nat, k: int) returns (price: int)
    requires InRange(Request(n, flights, src, dst, k)) && NoNegativeFare(Given(flights))
    ensures IsCheapest(Given(flights), src, dst, if k >= 0 then k + 1 else 0, price)
    ensures -1 <= price < 1_073_741_823
  {
    var g := new DirectGraph();
    ghost var r := Request(n, flights, src, dst, k);
    NewIsSafe(r);
    price := g.FindCheapestPrice(n, flights, src, dst, k);
    NewAnswer(r, price);
  }

  // ---- an object used before ----------------------------------------------

  // A request without negative fares whose search stays within the cities.
  ghost predicate Legal(adj: Adjacency, r: Request) {
    IsSafe(adj, r) && NoNegativeFare(Given(r.flights))
  }

  ghost predicate AnswersRight(adj: Adjacency, dist: seq<int>) {
    forall r, adj', dist', price :: Legal(adj, r) && Gives(adj, dist, r, adj', dist', price) ==>
      IsCheapest(Given(r.flights), r.src, r.dst, MaxRounds(r.k), price)
  }

  // Rounds lower distances, but never below 0.
  lemma {:induction false} StageBounds(adj: Adjacency, start: seq<int>, src: nat, dst: nat, stages: seq<Stage>, i: nat)
    requires NoNegativeFare(All(adj)) && forall v :: 0 <= v < |start| ==> start[v] >= 0
    requires Rounds(adj, start, src, dst, stages) && i < |stages|
    ensures |stages[i].dist| == |start|
    ensures forall v :: 0 <= v < |start| ==> 0 <= stages[i].dist[v] <= start[v]
    decreases i
  {
    if i > 0 {
      StageBounds(adj, start, src, dst, stages, i - 1);
      var a, b := stages[i - 1], stages[i];
      assert NextStage(adj, dst, a, b);
      forall v | 0 <= v < |start| ensures 0 <= b.dist[v] <= start[v] {
        assert Explained(From(adj, a.q), a.dist, b.dist, v);
        assert forall f :: f in From(adj, a.q) ==> f in All(adj);
      }
    }
  }

  lemma RunBounds(adj: Adjacency, start: seq<int>, src: nat, dst: nat, k: nat, final: seq<int>)
    requires NoNegativeFare(All(adj)) && forall v :: 0 <= v < |start| ==> start[v] >= 0
    requires RunsTo(adj, start, src, dst, k, final)
    ensures |final| == |start| && forall v :: 0 <= v < |start| ==> 0 <= final[v] <= start[v]
  {
    var stages: seq<Stage> :| StopsWith(adj, start, src, dst, k, stages, final);
    StageBounds(adj, start, src, dst, stages, |stages| - 1);
  }

  lemma CallLeavesUsed(adj: Adjacency, dist: seq<int>, last: nat, r: Request,
                       adj': Adjacency, dist': seq<int>, price: int)
    requires (adj == [] && dist == []) || IsUsed(adj, dist, last)
    requires Legal(adj, r) && Gives(adj, dist, r, adj', dist', price)
    ensures IsUsed(adj', dist', r.src)
  {
    KeptFlights(adj, r.n);
    RunBounds(adj', StartOf(dist, r), r.src, r.dst, MaxRounds(r.k), dist');
  }

  // From a city to itself the answer is right on any object.
  lemma SameCityIsRight(adj: Adjacency, dist: seq<int>, last: nat, r: Request,
                        adj': Adjacency, dist': seq<int>, price: int)
    requires (adj == [] && dist == []) || IsUsed(adj, dist, last)
    requires Legal(adj, r) && Gives(adj, dist, r, adj', dist', price) && r.src == r.dst
    ensures price == 0 && IsCheapest(Given(r.flights), r.src, r.dst, MaxRounds(r.k), price)
  {
    CallLeavesUsed(adj, dist, last, r, adj', dist', price);
    assert IsRoute(Given(r.flights), r.src, r.dst, Stay) && Hops(Stay) == 0 && Fare(Stay) == 0;
    forall c | IsRoute(Given(r.flights), r.src, r.dst, c) ensures Fare(c) >= 0 {
      FareNotNegative(Given(r.flights), r.src, r.dst, c);
    }
  }

  // A used object takes the last start for reached at no cost: from any other
  // city, even without flights, it answers 0.
  lemma UsedAnswersZero(adj: Adjacency, dist: seq<int>, last: nat, n: nat, other: nat, k: int,
                        adj': Adjacency, dist': seq<int>, price: int)
    requires IsUsed(adj, dist, last) && last < n && other < n && other != last
    requires Legal(adj, Request(n, [], other, last, k))
    requires Gives(adj, dist, Request(n, [], other, last, k), adj', dist', price)
    ensures price == 0 && !IsCheapest({}, other, last, MaxRounds(k), price)
  {
    KeptFlights(adj, n);
    RunBounds(adj', StartOf(dist, Request(n, [], other, last, k)), other, last, MaxRounds(k), dist');
    assert Given([]) == {};
    forall c ensures !IsRoute({}, other, last, c) {}
  }

  // Some round, some run, and hence some answer always exists.
  lemma RoundExists(used: set<Flight>, dist: seq<int>, dst: nat) returns (d: seq<int>, q: set<nat>)
    requires Within(used, |dist|)
    ensures IsRound(used, dist, dst, d, q)
  {
    d, q := dist, {};
    var todo, done := used, {};
    while todo != {}
      invariant done + todo == used && IsRound(done, dist, dst, d, q)
      decreases todo
    {
      var f :| f in todo;
      RoundAdds(done, dist, dst, d, q, f);
      d, q := d[f.to := Min(d[f.to], dist[f.from] + f.fare)], if f.to != dst then q + {f.to} else q;
      todo, done := todo - {f}, done + {f};
    }
    assert done == used;
  }

  lemma RunExists(adj: Adjacency, start: seq<int>, src: nat, dst: nat, k: nat) returns (final: seq<int>)
    requires Outgoing(adj) && |start| == |adj| && Within(All(adj), |adj|)
    ensures |final| == |start| && RunsTo(adj, start, src, dst, k, final)
  {
    var stages, last := [Stage(start, {src})], Stage(start, {src});
    while |stages| - 1 < k && last.q != {}
      invariant |stages| - 1 <= k && Rounds(adj, start, src, dst, stages)
      invariant last == stages[|stages| - 1] && |last.dist| == |start|
      decreases k - |stages|
    {
      assert Within(From(adj, last.q), |adj|) by {
        assert forall f :: f in From(adj, last.q) ==> f in All(adj);
      }
      var d, q := RoundExists(From(adj, last.q), last.dist, dst);
      last := Stage(d, q);
      stages := stages + [last];
    }
    final := last.dist;
    assert StopsWith(adj, start, src, dst, k, stages, final);
  }

  // Enough cities for every flight kept.
  lemma {:induction false} CitiesOf(flights: set<Flight>, least: nat) returns (n: nat)
    ensures n >= least && Within(flights, n)
    decreases |flights|
  {
    n := least;
    if flights != {} {
      var f :| f in flights;
      var m := CitiesOf(flights - {f}, least);
      n := m + f.from + f.to + 1;
    }
  }

  // Whatever K is, a used object answers some request wrong.
  lemma UsedFails(adj: Adjacency, dist: seq<int>, last: nat, k: int)
    returns (r: Request, adj': Adjacency, dist': seq<int>, price: int)
    requires IsUsed(adj, dist, last)
    ensures r.k == k && Legal(adj, r) && Gives(adj, dist, r, adj', dist', price)
    ensures !IsCheapest(Given(r.flights), r.src, r.dst, MaxRounds(k), price)
  {
    var other := if last == 0 then 1 else 0;
    var n := CitiesOf(All(adj), |adj| + 1);
    r := Request(n, [], other, last, k);
    assert Given([]) == {};
    KeptFlights(adj, n);
    WithinStays(All(adj), other, last, MaxRounds(k), n);
    adj' := ResizedLists(adj, n);
    dist' := RunExists(adj', StartOf(dist, r), other, last, MaxRounds(k));
    price := if dist'[last] >= UNREACHED then -1 else dist'[last];
    UsedAnswersZero(adj, dist, last, n, other, k, adj', dist', price);
  }

  // The same as a call: asked for a graph without flights, from another city to
  // the last start, any used object returns 0.
  method UsedCallAnswersZero(g: DirectGraph, n: nat, other: nat, last: nat, k: int) returns (price: int)
    requires g.Valid() && g.calls > 0 && last == g.last && last < n && other < n && other != last
    requires IsSafe(g.adjList, Request(n, [], other, last, k))
    modifies g
    ensures g.Valid() && g.calls == old(g.calls) + 1 && g.last == other
    ensures Gives(old(g.adjList), old(g.distTo), Request(n, [], other, last, k), g.adjList, g.distTo, price)
    ensures price == 0 && !IsCheapest({}, other, last, MaxRounds(k), price)
  {
    ghost var (adj, dist) := (g.adjList, g.distTo);
    assert Given([]) == {};
    price := g.FindCheapestPrice(n, [], other, last, k);
    UsedAnswersZero(adj, dist, last, n, other, k, g.adjList, g.distTo, price);
  }

  // A used object also keeps the flights of earlier calls: on a new object a
  // call with one flight answers its fare, and so does the same request for a
  // graph without flights.
  method SecondCallKeepsOldFlights() returns (g: DirectGraph, first: int, second: int)
    ensures fresh(g) && g.Valid() && g.calls == 2 && All(g.adjList) == {Flight(0, 1, 5)} && g.distTo == [0, 5]
    ensures first == 5 && second == 5 && !IsCheapest({}, 0, 1, 1, second)
  {
    g := new DirectGraph();
    var f := Flight(0, 1, 5);
    assert Given([f]) == {f} && Given([]) == {};
    NewIsSafe(Request(2, [f], 0, 1, 0));
    first := g.FindCheapestPrice(2, [f], 0, 1, 0);
    OneFlight(g.adjList, StartOf([], Request(2, [f], 0, 1, 0)), g.distTo, f);
    ghost var (adj, known) := (g.adjList, g.distTo);
    KeptFlights(adj, 2);
    WithinStays({f}, 0, 1, 1, 2);
    second := g.FindCheapestPrice(2, [], 0, 1, 0);
    OneFlight(g.adjList, StartOf(known, Request(2, [], 0, 1, 0)), g.distTo, f);
  }

  // One flight, one round: whatever was known of the far end before, it is known
  // to cost at most its fare.
  lemma OneFlight(adj: Adjacency, start: seq<int>, final: seq<int>, f: Flight)
    requires Outgoing(adj) && |adj| == |start| == 2 && All(adj) == {f} && f == Flight(0, 1, 5)
    requires start[0] == 0 && start[1] >= 5 && RunsTo(adj, start, 0, 1, 1, final)
    ensures final == [0, 5]
  {
    RunSettles(adj, start, 0, 1, 1, final, 0);
    RunSettles(adj, start, 0, 1, 1, final, 1);
    assert DirectRoute({f}, 0, 1, 1, 1, Fly(Stay, f)) && Carried(start, 1, Fly(Stay, f)) == 5;
    forall r ensures DirectRoute({f}, 0, 1, 1, 0, r) ==> r == Stay
             ensures DirectRoute({f}, 0, 1, 1, 1, r) ==> r == Fly(Stay, f)
    {
      if r.Fly? && r.before.Fly? { assert !IsRoute({f}, 0, 0, r.before); }
    }
  }
}
