// shortestReach of HackerRank/hackerRankGraph.cpp: Dijkstra's algorithm with a
// priority queue that keeps stale entries and discards them when popped.

module ShortestReach {

  const INT32_MAX := 0x7FFF_FFFF

  datatype Edge = Edge(a: nat, b: nat, w: int)

  // An undirected edge from u to v of weight w.
  ghost predicate HasEdge(edges: seq<Edge>, u: nat, v: nat, w: int) {
    Edge(u, v, w) in edges || Edge(v, u, w) in edges
  }

  // A walk, last step first.
  datatype Walk = Stay | Go(before: Walk, via: nat, w: int)

  ghost predicate IsWalk(edges: seq<Edge>, s: nat, t: nat, walk: Walk)
    decreases walk
  {
    match walk
    case Stay => s == t
    case Go(before, u, w) => IsWalk(edges, s, u, before) && HasEdge(edges, u, t, w)
  }

  ghost function Cost(walk: Walk): int {
    match walk
    case Stay => 0
    case Go(before, _, w) => Cost(before) + w
  }

  ghost predicate HasWalk(edges: seq<Edge>, s: nat, t: nat, d: int) {
    exists walk :: IsWalk(edges, s, t, walk) && Cost(walk) == d
  }

  // d is the length of a shortest walk from s to t that stays below INT32_MAX,
  // or INT32_MAX when there is no such walk.
  ghost predicate IsDistance(edges: seq<Edge>, s: nat, t: nat, d: int) {
    && d <= 0x7FFF_FFFF
    && (d < 0x7FFF_FFFF ==> HasWalk(edges, s, t, d))
    && forall walk :: IsWalk(edges, s, t, walk) ==> d <= Cost(walk)
  }

  ghost predicate Usable(n: nat, edges: seq<Edge>) {
    forall e :: e in edges ==> 1 <= e.a <= n && 1 <= e.b <= n && e.w > 0
  }

  type Adjacency = seq<map<nat, int>>

  // adj holds, for each neighbour, the least weight among the parallel edges.
  ghost predicate IsAdjacency(adj: Adjacency, n: nat, edges: seq<Edge>) {
    && |adj| == n + 1
    && (forall u, v :: 0 <= u <= n && v in adj[u] ==> 1 <= v <= n && adj[u][v] > 0 && HasEdge(edges, u, v, adj[u][v]))
    && (forall u: nat, v: nat, w :: HasEdge(edges, u, v, w) ==> u <= n && v in adj[u] && adj[u][v] <= w)
  }

  // The lambda update_smaller applied to adj[u][v]; a missing entry reads as 0.
  function UpdateSmaller(adj: Adjacency, u: nat, v: nat, w: int): Adjacency
    requires u < |adj|
  {
    var weight := if v in adj[u] then adj[u][v] else 0;
    adj[u := adj[u][v := if weight == 0 || weight > w then w else weight]]
  }

  lemma AddEdge(adj: Adjacency, n: nat, edges: seq<Edge>, e: Edge)
    requires IsAdjacency(adj, n, edges) && 1 <= e.a <= n && 1 <= e.b <= n && e.w > 0
    ensures IsAdjacency(UpdateSmaller(UpdateSmaller(adj, e.a, e.b, e.w), e.b, e.a, e.w), n, edges + [e])
  {
    var adj1 := UpdateSmaller(adj, e.a, e.b, e.w);
    var adj2 := UpdateSmaller(adj1, e.b, e.a, e.w);
    forall u: nat, v: nat, w | HasEdge(edges + [e], u, v, w)
      ensures u <= n && v in adj2[u] && adj2[u][v] <= w
    {
      assert HasEdge(edges, u, v, w) || Edge(u, v, w) == e || Edge(v, u, w) == e;
    }
    forall u, v | 0 <= u <= n && v in adj2[u]
      ensures 1 <= v <= n && adj2[u][v] > 0 && HasEdge(edges + [e], u, v, adj2[u][v])
    {
      assert e in edges + [e];
      if v in adj[u] { assert HasEdge(edges, u, v, adj[u][v]); }
    }
  }

  method BuildAdjacency(n: nat, edges: seq<Edge>) returns (adj: Adjacency)
    requires Usable(n, edges)
    ensures IsAdjacency(adj, n, edges)
  {
    adj := seq(n + 1, _ => map[]);
    for k := 0 to |edges|
      invariant IsAdjacency(adj, n, edges[..k])
    {
      var e := edges[k];
      assert e in edges;
      assert edges[..k + 1] == edges[..k] + [e];
      AddEdge(adj, n, edges[..k], e);
      adj := UpdateSmaller(adj, e.a, e.b, e.w);
      adj := UpdateSmaller(adj, e.b, e.a, e.w);
    }
    assert edges[..|edges|] == edges;
  }

  // A queue entry: the distance a vertex had when it was queued, and the vertex.
  datatype Entry = Entry(dist: int, vertex: nat)

  predicate NotAfter(x: Entry, y: Entry) {
    x.dist < y.dist || (x.dist == y.dist && x.vertex <= y.vertex)
  }

  lemma {:induction false} LeastExists(entries: set<Entry>)
    requires entries != {}
    ensures exists x :: x in entries && forall y :: y in entries ==> NotAfter(x, y)
  {
    var x :| x in entries;
    var rest := entries - {x};
    if rest == {} {
      assert entries == {x};
    } else {
      LeastExists(rest);
      var z :| z in rest && forall y :: y in rest ==> NotAfter(z, y);
      var least := if NotAfter(x, z) then x else z;
      forall y | y in entries ensures NotAfter(least, y) {
        assert y == x || y in rest;
      }
    }
  }

  // The top of the min-heap.
  method Top(q: multiset<Entry>) returns (x: Entry)
    requires q != multiset{}
    ensures x in q && forall y :: y in q ==> NotAfter(x, y)
  {
    ghost var entries := set e | e in q;
    var e :| e in q;
    assert e in entries;
    LeastExists(entries);
    assert exists x :: x in q && forall y :: y in q ==> NotAfter(x, y) by {
      var x :| x in entries && forall y :: y in entries ==> NotAfter(x, y);
      assert x in q;
      assert forall y :: y in q ==> y in entries;
    }
    x :| x in q && forall y :: y in q ==> NotAfter(x, y);
  }

  // All (vertex, length) pairs of walks from s.
  type Lengths = iset<(nat, int)>

  // What the search needs to know of the graph: neighbours are vertices,
  // weights are positive, and walks can be extended along adj.
  ghost predicate Extends(adj: Adjacency, n: nat, lengths: Lengths) {
    && |adj| == n + 1
    && (forall u, v :: 0 <= u <= n && v in adj[u] ==> 1 <= v <= n && adj[u][v] > 0)
    && (forall u, v, d :: 0 <= u <= n && v in adj[u] ==> CanStep(lengths, u, d, v, adj[u][v]))
  }

  ghost predicate CanStep(lengths: Lengths, u: nat, d: int, v: nat, w: int) {
    (u, d) in lengths ==> (v, d + w) in lengths
  }

  // dist holds lengths of walks.
  ghost predicate Sound(dist: seq<int>, n: nat, s: nat, lengths: Lengths) {
    && |dist| == n + 1 && s <= n && dist[s] == 0 && dist[0] == INT32_MAX
    && forall v :: 0 <= v <= n ==>
         0 <= dist[v] <= INT32_MAX && (dist[v] < INT32_MAX ==> (v, dist[v]) in lengths)
  }

  // Queue entries are current or stale, never too small and never doubled.
  ghost predicate QueueOk(q: multiset<Entry>, dist: seq<int>) {
    forall x :: x in q ==> x.vertex < |dist| && dist[x.vertex] <= x.dist < INT32_MAX && q[x] == 1
  }

  ghost predicate Relaxed(dist: seq<int>, adj: Adjacency, u: nat)
    requires u < |dist| == |adj|
  {
    forall v :: v in adj[u] && v < |dist| ==> dist[v] <= dist[u] + adj[u][v]
  }

  ghost predicate QueuedOrRelaxed(q: multiset<Entry>, dist: seq<int>, adj: Adjacency, v: nat)
    requires v < |dist| == |adj|
  {
    dist[v] < INT32_MAX ==> Entry(dist[v], v) in q || Relaxed(dist, adj, v)
  }

  // Every reached vertex outside `except` is queued with its current distance
  // or has been relaxed.
  ghost predicate Pending(q: multiset<Entry>, dist: seq<int>, adj: Adjacency, except: set<nat>)
    requires |dist| == |adj|
  {
    forall v {:trigger QueuedOrRelaxed(q, dist, adj, v)} ::
      0 <= v < |dist| && v !in except ==> QueuedOrRelaxed(q, dist, adj, v)
  }

  // The vertices expanded so far: each once, by non-decreasing distance, none
  // still queued with its distance, all entries at least as far as the last.
  ghost predicate SettledOk(settled: seq<nat>, q: multiset<Entry>, dist: seq<int>, far: int) {
    && (forall i :: 0 <= i < |settled| ==>
          settled[i] < |dist| && dist[settled[i]] <= far && Entry(dist[settled[i]], settled[i]) !in q)
    && (forall i, j :: 0 <= i < j < |settled| ==> settled[i] != settled[j] && dist[settled[i]] <= dist[settled[j]])
    && (forall x :: x in q ==> far <= x.dist)
  }

  ghost function Sum(s: seq<int>): int {
    if s == [] then 0 else Sum(s[..|s| - 1]) + s[|s| - 1]
  }

  lemma {:induction false} SumUpdate(s: seq<int>, i: nat, x: int)
    requires i < |s|
    ensures Sum(s[i := x]) == Sum(s) - s[i] + x
  {
    var n := |s| - 1;
    if i == n {
      assert s[i := x][..n] == s[..n];
    } else {
      assert s[i := x][..n] == s[..n][i := x];
      SumUpdate(s[..n], i, x);
    }
  }

  lemma {:induction false} SumNat(s: seq<int>)
    requires forall i :: 0 <= i < |s| ==> s[i] >= 0
    ensures Sum(s) >= 0
  {
    if s != [] { SumNat(s[..|s| - 1]); }
  }

  // Shortening v to d and queueing it keeps the four properties.
  lemma ImproveKeepsQueue(q: multiset<Entry>, dist: seq<int>, v: nat, d: int)
    requires QueueOk(q, dist) && v < |dist| && d < dist[v] <= INT32_MAX
    ensures QueueOk(q + multiset{Entry(d, v)}, dist[v := d])
  {
    var dist', q' := dist[v := d], q + multiset{Entry(d, v)};
    forall x | x in q' ensures x.vertex < |dist'| && dist'[x.vertex] <= x.dist < INT32_MAX && q'[x] == 1 {
      if x != Entry(d, v) { assert x in q; } else { assert x !in q; }
    }
  }

  lemma ImproveKeepsPending(q: multiset<Entry>, dist: seq<int>, adj: Adjacency, u: nat, v: nat, d: int)
    requires |dist| == |adj| && v < |dist| && d < dist[v] && Pending(q, dist, adj, {u})
    ensures Pending(q + multiset{Entry(d, v)}, dist[v := d], adj, {u})
  {
    var dist', q' := dist[v := d], q + multiset{Entry(d, v)};
    forall x | 0 <= x < |dist'| && x !in {u} ensures QueuedOrRelaxed(q', dist', adj, x) {
      assert QueuedOrRelaxed(q, dist, adj, x);
      if x != v && dist[x] < INT32_MAX && Entry(dist[x], x) !in q { assert Relaxed(dist, adj, x); }
    }
  }

  lemma ImproveKeepsSettled(settled: seq<nat>, q: multiset<Entry>, dist: seq<int>, far: int, v: nat, d: int)
    requires SettledOk(settled, q, dist, far) && v < |dist| && far <= d < dist[v]
    ensures SettledOk(settled, q + multiset{Entry(d, v)}, dist[v := d], far)
  {
    assert forall i :: 0 <= i < |settled| ==> settled[i] != v;
  }

  // The state of the search while the edges out of u are being relaxed.
  ghost predicate Relaxing(n: nat, adj: Adjacency, s: nat, u: nat, lengths: Lengths, settled: seq<nat>,
                           dist: seq<int>, q: multiset<Entry>, todo: set<nat>) {
    && Extends(adj, n, lengths) && Sound(dist, n, s, lengths)
    && u <= n && dist[u] < INT32_MAX && todo <= adj[u].Keys
    && QueueOk(q, dist) && Pending(q, dist, adj, {u})
    && SettledOk(settled, q, dist, dist[u])
    && forall v :: v in adj[u] && v !in todo ==> dist[v] <= dist[u] + adj[u][v]
  }

  lemma ImproveKeepsSound(n: nat, adj: Adjacency, s: nat, u: nat, lengths: Lengths, dist: seq<int>, v: nat)
    requires Extends(adj, n, lengths) && Sound(dist, n, s, lengths)
    requires u <= n && v in adj[u] && dist[u] + adj[u][v] < dist[v]
    ensures Sound(dist[v := dist[u] + adj[u][v]], n, s, lengths)
  {
    assert CanStep(lengths, u, dist[u], v, adj[u][v]);
  }

  lemma RelaxOne(n: nat, adj: Adjacency, s: nat, u: nat, lengths: Lengths, settled: seq<nat>,
                 dist: seq<int>, q: multiset<Entry>, todo: set<nat>, v: nat, dist': seq<int>, q': multiset<Entry>)
    requires Relaxing(n, adj, s, u, lengths, settled, dist, q, todo) && v in todo
    requires dist[u] + adj[u][v] < dist[v]
    requires dist' == dist[v := dist[u] + adj[u][v]] && q' == q + multiset{Entry(dist[u] + adj[u][v], v)}
    ensures Relaxing(n, adj, s, u, lengths, settled, dist', q', todo - {v})
  {
    var d := dist[u] + adj[u][v];
    assert v != u;
    ImproveKeepsSound(n, adj, s, u, lengths, dist, v);
    ImproveKeepsQueue(q, dist, v, d);
    ImproveKeepsPending(q, dist, adj, u, v, d);
    ImproveKeepsSettled(settled, q, dist, dist[u], v, d);
    EdgesRelaxed(adj[u], dist, u, v, todo, dist');
  }

  lemma EdgesRelaxed(edges: map<nat, int>, dist: seq<int>, u: nat, v: nat, todo: set<nat>, dist': seq<int>)
    requires u < |dist| && v < |dist| && u != v && v in edges
    requires forall x :: x in edges ==> x < |dist|
    requires forall x :: x in edges && x !in todo ==> dist[x] <= dist[u] + edges[x]
    requires dist[u] + edges[v] < dist[v] && dist' == dist[v := dist[u] + edges[v]]
    ensures forall x :: x in edges && x !in todo - {v} ==> dist'[x] <= dist'[u] + edges[x]
  {
    forall x | x in edges && x !in todo - {v} ensures dist'[x] <= dist'[u] + edges[x] {
      assert x == v || x !in todo;
    }
  }

  lemma SkipOne(n: nat, adj: Adjacency, s: nat, u: nat, lengths: Lengths, settled: seq<nat>,
                dist: seq<int>, q: multiset<Entry>, todo: set<nat>, v: nat)
    requires Relaxing(n, adj, s, u, lengths, settled, dist, q, todo) && v in todo
    requires dist[v] <= dist[u] + adj[u][v]
    ensures Relaxing(n, adj, s, u, lengths, settled, dist, q, todo - {v})
  {
  }

  lemma SumDrops(dist: seq<int>, v: nat, dist': seq<int>)
    requires v < |dist| == |dist'| && dist' == dist[v := dist'[v]] && dist'[v] < dist[v]
    ensures Sum(dist') < Sum(dist)
  {
    SumUpdate(dist, v, dist'[v]);
  }

  // The inner loop: relax every edge out of u.
  method RelaxAll(n: nat, adj: Adjacency, s: nat, u: nat, dist0: seq<int>, q0: multiset<Entry>,
                  ghost lengths: Lengths, ghost settled: seq<nat>)
    returns (dist: seq<int>, q: multiset<Entry>)
    requires u < |adj| && Relaxing(n, adj, s, u, lengths, settled, dist0, q0, adj[u].Keys)
    ensures Relaxing(n, adj, s, u, lengths, settled, dist, q, {})
    ensures Sum(dist) < Sum(dist0) || (dist == dist0 && q == q0)
  {
    dist, q := dist0, q0;
    var todo := adj[u].Keys;
    while todo != {}
      invariant Relaxing(n, adj, s, u, lengths, settled, dist, q, todo)
      invariant Sum(dist) < Sum(dist0) || (dist == dist0 && q == q0)
      decreases todo
    {
      var v :| v in todo;
      var d := dist[u] + adj[u][v];
      if d < dist[v] {
        ghost var (dist1, q1) := (dist, q);
        dist := dist[v := d];
        q := q + multiset{Entry(d, v)};
        RelaxOne(n, adj, s, u, lengths, settled, dist1, q1, todo, v, dist, q);
        SumDrops(dist1, v, dist);
      } else {
        SkipOne(n, adj, s, u, lengths, settled, dist, q, todo, v);
      }
      todo := todo - {v};
    }
  }

  lemma RelaxedAll(n: nat, adj: Adjacency, s: nat, u: nat, lengths: Lengths, settled: seq<nat>,
                   dist: seq<int>, q: multiset<Entry>)
    requires Relaxing(n, adj, s, u, lengths, settled, dist, q, {})
    ensures Pending(q, dist, adj, {})
  {
    forall v | 0 <= v < |dist| ensures QueuedOrRelaxed(q, dist, adj, v) {
      if v == u { assert Relaxed(dist, adj, u); } else { assert v !in {u}; }
    }
  }

  // The main loop: the array distTo when the queue has run empty, with every
  // reached vertex relaxed.  The ghost result lists the vertices in the order
  // they were expanded.
  method Search(n: nat, adj: Adjacency, s: nat, ghost lengths: Lengths)
    returns (dist: seq<int>, ghost settled: seq<nat>)
    requires Extends(adj, n, lengths) && 1 <= s <= n && (s, 0) in lengths
    ensures Sound(dist, n, s, lengths)
    ensures forall u :: 0 <= u <= n && dist[u] < INT32_MAX ==> Relaxed(dist, adj, u)
    ensures forall i :: 0 <= i < |settled| ==> settled[i] <= n
    ensures forall i, j :: 0 <= i < j < |settled| ==> settled[i] != settled[j] && dist[settled[i]] <= dist[settled[j]]
  {
    dist := seq(n + 1, _ => INT32_MAX);
    dist := dist[s := 0];
    var q := multiset{Entry(0, s)};
    settled := [];
    ghost var far := 0;
    SumNat(dist);
    while q != multiset{}
      invariant Sound(dist, n, s, lengths)
      invariant QueueOk(q, dist)
      invariant Pending(q, dist, adj, {})
      invariant SettledOk(settled, q, dist, far)
      invariant Sum(dist) >= 0
      decreases Sum(dist), |q|
    {
      var from := Top(q);
      var u := from.vertex;
      if from.dist > dist[u] {
        PopStale(q, from, dist, adj, settled, far);
        q := q - multiset{from};
      } else {
        PopCurrent(q, from, dist, adj, settled, far);
        q := q - multiset{from};
        dist, q := RelaxAll(n, adj, s, u, dist, q, lengths, settled + [u]);
        RelaxedAll(n, adj, s, u, lengths, settled + [u], dist, q);
        SumNat(dist);
        settled, far := settled + [u], dist[u];
      }
    }
    forall u | 0 <= u <= n && dist[u] < INT32_MAX ensures Relaxed(dist, adj, u) {
      assert QueuedOrRelaxed(q, dist, adj, u);
    }
  }

  lemma PopStale(q: multiset<Entry>, from: Entry, dist: seq<int>, adj: Adjacency, settled: seq<nat>, far: int)
    requires QueueOk(q, dist) && |dist| == |adj| && Pending(q, dist, adj, {}) && SettledOk(settled, q, dist, far)
    requires from in q && from.dist > dist[from.vertex]
    ensures var q' := q - multiset{from};
      QueueOk(q', dist) && Pending(q', dist, adj, {}) && SettledOk(settled, q', dist, far)
  {
    var q' := q - multiset{from};
    assert forall x :: x in q' ==> x in q;
    forall v | 0 <= v < |dist| ensures QueuedOrRelaxed(q', dist, adj, v) {
      assert QueuedOrRelaxed(q, dist, adj, v);
      assert Entry(dist[v], v) in q ==> Entry(dist[v], v) in q';
    }
  }

  lemma PopCurrent(q: multiset<Entry>, from: Entry, dist: seq<int>, adj: Adjacency, settled: seq<nat>, far: int)
    requires QueueOk(q, dist) && |dist| == |adj| && Pending(q, dist, adj, {}) && SettledOk(settled, q, dist, far)
    requires from in q && forall y :: y in q ==> NotAfter(from, y)
    requires from.dist <= dist[from.vertex]
    ensures var q' := q - multiset{from};
      && from.dist == dist[from.vertex]
      && QueueOk(q', dist) && Pending(q', dist, adj, {from.vertex})
      && SettledOk(settled + [from.vertex], q', dist, from.dist)
  {
    var q' := q - multiset{from};
    assert forall x :: x in q' ==> x in q && x != from;
    forall v | 0 <= v < |dist| && v !in {from.vertex} ensures QueuedOrRelaxed(q', dist, adj, v) {
      assert QueuedOrRelaxed(q, dist, adj, v);
      assert Entry(dist[v], v) in q ==> Entry(dist[v], v) in q';
    }
    assert forall i :: 0 <= i < |settled| ==> settled[i] != from.vertex;
  }

  // Once everything reached is relaxed, no walk beats dist.
  lemma {:induction false} NoWalkBeats(dist: seq<int>, adj: Adjacency, n: nat, edges: seq<Edge>, s: nat, t: nat,
                                       walk: Walk)
    requires Usable(n, edges) && IsAdjacency(adj, n, edges)
    requires |dist| == n + 1 && s <= n && dist[s] == 0 && forall v :: 0 <= v <= n ==> dist[v] <= INT32_MAX
    requires forall u :: 0 <= u <= n && dist[u] < INT32_MAX ==> Relaxed(dist, adj, u)
    requires t <= n && IsWalk(edges, s, t, walk)
    ensures dist[t] <= Cost(walk)
    decreases walk
  {
    match walk
    case Stay =>
    case Go(before, u, w) =>
      assert HasEdge(edges, u, t, w);
      assert w > 0;
      NoWalkBeats(dist, adj, n, edges, s, u, before);
  }

  lemma WalksExtend(adj: Adjacency, n: nat, edges: seq<Edge>, s: nat)
    requires IsAdjacency(adj, n, edges)
    ensures var lengths := iset t: nat, d: int | HasWalk(edges, s, t, d) :: (t, d);
      Extends(adj, n, lengths) && (s, 0) in lengths
  {
    forall u: nat, v: nat, d | 0 <= u <= n && v in adj[u] && HasWalk(edges, s, u, d)
      ensures HasWalk(edges, s, v, d + adj[u][v])
    {
      var walk :| IsWalk(edges, s, u, walk) && Cost(walk) == d;
      assert IsWalk(edges, s, v, Go(walk, u, adj[u][v]));
    }
    assert IsWalk(edges, s, s, Stay) && Cost(Stay) == 0;
  }

  // The array distTo when the queue has run empty: every entry is the shortest
  // distance.  Each vertex is expanded at most once, nearest first.
  method Distances(n: nat, edges: seq<Edge>, s: nat) returns (dist: seq<int>, ghost settled: seq<nat>)
    requires Usable(n, edges) && 1 <= s <= n
    ensures |dist| == n + 1 && dist[0] == INT32_MAX
    ensures forall v :: 1 <= v <= n ==> IsDistance(edges, s, v, dist[v])
    ensures forall i :: 0 <= i < |settled| ==> settled[i] <= n
    ensures forall i, j :: 0 <= i < j < |settled| ==> settled[i] != settled[j] && dist[settled[i]] <= dist[settled[j]]
  {
    var adj := BuildAdjacency(n, edges);
    WalksExtend(adj, n, edges, s);
    ghost var lengths: Lengths := iset t: nat, d: int | HasWalk(edges, s, t, d) :: (t, d);
    dist, settled := Search(n, adj, s, lengths);
    forall v, walk | 1 <= v <= n && IsWalk(edges, s, v, walk) ensures dist[v] <= Cost(walk) {
      NoWalkBeats(dist, adj, n, edges, s, v, walk);
    }
  }

  function Replace(s: seq<int>, old_: int, new_: int): (r: seq<int>)
    ensures |r| == |s|
    ensures forall i :: 0 <= i < |s| ==> r[i] == if s[i] == old_ then new_ else s[i]
  {
    seq(|s|, i requires 0 <= i < |s| => if s[i] == old_ then new_ else s[i])
  }

  function WithoutZeros(s: seq<int>): seq<int> {
    if s == [] then []
    else WithoutZeros(s[..|s| - 1]) + if s[|s| - 1] == 0 then [] else [s[|s| - 1]]
  }

  // Where the answer for v stands.
  function Place(v: nat, s: nat): (i: int)
    ensures 1 <= v != s && 1 <= s ==> 0 <= i < v
  {
    if v < s then v - 1 else v - 2
  }

  // With zeros at 0 and z only, dropping zeros drops exactly these two.
  lemma {:induction false} WithoutTwoZeros(s: seq<int>, z: nat)
    requires 1 <= z && |s| >= 1
    requires forall i :: 0 <= i < |s| ==> (s[i] == 0 <==> i == 0 || i == z)
    ensures |WithoutZeros(s)| == if z < |s| then |s| - 2 else |s| - 1
    ensures forall i :: 1 <= i < |s| && i != z ==>
              WithoutZeros(s)[Place(i, z)] == s[i]
  {
    var n := |s| - 1;
    if n == 0 {
      assert WithoutZeros(s[..n]) == [];
    } else {
      WithoutTwoZeros(s[..n], z);
    }
  }

  // The answer lists every vertex but s in ascending order: the shortest
  // distance, or -1 when no walk shorter than INT32_MAX exists.
  ghost predicate IsAnswer(ans: seq<int>, n: nat, edges: seq<Edge>, s: nat)
    requires 1 <= s <= n
  {
    && |ans| == n - 1
    && forall v :: 1 <= v <= n && v != s ==>
         var a := ans[Place(v, s)];
         if a == -1 then IsDistance(edges, s, v, 0x7FFF_FFFF)
         else a < 0x7FFF_FFFF && IsDistance(edges, s, v, a)
  }

  method ShortestReach(n: nat, edges: seq<Edge>, s: nat) returns (ans: seq<int>)
    requires Usable(n, edges) && 1 <= s <= n
    ensures IsAnswer(ans, n, edges, s)
  {
    var dist, _ := Distances(n, edges, s);
    OnlyStartIsZero(dist, n, edges, s);
    var marked := Replace(dist, INT32_MAX, -1)[0 := 0];
    WithoutTwoZeros(marked, s);
    ans := WithoutZeros(marked);
    forall v | 1 <= v <= n && v != s
      ensures ans[Place(v, s)] == if dist[v] == INT32_MAX then -1 else dist[v]
    {
      assert ans[Place(v, s)] == marked[v];
    }
  }

  lemma {:induction false} CostPositive(edges: seq<Edge>, n: nat, s: nat, t: nat, walk: Walk)
    requires Usable(n, edges) && IsWalk(edges, s, t, walk)
    ensures Cost(walk) >= 0 && (s != t ==> Cost(walk) > 0)
    decreases walk
  {
    match walk
    case Stay =>
    case Go(before, u, w) =>
      assert w > 0;
      CostPositive(edges, n, s, u, before);
  }

  lemma OnlyStartIsZero(dist: seq<int>, n: nat, edges: seq<Edge>, s: nat)
    requires Usable(n, edges) && 1 <= s <= n
    requires |dist| == n + 1 && forall v :: 1 <= v <= n ==> IsDistance(edges, s, v, dist[v])
    ensures forall v :: 1 <= v <= n ==> (dist[v] == 0 <==> v == s) && dist[v] >= 0
  {
    forall v | 1 <= v <= n ensures (dist[v] == 0 <==> v == s) && dist[v] >= 0 {
      if dist[v] < INT32_MAX {
        var walk :| IsWalk(edges, s, v, walk) && Cost(walk) == dist[v];
        CostPositive(edges, n, s, v, walk);
      }
      if v == s { assert IsWalk(edges, s, s, Stay) && Cost(Stay) == 0; }
    }
  }
}
