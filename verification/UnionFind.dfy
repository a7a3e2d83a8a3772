// class UnionFind of library/UnionFind.h: union by size over nodes 0..N, with
// a negative parent marking a root.

// The two arrays as values: the forest they describe, and what one union does
// to it.
module Forests {
  import opened Sequences

  // A forest: along every parent link the size at least doubles, so links
  // cannot run in a circle.
  ghost predicate Forest(parents: seq<int>, sizes: seq<int>) {
    && |parents| == |sizes|
    && forall u {:trigger parents[u]} :: 0 <= u < |parents| ==>
         && 1 <= sizes[u] <= |parents|
         && parents[u] < |parents|
         && (parents[u] >= 0 ==> 2 * sizes[u] <= sizes[parents[u]])
  }

  // find
  function Find(parents: seq<int>, ghost sizes: seq<int>, u: nat): (r: nat)
    requires Forest(parents, sizes) && u < |parents|
    ensures r < |parents| && parents[r] < 0
    decreases |parents| - sizes[u]
  {
    if parents[u] < 0 then u else Find(parents, sizes, parents[u])
  }

  ghost function Depth(parents: seq<int>, sizes: seq<int>, u: nat): nat
    requires Forest(parents, sizes) && u < |parents|
    decreases |parents| - sizes[u]
  {
    if parents[u] < 0 then 0 else 1 + Depth(parents, sizes, parents[u])
  }

  ghost function Pow2(n: nat): nat {
    if n == 0 then 1 else 2 * Pow2(n - 1)
  }

  // Weighted union keeps trees shallow: a node at depth d hangs below a root
  // of size at least 2^d times its own.
  lemma {:induction false} DepthBound(parents: seq<int>, sizes: seq<int>, u: nat)
    requires Forest(parents, sizes) && u < |parents|
    ensures Pow2(Depth(parents, sizes, u)) * sizes[u] <= sizes[Find(parents, sizes, u)]
    decreases |parents| - sizes[u]
  {
    if parents[u] >= 0 {
      var p := parents[u];
      DepthBound(parents, sizes, p);
      Doubled(Pow2(Depth(parents, sizes, p)), sizes[u], sizes[p]);
    }
  }

  lemma Doubled(k: nat, child: int, parent: int)
    requires 2 * child <= parent
    ensures 2 * k * child <= k * parent
  {
    assert k * (2 * child) <= k * parent;
  }

  lemma ClassHasDepth(parents: seq<int>, sizes: seq<int>, u: nat)
    requires Forest(parents, sizes) && u < |parents|
    ensures Pow2(Depth(parents, sizes, u)) <= sizes[Find(parents, sizes, u)]
  {
    DepthBound(parents, sizes, u);
    assert parents[u] < |parents|;
    Scaled(Pow2(Depth(parents, sizes, u)), sizes[u]);
  }

  lemma Scaled(d: nat, k: int)
    requires k >= 1
    ensures d <= d * k
  {
  }

  // Linked by past unions: a chain of union calls leads from u to v.
  type Link = (nat, nat)

  ghost predicate Joins(links: seq<Link>, u: nat, v: nat) {
    (u, v) in links || (v, u) in links
  }

  ghost predicate ChainOf(links: seq<Link>, u: nat, v: nat, n: nat)
    decreases n
  {
    if n == 0 then u == v
    else exists w: nat :: Joins(links, u, w) && ChainOf(links, w, v, n - 1)
  }

  ghost predicate Linked(links: seq<Link>, u: nat, v: nat) {
    exists n :: ChainOf(links, u, v, n)
  }

  lemma {:induction false} ChainAppend(links: seq<Link>, u: nat, v: nat, w: nat, m: nat, n: nat)
    requires ChainOf(links, u, v, m) && ChainOf(links, v, w, n)
    ensures ChainOf(links, u, w, m + n)
    decreases m
  {
    if m > 0 {
      var x: nat :| Joins(links, u, x) && ChainOf(links, x, v, m - 1);
      ChainAppend(links, x, v, w, m - 1, n);
    }
  }

  lemma {:induction false} ChainBack(links: seq<Link>, u: nat, v: nat, n: nat)
    requires ChainOf(links, u, v, n)
    ensures ChainOf(links, v, u, n)
    decreases n
  {
    if n > 0 {
      var x: nat :| Joins(links, u, x) && ChainOf(links, x, v, n - 1);
      ChainBack(links, x, v, n - 1);
      assert ChainOf(links, u, u, 0);
      assert Joins(links, x, u) && ChainOf(links, x, u, 1);
      ChainAppend(links, v, x, u, n - 1, 1);
    }
  }

  lemma {:induction false} ChainGrows(links: seq<Link>, more: seq<Link>, u: nat, v: nat, n: nat)
    requires ChainOf(links, u, v, n)
    ensures ChainOf(links + more, u, v, n)
    decreases n
  {
    if n > 0 {
      var x: nat :| Joins(links, u, x) && ChainOf(links, x, v, n - 1);
      ChainGrows(links, more, x, v, n - 1);
      assert Joins(links + more, u, x);
    }
  }

  lemma LinkedTransitive(links: seq<Link>, u: nat, v: nat, w: nat)
    requires Linked(links, u, v) && Linked(links, v, w)
    ensures Linked(links, u, w)
  {
    var m :| ChainOf(links, u, v, m);
    var n :| ChainOf(links, v, w, n);
    ChainAppend(links, u, v, w, m, n);
  }

  lemma LinkedSymmetric(links: seq<Link>, u: nat, v: nat)
    requires Linked(links, u, v)
    ensures Linked(links, v, u)
  {
    var n :| ChainOf(links, u, v, n);
    ChainBack(links, u, v, n);
  }

  lemma LinkedGrows(links: seq<Link>, l: Link, u: nat, v: nat)
    requires Linked(links, u, v)
    ensures Linked(links + [l], u, v)
  {
    var n :| ChainOf(links, u, v, n);
    ChainGrows(links, [l], u, v, n);
  }

  lemma LinkLinks(links: seq<Link>, u: nat, v: nat)
    requires (u, v) in links
    ensures Linked(links, u, v)
  {
    assert ChainOf(links, v, v, 0);
    assert Joins(links, u, v);
    assert ChainOf(links, u, v, 1);
  }

  // The nodes whose root is r.
  ghost function Class(parents: seq<int>, sizes: seq<int>, r: nat): set<nat>
    requires Forest(parents, sizes)
  {
    set x: nat | x < |parents| && Find(parents, sizes, x) == r
  }

  // Total size of the roots among the first k nodes.
  ghost function RootSizes(parents: seq<int>, sizes: seq<int>, k: nat): int
    requires k <= |parents| == |sizes|
  {
    if k == 0 then 0 else RootSizes(parents, sizes, k - 1) + if parents[k - 1] < 0 then sizes[k - 1] else 0
  }

  // The number of roots among the first k nodes.
  ghost function RootCount(parents: seq<int>, k: nat): nat
    requires k <= |parents|
  {
    if k == 0 then 0 else RootCount(parents, k - 1) + if parents[k - 1] < 0 then 1 else 0
  }

  // A node that no union with another node has named.
  ghost predicate Alone(links: seq<Link>, x: nat) {
    forall l :: l in links && (l.0 == x || l.1 == x) ==> l.0 == l.1
  }

  ghost predicate LooksAlone(parents: seq<int>, sizes: seq<int>, x: nat)
    requires x < |parents| == |sizes|
  {
    parents[x] < 0 && sizes[x] == 1
  }

  ghost predicate RootLinked(parents: seq<int>, sizes: seq<int>, links: seq<Link>, u: nat)
    requires Forest(parents, sizes) && u < |parents|
  {
    Linked(links, u, Find(parents, sizes, u))
  }

  // Everything union_ keeps.
  ghost predicate Good(parents: seq<int>, sizes: seq<int>, links: seq<Link>) {
    && Forest(parents, sizes)
    && (forall l :: l in links ==> l.0 < |parents| && l.1 < |parents|)
    && (forall u, v {:trigger (u, v) in links} ::
          (u, v) in links ==> Find(parents, sizes, u) == Find(parents, sizes, v))
    && (forall u: nat {:trigger RootLinked(parents, sizes, links, u)} ::
          u < |parents| ==> RootLinked(parents, sizes, links, u))
    && (forall r: nat {:trigger Class(parents, sizes, r)} ::
          r < |parents| && parents[r] < 0 ==> sizes[r] == |Class(parents, sizes, r)|)
  }

  lemma {:induction false} ChainSameRoot(parents: seq<int>, sizes: seq<int>, links: seq<Link>, u: nat, v: nat, n: nat)
    requires Good(parents, sizes, links) && u < |parents| && v < |parents| && ChainOf(links, u, v, n)
    ensures Find(parents, sizes, u) == Find(parents, sizes, v)
    decreases n
  {
    if n > 0 {
      var w: nat :| Joins(links, u, w) && ChainOf(links, w, v, n - 1);
      assert (u, w) in links || (w, u) in links;
      ChainSameRoot(parents, sizes, links, w, v, n - 1);
    }
  }

  // Main result: two nodes have the same root exactly when past unions link them.
  lemma FindIffLinked(parents: seq<int>, sizes: seq<int>, links: seq<Link>, u: nat, v: nat)
    requires Good(parents, sizes, links) && u < |parents| && v < |parents|
    ensures Find(parents, sizes, u) == Find(parents, sizes, v) <==> Linked(links, u, v)
  {
    if Find(parents, sizes, u) == Find(parents, sizes, v) {
      assert RootLinked(parents, sizes, links, u) && RootLinked(parents, sizes, links, v);
      LinkedSymmetric(links, v, Find(parents, sizes, v));
      LinkedTransitive(links, u, Find(parents, sizes, u), v);
    }
    if Linked(links, u, v) {
      var n :| ChainOf(links, u, v, n);
      ChainSameRoot(parents, sizes, links, u, v, n);
    }
  }

  // ---- one union -----------------------------------------------------

  ghost predicate AreRootsOf(parents: seq<int>, sizes: seq<int>, u: nat, v: nat, a: nat, b: nat)
    requires Forest(parents, sizes) && u < |parents| && v < |parents|
  {
    var p, q := Find(parents, sizes, u), Find(parents, sizes, v);
    (a == p && b == q) || (a == q && b == p)
  }

  // Hanging root a below root b.
  ghost predicate CanHang(parents: seq<int>, sizes: seq<int>, a: nat, b: nat) {
    && Forest(parents, sizes) && a < |parents| && b < |parents| && a != b
    && parents[a] < 0 && parents[b] < 0 && sizes[a] <= sizes[b] && sizes[a] + sizes[b] <= |parents|
  }

  lemma HangForest(parents: seq<int>, sizes: seq<int>, a: nat, b: nat)
    requires CanHang(parents, sizes, a, b)
    ensures Forest(parents[a := b], sizes[b := sizes[b] + sizes[a]])
  {
    var parents', sizes' := parents[a := b], sizes[b := sizes[b] + sizes[a]];
    forall u | 0 <= u < |parents'|
      ensures 1 <= sizes'[u] <= |parents'| && parents'[u] < |parents'|
      ensures parents'[u] >= 0 ==> 2 * sizes'[u] <= sizes'[parents'[u]]
    {
      assert parents[u] < |parents| && parents[a] < 0 && parents[b] < 0;
    }
  }

  lemma {:induction false} HangFind(parents: seq<int>, sizes: seq<int>, a: nat, b: nat, u: nat)
    requires CanHang(parents, sizes, a, b) && u < |parents|
    requires Forest(parents[a := b], sizes[b := sizes[b] + sizes[a]])
    ensures Find(parents[a := b], sizes[b := sizes[b] + sizes[a]], u)
         == if Find(parents, sizes, u) == a then b else Find(parents, sizes, u)
    decreases |parents| - sizes[u]
  {
    if parents[u] >= 0 {
      HangFind(parents, sizes, a, b, parents[u]);
    }
  }

  lemma HangClass(parents: seq<int>, sizes: seq<int>, a: nat, b: nat, r: nat)
    requires CanHang(parents, sizes, a, b) && r < |parents|
    requires Forest(parents[a := b], sizes[b := sizes[b] + sizes[a]])
    ensures var parents', sizes' := parents[a := b], sizes[b := sizes[b] + sizes[a]];
      && (r != a && r != b ==> Class(parents', sizes', r) == Class(parents, sizes, r))
      && Class(parents', sizes', b) == Class(parents, sizes, a) + Class(parents, sizes, b)
  {
    var parents', sizes' := parents[a := b], sizes[b := sizes[b] + sizes[a]];
    forall u: nat | u < |parents|
      ensures Find(parents', sizes', u) == if Find(parents, sizes, u) == a then b else Find(parents, sizes, u)
    {
      HangFind(parents, sizes, a, b, u);
    }
  }

  lemma ClassSizes(parents: seq<int>, sizes: seq<int>, a: nat, b: nat)
    requires Forest(parents, sizes) && a != b
    ensures Class(parents, sizes, a) !! Class(parents, sizes, b)
    ensures |Class(parents, sizes, a) + Class(parents, sizes, b)|
         == |Class(parents, sizes, a)| + |Class(parents, sizes, b)|
    ensures |Class(parents, sizes, a)| + |Class(parents, sizes, b)| <= |parents|
  {
    var c, d := Class(parents, sizes, a), Class(parents, sizes, b);
    assert |c + d| == |c| + |d| by { assert c !! d; }
    SubsetOfRange(c + d, |parents|);
  }

  lemma {:induction false} SubsetOfRange(s: set<nat>, n: nat)
    requires forall x :: x in s ==> x < n
    ensures |s| <= n
    decreases n
  {
    if n == 0 {
      assert s == {};
    } else {
      SubsetOfRange(s - {n - 1}, n - 1);
    }
  }

  lemma {:induction false} HangSums(parents: seq<int>, sizes: seq<int>, a: nat, b: nat, k: nat)
    requires CanHang(parents, sizes, a, b) && k <= |parents|
    ensures RootSizes(parents[a := b], sizes[b := sizes[b] + sizes[a]], k)
         == RootSizes(parents, sizes, k) + (if b < k then sizes[a] else 0) - (if a < k then sizes[a] else 0)
    ensures RootCount(parents[a := b], k) == RootCount(parents, k) - (if a < k then 1 else 0)
    decreases k
  {
    if k > 0 { HangSums(parents, sizes, a, b, k - 1); }
  }

  // A union that joins two trees.
  lemma HangGood(parents: seq<int>, sizes: seq<int>, links: seq<Link>, u: nat, v: nat, a: nat, b: nat)
    requires Good(parents, sizes, links) && u < |parents| && v < |parents|
    requires AreRootsOf(parents, sizes, u, v, a, b) && a != b && sizes[a] <= sizes[b]
    ensures CanHang(parents, sizes, a, b)
    ensures Good(parents[a := b], sizes[b := sizes[b] + sizes[a]], links + [(u, v)])
  {
    ClassSizes(parents, sizes, a, b);
    assert sizes[a] == |Class(parents, sizes, a)| && sizes[b] == |Class(parents, sizes, b)|;
    HangForest(parents, sizes, a, b);
    HangLinks(parents, sizes, links, u, v, a, b);
    HangSizes(parents, sizes, a, b);
  }

  lemma HangSizes(parents: seq<int>, sizes: seq<int>, a: nat, b: nat)
    requires CanHang(parents, sizes, a, b)
    requires Forest(parents[a := b], sizes[b := sizes[b] + sizes[a]])
    requires forall r: nat {:trigger Class(parents, sizes, r)} ::
               r < |parents| && parents[r] < 0 ==> sizes[r] == |Class(parents, sizes, r)|
    ensures var parents', sizes' := parents[a := b], sizes[b := sizes[b] + sizes[a]];
      forall r: nat {:trigger Class(parents', sizes', r)} ::
        r < |parents'| && parents'[r] < 0 ==> sizes'[r] == |Class(parents', sizes', r)|
  {
    var parents', sizes' := parents[a := b], sizes[b := sizes[b] + sizes[a]];
    ClassSizes(parents, sizes, a, b);
    forall r: nat | r < |parents'| && parents'[r] < 0 ensures sizes'[r] == |Class(parents', sizes', r)| {
      HangClass(parents, sizes, a, b, r);
      assert r != b ==> sizes[r] == |Class(parents, sizes, r)|;
    }
  }

  lemma HangLinks(parents: seq<int>, sizes: seq<int>, links: seq<Link>, u: nat, v: nat, a: nat, b: nat)
    requires Good(parents, sizes, links) && u < |parents| && v < |parents|
    requires CanHang(parents, sizes, a, b) && AreRootsOf(parents, sizes, u, v, a, b)
    requires Forest(parents[a := b], sizes[b := sizes[b] + sizes[a]])
    ensures var parents', sizes' := parents[a := b], sizes[b := sizes[b] + sizes[a]];
      && (forall x, y {:trigger (x, y) in links + [(u, v)]} :: (x, y) in links + [(u, v)] ==>
            Find(parents', sizes', x) == Find(parents', sizes', y))
      && (forall x: nat {:trigger RootLinked(parents', sizes', links + [(u, v)], x)} :: x < |parents| ==>
            RootLinked(parents', sizes', links + [(u, v)], x))
  {
    var parents', sizes' := parents[a := b], sizes[b := sizes[b] + sizes[a]];
    forall x, y | (x, y) in links + [(u, v)] ensures Find(parents', sizes', x) == Find(parents', sizes', y) {
      assert (x, y) in links || (x, y) == (u, v);
      HangFind(parents, sizes, a, b, x);
      HangFind(parents, sizes, a, b, y);
    }
    forall x: nat | x < |parents| ensures RootLinked(parents', sizes', links + [(u, v)], x) {
      assert RootLinked(parents, sizes, links, x);
      HangFind(parents, sizes, a, b, x);
      LinkedGrows(links, (u, v), x, Find(parents, sizes, x));
      if Find(parents, sizes, x) == a {
        RootsLinked(parents, sizes, links, u, v, a, b);
        LinkedTransitive(links + [(u, v)], x, a, b);
      }
    }
  }

  lemma RootsLinked(parents: seq<int>, sizes: seq<int>, links: seq<Link>, u: nat, v: nat, a: nat, b: nat)
    requires Good(parents, sizes, links) && u < |parents| && v < |parents|
    requires AreRootsOf(parents, sizes, u, v, a, b) && a != b
    ensures Linked(links + [(u, v)], a, b)
  {
    var all, p, q := links + [(u, v)], Find(parents, sizes, u), Find(parents, sizes, v);
    assert RootLinked(parents, sizes, links, u) && RootLinked(parents, sizes, links, v);
    LinkedGrows(links, (u, v), u, p);
    LinkedGrows(links, (u, v), v, q);
    LinkedSymmetric(all, u, p);
    LinkLinks(all, u, v);
    LinkedTransitive(all, p, u, v);
    LinkedTransitive(all, p, v, q);
    LinkedSymmetric(all, p, q);
  }

  // A union inside one tree.
  lemma SameTreeGood(parents: seq<int>, sizes: seq<int>, links: seq<Link>, u: nat, v: nat)
    requires Good(parents, sizes, links) && u < |parents| && v < |parents|
    requires Find(parents, sizes, u) == Find(parents, sizes, v)
    ensures Good(parents, sizes, links + [(u, v)])
  {
    forall x, y | (x, y) in links + [(u, v)] ensures Find(parents, sizes, x) == Find(parents, sizes, y) {
      assert (x, y) in links || (x, y) == (u, v);
    }
    forall x: nat | x < |parents| ensures RootLinked(parents, sizes, links + [(u, v)], x) {
      assert RootLinked(parents, sizes, links, x);
      LinkedGrows(links, (u, v), x, Find(parents, sizes, x));
    }
  }

  // ---- counting the nodes that unions have named -----------------------

  ghost predicate InRange(links: seq<Link>, n: nat) {
    forall l :: l in links ==> l.0 < n && l.1 < n
  }

  ghost function Named(links: seq<Link>): set<nat> {
    if links == [] then {} else Named(links[..|links| - 1]) + {links[|links| - 1].0, links[|links| - 1].1}
  }

  ghost function Busy(links: seq<Link>, n: nat): set<nat> {
    set x: nat | x < n && !Alone(links, x)
  }

  // Calls union_(u, u) on a node that is still alone.
  ghost function IdleCalls(links: seq<Link>): nat {
    if links == [] then 0
    else
      var (before, l) := (links[..|links| - 1], links[|links| - 1]);
      IdleCalls(before) + if l.0 == l.1 && Alone(before, l.0) then 1 else 0
  }

  lemma BusyGrows(links: seq<Link>, n: nat, u: nat, v: nat)
    requires u < n && v < n
    ensures Busy(links + [(u, v)], n) == if u == v then Busy(links, n) else Busy(links, n) + {u, v}
  {
    var more := links + [(u, v)];
    forall x: nat ensures Alone(more, x) <==> Alone(links, x) && (x in {u, v} ==> u == v) {
      if Alone(more, x) {
        forall l | l in links && (l.0 == x || l.1 == x) ensures l.0 == l.1 { assert l in more; }
        assert (u, v) in more;
      }
    }
  }

  // The named nodes are the busy ones and at most one more per idle call.
  ghost predicate NamedFits(links: seq<Link>, n: nat) {
    && Busy(links, n) <= Named(links)
    && |Named(links)| <= |Busy(links, n)| + IdleCalls(links)
    && (IdleCalls(links) == 0 ==> Named(links) == Busy(links, n))
  }

  lemma NamedMore(before: seq<Link>, n: nat, l: Link)
    requires NamedFits(before, n) && l.0 < n && l.1 < n
    ensures NamedFits(before + [l], n)
  {
    var links := before + [l];
    assert links[..|links| - 1] == before;
    BusyGrows(before, n, l.0, l.1);
    var named, busy := Named(before), Busy(before, n);
    if l.0 != l.1 {
      GrowBoth(named, busy, l.0, l.1);
    } else if Alone(before, l.0) {
      assert Named(links) == named + {l.0};
      assert |named + {l.0}| <= |named| + 1;
    } else {
      assert l.0 in busy;
      assert Named(links) == named;
    }
  }

  lemma {:induction false} NamedCount(links: seq<Link>, n: nat)
    requires InRange(links, n)
    ensures NamedFits(links, n)
    decreases |links|
  {
    if links != [] {
      var (before, l) := (links[..|links| - 1], links[|links| - 1]);
      assert links == before + [l];
      NamedCount(before, n);
      NamedMore(before, n, l);
    } else {
      assert Busy(links, n) == {};
    }
  }

  lemma GrowBoth(named: set<nat>, busy: set<nat>, u: nat, v: nat)
    requires busy <= named && u != v
    ensures |named + {u, v}| - |named| <= |busy + {u, v}| - |busy|
  {
    assert named + {u, v} == named + ({u, v} - named);
    assert busy + {u, v} == busy + ({u, v} - busy);
    assert |named + ({u, v} - named)| == |named| + |{u, v} - named|;
    assert |busy + ({u, v} - busy)| == |busy| + |{u, v} - busy|;
    assert {u, v} - named <= {u, v} - busy;
    SubsetSize({u, v} - named, {u, v} - busy);
  }

  // In the arrays a node looks alone exactly when the calls leave it alone.
  ghost predicate AloneShows(parents: seq<int>, sizes: seq<int>, links: seq<Link>)
    requires |parents| == |sizes|
  {
    forall x: nat {:trigger Alone(links, x)} :: x < |parents| ==> (LooksAlone(parents, sizes, x) <==> Alone(links, x))
  }

  lemma ChildNotAlone(parents: seq<int>, sizes: seq<int>, u: nat)
    requires Forest(parents, sizes) && u < |parents| && Find(parents, sizes, u) != u
    ensures sizes[Find(parents, sizes, u)] >= 2
  {
    var r := Find(parents, sizes, u);
    DepthBound(parents, sizes, u);
    assert Depth(parents, sizes, u) >= 1;
    var d := Depth(parents, sizes, u);
    PowPositive(d - 1);
    assert Pow2(d) >= 2;
    AtLeastDouble(Pow2(d), sizes[u]);
  }

  lemma AtLeastDouble(p: nat, n: int)
    requires p >= 2 && n >= 1
    ensures p * n >= 2
  {
    assert p * n >= p * 1;
  }

  lemma PowPositive(n: nat)
    ensures Pow2(n) >= 1
  {
  }

  lemma HangAlone(parents: seq<int>, sizes: seq<int>, links: seq<Link>, u: nat, v: nat, a: nat, b: nat)
    requires CanHang(parents, sizes, a, b) && AloneShows(parents, sizes, links)
    requires u < |parents| && v < |parents| && AreRootsOf(parents, sizes, u, v, a, b)
    ensures u != v
    ensures AloneShows(parents[a := b], sizes[b := sizes[b] + sizes[a]], links + [(u, v)])
  {
    var parents', sizes' := parents[a := b], sizes[b := sizes[b] + sizes[a]];
    var n := |parents|;
    BusyGrows(links, n, u, v);
    if Find(parents, sizes, u) != u { ChildNotAlone(parents, sizes, u); }
    if Find(parents, sizes, v) != v { ChildNotAlone(parents, sizes, v); }
    forall x: nat | x < n ensures LooksAlone(parents', sizes', x) <==> Alone(links + [(u, v)], x) {
      assert x in Busy(links, n) <==> !Alone(links, x);
      assert x in Busy(links + [(u, v)], n) <==> !Alone(links + [(u, v)], x);
    }
  }

  lemma SameTreeAlone(parents: seq<int>, sizes: seq<int>, links: seq<Link>, u: nat, v: nat)
    requires Forest(parents, sizes) && AloneShows(parents, sizes, links)
    requires u < |parents| && v < |parents| && Find(parents, sizes, u) == Find(parents, sizes, v)
    ensures AloneShows(parents, sizes, links + [(u, v)])
    ensures u != v ==> !LooksAlone(parents, sizes, u) && !LooksAlone(parents, sizes, v)
  {
    var n := |parents|;
    BusyGrows(links, n, u, v);
    if Find(parents, sizes, u) != u { ChildNotAlone(parents, sizes, u); }
    if Find(parents, sizes, v) != v { ChildNotAlone(parents, sizes, v); }
    forall x: nat | x < n ensures LooksAlone(parents, sizes, x) <==> Alone(links + [(u, v)], x) {
      assert x in Busy(links, n) <==> !Alone(links, x);
      assert x in Busy(links + [(u, v)], n) <==> !Alone(links + [(u, v)], x);
    }
  }

  lemma FreshForest(parents: seq<int>, sizes: seq<int>)
    requires |parents| == |sizes| > 0
    requires forall u :: 0 <= u < |parents| ==> parents[u] == -1 && sizes[u] == 1
    ensures Good(parents, sizes, []) && AloneShows(parents, sizes, [])
    ensures RootSizes(parents, sizes, |parents|) == RootCount(parents, |parents|) == |parents|
    ensures Busy([], |parents|) == {}
  {
    FreshSums(parents, sizes, |parents|);
    forall u: nat | u < |parents| ensures RootLinked(parents, sizes, [], u) { assert ChainOf([], u, u, 0); }
    forall r: nat | r < |parents| ensures Class(parents, sizes, r) == {r} {}
  }

  lemma {:induction false} FreshSums(parents: seq<int>, sizes: seq<int>, k: nat)
    requires |parents| == |sizes| && k <= |parents|
    requires forall u :: 0 <= u < |parents| ==> parents[u] == -1 && sizes[u] == 1
    ensures RootSizes(parents, sizes, k) == RootCount(parents, k) == k
  {
    if k > 0 { FreshSums(parents, sizes, k - 1); }
  }

  // How one union call changes the number of busy nodes.
  lemma BusyCount(links: seq<Link>, n: nat, u: nat, v: nat)
    requires u < n && v < n
    ensures IdleCalls(links + [(u, v)]) == IdleCalls(links) + if u == v && Alone(links, u) then 1 else 0
    ensures |Busy(links + [(u, v)], n)| == |Busy(links, n)|
              + if u == v then 0 else (if Alone(links, u) then 1 else 0) + (if Alone(links, v) then 1 else 0)
  {
    assert (links + [(u, v)])[..|links|] == links;
    BusyGrows(links, n, u, v);
    assert u in Busy(links, n) <==> !Alone(links, u);
    assert v in Busy(links, n) <==> !Alone(links, v);
    if u != v { AddTwo(Busy(links, n), u, v); }
  }

  lemma AddTwo(s: set<nat>, u: nat, v: nat)
    requires u != v
    ensures |s + {u, v}| == |s| + (if u in s then 0 else 1) + (if v in s then 0 else 1)
  {
    var t := s + {u};
    assert u in s ==> t == s;
    assert v in t ==> t + {v} == t;
    assert |t| == |s| + if u in s then 0 else 1;
    assert |t + {v}| == |t| + if v in t then 0 else 1;
    assert s + {u, v} == t + {v};
  }

  // The roots that find returns for the first k nodes.
  ghost function Representatives(parents: seq<int>, sizes: seq<int>, k: nat): set<nat>
    requires Forest(parents, sizes) && k <= |parents|
  {
    set u: nat | u < k :: Find(parents, sizes, u)
  }

  ghost function Roots(parents: seq<int>, k: nat): set<nat>
    requires k <= |parents|
  {
    set r: nat | r < k && parents[r] < 0
  }

  lemma {:induction false} RootsCounted(parents: seq<int>, k: nat)
    requires k <= |parents|
    ensures |Roots(parents, k)| == RootCount(parents, k)
  {
    if k == 0 {
      assert Roots(parents, 0) == {};
    } else {
      RootsCounted(parents, k - 1);
      assert Roots(parents, k) == Roots(parents, k - 1) + if parents[k - 1] < 0 then {k - 1} else {};
    }
  }

  lemma RepresentativesAreRoots(parents: seq<int>, sizes: seq<int>)
    requires Forest(parents, sizes)
    ensures Representatives(parents, sizes, |parents|) == Roots(parents, |parents|)
    ensures |Representatives(parents, sizes, |parents|)| == RootCount(parents, |parents|)
  {
    RootsCounted(parents, |parents|);
    forall r | r in Roots(parents, |parents|) ensures r in Representatives(parents, sizes, |parents|) {
      assert Find(parents, sizes, r) == r;
    }
  }

  lemma {:induction false} SizeBelowRoot(parents: seq<int>, sizes: seq<int>, u: nat)
    requires Forest(parents, sizes) && u < |parents|
    ensures sizes[u] <= sizes[Find(parents, sizes, u)]
    decreases |parents| - sizes[u]
  {
    if parents[u] >= 0 { SizeBelowRoot(parents, sizes, parents[u]); }
  }

  ghost predicate Sound(parents: seq<int>, sizes: seq<int>, nodesAdded: int, links: seq<Link>, merges: nat) {
    && |parents| > 0
    && Good(parents, sizes, links)
    && AloneShows(parents, sizes, links)
    && RootSizes(parents, sizes, |parents|) == |parents|
    && RootCount(parents, |parents|) + merges == |parents|
    && nodesAdded == |Busy(links, |parents|)| + 2 * IdleCalls(links)
  }

  // What update_count adds to nodes_added.
  ghost function Newcomers(parents: seq<int>, sizes: seq<int>, u: nat, v: nat): int
    requires u < |parents| == |sizes| && v < |parents|
  {
    (if LooksAlone(parents, sizes, u) then 1 else 0) + (if LooksAlone(parents, sizes, v) then 1 else 0)
  }

  lemma SameTreeSound(parents: seq<int>, sizes: seq<int>, nodesAdded: int, links: seq<Link>, merges: nat,
                      u: nat, v: nat, nodesAdded': int, links': seq<Link>)
    requires Sound(parents, sizes, nodesAdded, links, merges) && u < |parents| && v < |parents|
    requires Find(parents, sizes, u) == Find(parents, sizes, v)
    requires nodesAdded' == nodesAdded + Newcomers(parents, sizes, u, v) && links' == links + [(u, v)]
    ensures Sound(parents, sizes, nodesAdded', links', merges)
  {
    BusyCount(links, |parents|, u, v);
    SameTreeGood(parents, sizes, links, u, v);
    SameTreeAlone(parents, sizes, links, u, v);
    assert LooksAlone(parents, sizes, u) <==> Alone(links, u);
    assert LooksAlone(parents, sizes, v) <==> Alone(links, v);
  }

  lemma HangSound(parents: seq<int>, sizes: seq<int>, nodesAdded: int, links: seq<Link>, merges: nat, u: nat, v: nat,
                  a: nat, b: nat, parents': seq<int>, sizes': seq<int>, nodesAdded': int, links': seq<Link>)
    requires Sound(parents, sizes, nodesAdded, links, merges) && u < |parents| && v < |parents|
    requires AreRootsOf(parents, sizes, u, v, a, b) && a != b && sizes[a] <= sizes[b]
    requires parents' == parents[a := b] && sizes' == sizes[b := sizes[b] + sizes[a]]
    requires nodesAdded' == nodesAdded + Newcomers(parents, sizes, u, v) && links' == links + [(u, v)]
    ensures Sound(parents', sizes', nodesAdded', links', merges + 1)
  {
    BusyCount(links, |parents|, u, v);
    HangGood(parents, sizes, links, u, v, a, b);
    HangAlone(parents, sizes, links, u, v, a, b);
    HangSums(parents, sizes, a, b, |parents|);
    assert LooksAlone(parents, sizes, u) <==> Alone(links, u);
    assert LooksAlone(parents, sizes, v) <==> Alone(links, v);
  }
}

module UnionFind {
  import opened Forests

  class UnionFind {
    var parents: seq<int>
    var size: seq<int>
    var nodesAdded: int
    ghost var links: seq<Link>   // the arguments of all past unions
    ghost var merges: nat        // how many of them joined two trees

    ghost predicate Valid()
      reads this
    {
      Sound(parents, size, nodesAdded, links, merges)
    }

    constructor (n: nat)
      ensures Valid() && links == [] && merges == 0 && nodesAdded == 0 && |parents| == n + 1
    {
      parents := seq(n + 1, _ => -1);
      size := seq(n + 1, _ => 1);
      nodesAdded, links, merges := 0, [], 0;
      new;
      FreshForest(parents, size);
    }

    method UpdateCount(u: nat)
      requires u < |parents| && |parents| == |size| && 1 <= size[u]
      modifies this`nodesAdded
      ensures nodesAdded == old(nodesAdded) + if LooksAlone(parents, size, u) then 1 else 0
    {
      if parents[u] >= 0 || size[u] > 1 {
        return;
      }
      nodesAdded := nodesAdded + 1;
    }

    method Union(u: nat, v: nat) returns (joined: bool)
      requires Valid() && u < |parents| && v < |parents|
      modifies this
      ensures Valid() && |parents| == old(|parents|) && links == old(links) + [(u, v)]
      ensures joined <==> Find(old(parents), old(size), u) != Find(old(parents), old(size), v)
      ensures merges == old(merges) + if joined then 1 else 0
      ensures nodesAdded == old(nodesAdded) + Newcomers(old(parents), old(size), u, v)
    {
      ghost var count0 := nodesAdded;
      assert parents[u] < |parents| && parents[v] < |parents|;
      UpdateCount(u);
      UpdateCount(v);
      var pu := Find(parents, size, u);
      var pv := Find(parents, size, v);
      if pu == pv {
        Note(u, v, count0);
        return false;
      }
      if size[pu] > size[pv] {
        pu, pv := pv, pu;
      }
      Hang(pu, pv, u, v, count0);
      return true;
    }

    // Records a union within one tree.
    ghost method Note(u: nat, v: nat, count: int)
      requires Sound(parents, size, count, links, merges) && u < |parents| && v < |parents|
      requires Find(parents, size, u) == Find(parents, size, v)
      requires nodesAdded == count + Newcomers(parents, size, u, v)
      modifies this`links
      ensures Valid() && links == old(links) + [(u, v)]
    {
      ghost var links0 := links;
      links := links + [(u, v)];
      SameTreeSound(parents, size, count, links0, merges, u, v, nodesAdded, links);
    }

    // Hangs the root pu below the root pv, which is no smaller.
    method Hang(pu: nat, pv: nat, ghost u: nat, ghost v: nat, ghost count: int)
      requires Sound(parents, size, count, links, merges) && u < |parents| && v < |parents|
      requires AreRootsOf(parents, size, u, v, pu, pv) && pu != pv && size[pu] <= size[pv]
      requires nodesAdded == count + Newcomers(parents, size, u, v)
      modifies this`parents, this`size, this`links, this`merges
      ensures Valid() && |parents| == old(|parents|)
      ensures links == old(links) + [(u, v)] && merges == old(merges) + 1
    {
      ghost var (parents0, size0, links0, merges0) := (parents, size, links, merges);
      parents := parents[pu := pv];
      size := size[pv := size[pv] + size[pu]];
      links, merges := links + [(u, v)], merges + 1;
      HangSound(parents0, size0, count, links0, merges0, u, v, pu, pv, parents, size, nodesAdded, links);
    }

    // 0 for a node alone in its class, else the size of the class.
    function GetSize(u: nat): (n: int)
      requires Valid() && u < |parents|
      reads this
      ensures var c := |Class(parents, size, Find(parents, size, u))|;
        n == if c == 1 then 0 else c
    {
      if size[Find(parents, size, u)] == 1 then 0 else size[Find(parents, size, u)]
    }

    // The number of classes, which each successful union lowers by one.
    method GetComponents() returns (n: nat)
      requires Valid()
      ensures n == |Representatives(parents, size, |parents|)|
      ensures n + merges == |parents|
    {
      var components: set<nat> := {};
      for i := 0 to |parents|
        invariant components == Representatives(parents, size, i)
      {
        components := components + {Find(parents, size, i)};
      }
      RepresentativesAreRoots(parents, size);
      return |components|;
    }

    // The size of a largest class.
    method MaxComponentSize() returns (n: int)
      requires Valid()
      ensures exists r: nat :: r < |parents| && n == |Class(parents, size, Find(parents, size, r))|
      ensures forall u: nat :: u < |parents| ==> |Class(parents, size, Find(parents, size, u))| <= n
    {
      n := size[0];
      ghost var at: nat := 0;
      for i := 1 to |size|
        invariant Valid()
        invariant at < |size| && n == size[at]
        invariant forall k :: 0 <= k < i ==> size[k] <= n
      {
        if size[i] > n {
          n, at := size[i], i;
        }
      }
      SizeBelowRoot(parents, size, at);
      assert size[Find(parents, size, at)] == n;
      forall u: nat | u < |parents| ensures |Class(parents, size, Find(parents, size, u))| <= n {
        assert size[Find(parents, size, u)] == |Class(parents, size, Find(parents, size, u))|;
      }
    }

    // find answers whether past unions link two nodes, so that union_ returns
    // true exactly for nodes not linked before.
    lemma FindDecidesLinked(u: nat, v: nat)
      requires Valid() && u < |parents| && v < |parents|
      ensures Find(parents, size, u) == Find(parents, size, v) <==> Linked(links, u, v)
    {
      FindIffLinked(parents, size, links, u, v);
    }

    // No node lies deeper than the binary logarithm of its class's size.
    lemma DepthIsLogarithmic(u: nat)
      requires Valid() && u < |parents|
      ensures Pow2(Depth(parents, size, u)) <= |Class(parents, size, Find(parents, size, u))|
    {
      ClassHasDepth(parents, size, u);
      assert size[Find(parents, size, u)] == |Class(parents, size, Find(parents, size, u))|;
    }

    // get_count() reports the number of nodes named in unions exactly when no
    // call united a node that was still alone with itself.
    lemma CountIsExact()
      requires Valid()
      ensures nodesAdded == |Named(links)| <==> IdleCalls(links) == 0
    {
      NamedCount(links, |parents|);
    }
  }

  // A failing input: united with itself on a new object, a node counts twice.
  method SelfUnionCountsTwice(n: nat, u: nat) returns (uf: UnionFind)
    requires u <= n
    ensures fresh(uf) && uf.Valid() && uf.links == [(u, u)]
    ensures uf.nodesAdded == 2 && |Named(uf.links)| == 1
  {
    uf := new UnionFind(n);
    var joined := uf.Union(u, u);
    assert uf.links[..0] == [] && Named(uf.links) == {u};
  }
}
