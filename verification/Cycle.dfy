// Cycle::meetCycle and Cycle::detectCycle of leetcode/LinkedList.cpp: Floyd's
// tortoise and hare, then the walk to the first node of the cycle.

module Cycle {
  import opened Sequences

  class ListNode {
    var val: int
    var next: ListNode?
  }

  // A finite list structure: the nodes reachable from any of `nodes` are in it.
  ghost predicate Closed(nodes: set<ListNode>)
    reads nodes
  {
    forall n :: n in nodes && n.next != null ==> n.next in nodes
  }

  // The node k links after head, or null beyond the end.
  ghost function At(head: ListNode?, nodes: set<ListNode>, k: nat): (n: ListNode?)
    requires Closed(nodes) && (head == null || head in nodes)
    reads nodes
    ensures n == null || n in nodes
  {
    if k == 0 then head
    else
      var p := At(head, nodes, k - 1);
      if p == null then null else p.next
  }

  ghost predicate Ends(head: ListNode?, nodes: set<ListNode>)
    requires Closed(nodes) && (head == null || head in nodes)
    reads nodes
  {
    exists k :: At(head, nodes, k) == null
  }

  // The k-th node comes round again.
  ghost predicate Recurs(head: ListNode?, nodes: set<ListNode>, k: nat)
    requires Closed(nodes) && (head == null || head in nodes)
    reads nodes
  {
    exists j: nat :: j > k && At(head, nodes, j) == At(head, nodes, k)
  }

  // n is the first node from head that lies on a cycle.
  ghost predicate IsCycleEntry(head: ListNode?, nodes: set<ListNode>, n: ListNode)
    requires Closed(nodes) && (head == null || head in nodes)
    reads nodes
  {
    exists k: nat ::
      && At(head, nodes, k) == n
      && Recurs(head, nodes, k)
      && forall j: nat :: j < k ==> !Recurs(head, nodes, j)
  }

  lemma {:induction false} Shift(head: ListNode?, nodes: set<ListNode>, i: nat, j: nat, d: nat)
    requires Closed(nodes) && (head == null || head in nodes)
    requires At(head, nodes, i) == At(head, nodes, j)
    ensures At(head, nodes, i + d) == At(head, nodes, j + d)
    decreases d
  {
    if d > 0 {
      Shift(head, nodes, i, j, d - 1);
      assert i + d - 1 == i + (d - 1) && j + d - 1 == j + (d - 1);
    }
  }

  lemma {:induction false} StaysNull(head: ListNode?, nodes: set<ListNode>, i: nat, d: nat)
    requires Closed(nodes) && (head == null || head in nodes)
    requires At(head, nodes, i) == null
    ensures At(head, nodes, i + d) == null
    decreases d
  {
    if d > 0 { StaysNull(head, nodes, i, d - 1); }
  }

  ghost function Visited(head: ListNode?, nodes: set<ListNode>, k: nat): set<ListNode?>
    requires Closed(nodes) && (head == null || head in nodes)
    reads nodes
  {
    if k == 0 then {} else Visited(head, nodes, k - 1) + {At(head, nodes, k - 1)}
  }

  lemma {:induction false} VisitedHas(head: ListNode?, nodes: set<ListNode>, k: nat, n: ListNode?)
    requires Closed(nodes) && (head == null || head in nodes)
    requires n in Visited(head, nodes, k)
    ensures exists i: nat :: i < k && At(head, nodes, i) == n
  {
    if n != At(head, nodes, k - 1) { VisitedHas(head, nodes, k - 1, n); }
  }

  lemma {:induction false} VisitedDistinct(head: ListNode?, nodes: set<ListNode>, k: nat)
    requires Closed(nodes) && (head == null || head in nodes)
    requires forall i, j :: 0 <= i < j < k ==> At(head, nodes, i) != At(head, nodes, j)
    requires forall i :: 0 <= i < k ==> At(head, nodes, i) != null
    ensures |Visited(head, nodes, k)| == k
    ensures forall n :: n in Visited(head, nodes, k) ==> n != null && n in nodes
    decreases k
  {
    if k > 0 {
      VisitedDistinct(head, nodes, k - 1);
      if At(head, nodes, k - 1) in Visited(head, nodes, k - 1) {
        VisitedHas(head, nodes, k - 1, At(head, nodes, k - 1));
      }
    }
  }

  // In a finite structure the walk ends or revisits a node.
  lemma EndsOrRepeats(head: ListNode?, nodes: set<ListNode>) returns (i: nat, j: nat)
    requires Closed(nodes) && (head == null || head in nodes)
    ensures i < j && At(head, nodes, i) == At(head, nodes, j)
  {
    var k := |nodes| + 1;
    if x :| 0 <= x < k && At(head, nodes, x) == null {
      StaysNull(head, nodes, x, 1);
      i, j := x, x + 1;
    } else if a, b :| 0 <= a < b < k && At(head, nodes, a) == At(head, nodes, b) {
      i, j := a, b;
    } else {
      VisitedDistinct(head, nodes, k);
      var visited := Visited(head, nodes, k);
      var nullable: set<ListNode?> := set n | n in nodes;
      SubsetSize(visited, nullable);
      NullableSize(nodes, nullable);
      assert false;
    }
  }

  lemma {:induction false} NullableSize(a: set<ListNode>, b: set<ListNode?>)
    requires b == set n | n in a
    ensures |a| == |b|
    decreases |a|
  {
    if a != {} {
      var x :| x in a;
      NullableSize(a - {x}, b - {x});
    }
  }

  // Tortoise and hare are at the same place after some positive number of steps.
  lemma MeetingExists(head: ListNode?, nodes: set<ListNode>) returns (t: nat)
    requires Closed(nodes) && (head == null || head in nodes)
    ensures t >= 1 && At(head, nodes, t) == At(head, nodes, 2 * t)
  {
    var i, j := EndsOrRepeats(head, nodes);
    var p := j - i;
    // t is the first positive multiple of p not below i
    t := p;
    ghost var m := 1;
    while t < i
      invariant t >= 1 && t == m * p
      decreases i - t
    {
      t, m := t + p, m + 1;
    }
    Shift(head, nodes, i, j, t - i);
    assert j + (t - i) == t + p && i + (t - i) == t;
    Laps(head, nodes, t, p, m);
    assert t + m * p == 2 * t;
  }

  // Going round m times.
  lemma {:induction false} Laps(head: ListNode?, nodes: set<ListNode>, k: nat, p: nat, m: nat)
    requires Closed(nodes) && (head == null || head in nodes)
    requires At(head, nodes, k) == At(head, nodes, k + p)
    ensures At(head, nodes, k + m * p) == At(head, nodes, k)
    decreases m
  {
    if m > 0 {
      Laps(head, nodes, k, p, m - 1);
      Shift(head, nodes, k, k + p, (m - 1) * p);
      assert k + p + (m - 1) * p == k + m * p;
    } else {
      assert m * p == 0;
    }
  }

  lemma {:induction false} NeverNull(head: ListNode?, nodes: set<ListNode>, t: nat, k: nat)
    requires Closed(nodes) && (head == null || head in nodes)
    requires t >= 1 && At(head, nodes, t) == At(head, nodes, 2 * t) != null
    ensures At(head, nodes, k) != null
    decreases k
  {
    if k <= 2 * t {
      if At(head, nodes, k) == null { StaysNull(head, nodes, k, 2 * t - k); }
    } else {
      Shift(head, nodes, t, 2 * t, k - 2 * t);
      assert t + (k - 2 * t) == k - t && 2 * t + (k - 2 * t) == k;
      NeverNull(head, nodes, t, k - t);
    }
  }

  lemma AtLeastOnce(t: nat, p: nat)
    requires p >= 1
    ensures t * p >= t
  {
  }

  // If the k-th node recurs at all, it recurs after t more steps.
  lemma RecursAfter(head: ListNode?, nodes: set<ListNode>, t: nat, k: nat)
    requires Closed(nodes) && (head == null || head in nodes)
    requires t >= 1 && At(head, nodes, t) == At(head, nodes, 2 * t)
    requires Recurs(head, nodes, k)
    ensures At(head, nodes, k + t) == At(head, nodes, k)
  {
    var j: nat :| j > k && At(head, nodes, j) == At(head, nodes, k);
    var p := j - k;
    assert k + p == j;
    Laps(head, nodes, k, p, t);
    var far := k + t * p;
    AtLeastOnce(t, p);
    Shift(head, nodes, t, 2 * t, far - t);
    assert t + (far - t) == far && 2 * t + (far - t) == far + t;
    Shift(head, nodes, k, far, t);
  }

  method MeetCycle(head: ListNode?, ghost nodes: set<ListNode>) returns (meet: ListNode?, ghost t: nat)
    requires Closed(nodes) && (head == null || head in nodes)
    ensures meet == null <==> Ends(head, nodes)
    ensures meet != null ==> t >= 1 && meet == At(head, nodes, t) && meet == At(head, nodes, 2 * t)
  {
    ghost var bound := MeetingExists(head, nodes);
    var slow, fast := head, head;
    t := 0;
    while slow != null && fast != null && fast.next != null
      invariant slow == At(head, nodes, t) && fast == At(head, nodes, 2 * t)
      invariant forall s :: 1 <= s <= t ==> At(head, nodes, s) != At(head, nodes, 2 * s)
      invariant t < bound
      decreases bound - t
    {
      assert At(head, nodes, 2 * t + 1) == fast.next;
      assert At(head, nodes, 2 * t + 2) == fast.next.next;
      slow := slow.next;
      fast := fast.next.next;
      t := t + 1;
      if fast == slow {
        if fast != null {
          forall k ensures At(head, nodes, k) != null { NeverNull(head, nodes, t, k); }
        }
        return slow, t;
      }
    }
    assert Ends(head, nodes) by {
      if fast != null { assert At(head, nodes, 2 * t + 1) == null || slow == null; }
    }
    return null, t;
  }

  // Null exactly when the list ends, else the first node of the cycle.
  method DetectCycle(head: ListNode?, ghost nodes: set<ListNode>) returns (entry: ListNode?)
    requires Closed(nodes) && (head == null || head in nodes)
    ensures entry == null <==> Ends(head, nodes)
    ensures entry != null ==> IsCycleEntry(head, nodes, entry)
  {
    var meet, t := MeetCycle(head, nodes);
    if meet == null {
      return null;
    }
    forall k ensures At(head, nodes, k) != null { NeverNull(head, nodes, t, k); }
    entry := head;
    ghost var k := 0;
    while meet != entry
      invariant 0 <= k <= t && meet == At(head, nodes, t + k) && entry == At(head, nodes, k)
      invariant forall j :: 0 <= j < k ==> At(head, nodes, j) != At(head, nodes, t + j)
      decreases t - k
    {
      assert At(head, nodes, k + 1) == entry.next;
      assert At(head, nodes, t + (k + 1)) == meet.next;
      meet := meet.next;
      entry := entry.next;
      k := k + 1;
    }
    forall j: nat | j < k ensures !Recurs(head, nodes, j) {
      if Recurs(head, nodes, j) { RecursAfter(head, nodes, t, j); }
    }
    assert At(head, nodes, t + k) == At(head, nodes, k) && t + k > k;
  }
}
