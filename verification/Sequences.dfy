// Facts about lists and sets: a list without duplicates is as long as its set of
// members, and an ascending list is determined by them.
module Sequences {

  ghost predicate NoDuplicates<T>(s: seq<T>) {
    forall i, j :: 0 <= i < j < |s| ==> s[i] != s[j]
  }

  ghost function Members<T>(s: seq<T>): set<T> {
    set x | x in s
  }

  lemma SubsetSize<T>(a: set<T>, b: set<T>)
    requires a <= b
    ensures |a| <= |b|
  {
    assert b == a + (b - a);
    assert |a + (b - a)| == |a| + |b - a|;
  }

  lemma SameSize<T>(a: set<T>, b: set<T>)
    requires a <= b && |a| == |b|
    ensures a == b
  {
    assert b == a + (b - a);
    assert |a + (b - a)| == |a| + |b - a|;
  }

  lemma {:induction false} DistinctSize<T>(s: seq<T>)
    requires NoDuplicates(s)
    ensures |Members(s)| == |s|
    decreases |s|
  {
    if s != [] {
      var front, last := s[..|s| - 1], s[|s| - 1];
      DistinctSize(front);
      assert s == front + [last];
      assert Members(s) == Members(front) + {last};
      assert last !in front;
    }
  }

  function Reversed<T>(s: seq<T>): seq<T> {
    if s == [] then [] else Reversed(s[1..]) + [s[0]]
  }

  ghost predicate Ascending(s: seq<nat>) {
    forall i, j :: 0 <= i < j < |s| ==> s[i] < s[j]
  }

  lemma OrderOf(s: seq<nat>, i: nat, j: nat)
    requires Ascending(s) && i < |s| && j < |s|
    ensures i < j <==> s[i] < s[j]
  {
    if j < i { assert s[j] < s[i]; }
  }

  ghost predicate SameMembers(p: seq<nat>, q: seq<nat>) {
    forall x :: x in p <==> x in q
  }

  lemma FrontMembers(p: seq<nat>, front: seq<nat>, last: nat)
    requires Ascending(p) && p == front + [last]
    ensures Ascending(front)
    ensures forall x :: x in front <==> x in p && x != last
    ensures forall x :: x in p ==> x <= last
  {
    assert p[|front|] == last;
    assert forall i :: 0 <= i < |front| ==> front[i] == p[i];
    forall x | x in front ensures x < last {
      var i :| 0 <= i < |front| && front[i] == x;
      assert p[i] == x;
    }
  }

  lemma HasMember(q: seq<nat>)
    requires q != []
    ensures exists x :: x in q
  {
    assert q[0] in q;
  }

  lemma {:induction false} SameMembersSameList(p: seq<nat>, q: seq<nat>)
    requires Ascending(p) && Ascending(q) && SameMembers(p, q)
    ensures p == q
    decreases |p|
  {
    if p == [] {
      if q != [] { HasMember(q); }
    } else {
      assert p[0] in q;
      var (front, last) := (p[..|p| - 1], p[|p| - 1]);
      var (front', last') := (q[..|q| - 1], q[|q| - 1]);
      FrontMembers(p, front, last);
      FrontMembers(q, front', last');
      assert last in q && last' in p;
      SameMembersSameList(front, front');
    }
  }

  lemma {:induction false} ReversedAt<T>(s: seq<T>, k: nat)
    requires k < |s|
    ensures |Reversed(s)| == |s| && Reversed(s)[k] == s[|s| - 1 - k]
  {
    if |s| > 1 { ReversedAt(s[1..], if k < |s| - 1 then k else 0); }
  }

  lemma ReversedNodes<T>(s: seq<T>)
    requires NoDuplicates(s) && s != []
    ensures |Reversed(s)| == |s| && Reversed(s)[|s| - 1] == s[0]
    ensures NoDuplicates(Reversed(s))
    ensures forall x :: x in Reversed(s) <==> x in s
  {
    ReversedAt(s, 0);
    var r := Reversed(s);
    forall k | 0 <= k < |s| ensures r[k] == s[|s| - 1 - k] { ReversedAt(s, k); }
    forall x | x in s ensures x in r {
      var i :| 0 <= i < |s| && s[i] == x;
      assert r[|s| - 1 - i] == x;
    }
  }
}
