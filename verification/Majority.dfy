// HeavyHitter::majorityElements(nums, k) of leetcode/Random.cpp: keep at most k
// candidates, and cancel k + 1 different values against each other when a
// further one turns up.

module Majority {
  import opened Sequences

  type Value = x: int | -0x8000_0000 <= x < 0x8000_0000   // int

  ghost function Count(nums: seq<Value>, x: Value): nat {
    if nums == [] then 0
    else Count(nums[..|nums| - 1], x) + if nums[|nums| - 1] == x then 1 else 0
  }

  lemma CountMore(nums: seq<Value>, i: nat)
    requires i < |nums|
    ensures forall x :: Count(nums[..i + 1], x) == Count(nums[..i], x) + if nums[i] == x then 1 else 0
  {
    assert nums[..i + 1][..i] == nums[..i];
  }

  ghost function Total(m: map<Value, int>): int
    decreases |m|
  {
    if m == map[] then 0
    else
      var x :| x in m;
      m[x] + Total(m - {x})
  }

  lemma {:induction false} TotalWithout(m: map<Value, int>, x: Value)
    requires x in m
    ensures Total(m) == m[x] + Total(m - {x})
    decreases |m|
  {
    var y :| y in m && Total(m) == m[y] + Total(m - {y});
    if y != x {
      TotalWithout(m - {y}, x);
      TotalWithout(m - {x}, y);
      assert m - {y} - {x} == m - {x} - {y};
    }
  }

  lemma TotalUpdate(m: map<Value, int>, x: Value, v: int)
    ensures Total(m[x := v]) == Total(m - {x}) + v
    ensures Total(m) == Total(m - {x}) + if x in m then m[x] else 0
  {
    TotalWithout(m[x := v], x);
    assert m[x := v] - {x} == m - {x};
    if x in m { TotalWithout(m, x); } else { assert m - {x} == m; }
  }

  lemma {:induction false} TotalNat(m: map<Value, int>)
    requires forall x :: x in m ==> m[x] >= 0
    ensures Total(m) >= 0
    decreases |m|
  {
    if m != map[] {
      var x :| x in m && Total(m) == m[x] + Total(m - {x});
      TotalNat(m - {x});
    }
  }

  // Candidates counted once go, the others lose one.
  function Cancel(m: map<Value, int>): map<Value, int> {
    map x | x in m && m[x] != 1 :: m[x] - 1
  }

  lemma CancelOne(m: map<Value, int>, x: Value)
    requires x in m
    ensures Total(Cancel(m)) == Total(Cancel(m - {x})) + if m[x] == 1 then 0 else m[x] - 1
  {
    if m[x] == 1 {
      assert Cancel(m) == Cancel(m - {x});
    } else {
      assert Cancel(m) - {x} == Cancel(m - {x});
      TotalWithout(Cancel(m), x);
    }
  }

  lemma {:induction false} CancelTotal(m: map<Value, int>)
    ensures Total(Cancel(m)) == Total(m) - |m|
    decreases |m|
  {
    if m != map[] {
      var x :| x in m;
      TotalWithout(m, x);
      CancelTotal(m - {x});
      CancelOne(m, x);
    }
  }

  // The values gone in c cancellations of k + 1 values each.
  ghost function Gone(k: nat, c: nat): nat {
    if c == 0 then 0 else Gone(k, c - 1) + k + 1
  }

  lemma {:induction false} GoneIsProduct(k: nat, c: nat)
    ensures Gone(k, c) == (k + 1) * c
  {
    if c > 0 { GoneIsProduct(k, c - 1); }
  }

  // After some values and c cancellations of k + 1 values each: what is left
  // over is counted, and no value has lost more than c occurrences.
  ghost predicate Candidates(nums: seq<Value>, k: nat, maj: map<Value, int>, c: nat) {
    && |maj| <= k
    && (forall x :: x in maj ==> maj[x] >= 1)
    && (forall x {:trigger Count(nums, x)} :: Count(nums, x) <= (if x in maj then maj[x] else 0) + c)
    && Total(maj) + Gone(k, c) == |nums|
  }

  // One more occurrence of a candidate, or a new candidate.
  function Bumped(maj: map<Value, int>, n: Value): map<Value, int> {
    maj[n := (if n in maj then maj[n] else 0) + 1]
  }

  lemma BumpedSize(maj: map<Value, int>, n: Value)
    ensures |Bumped(maj, n)| == |maj| + if n in maj then 0 else 1
    ensures Total(Bumped(maj, n)) == Total(maj) + 1
  {
    assert Bumped(maj, n).Keys == maj.Keys + {n};
    TotalUpdate(maj, n, (if n in maj then maj[n] else 0) + 1);
  }

  lemma Counted(nums: seq<Value>, i: nat, k: nat, maj: map<Value, int>, c: nat, maj': map<Value, int>)
    requires i < |nums| && Candidates(nums[..i], k, maj, c)
    requires |maj| < k || nums[i] in maj
    requires maj' == Bumped(maj, nums[i])
    ensures Candidates(nums[..i + 1], k, maj', c)
  {
    CountMore(nums, i);
    BumpedSize(maj, nums[i]);
    forall x ensures Count(nums[..i + 1], x) <= (if x in maj' then maj'[x] else 0) + c {
      assert Count(nums[..i], x) <= (if x in maj then maj[x] else 0) + c;
    }
  }

  lemma Cancelled(nums: seq<Value>, i: nat, k: nat, maj: map<Value, int>, c: nat)
    requires i < |nums| && Candidates(nums[..i], k, maj, c)
    requires |maj| >= k && nums[i] !in maj
    ensures Candidates(nums[..i + 1], k, Cancel(maj), c + 1)
  {
    CountMore(nums, i);
    CancelTotal(maj);
    var maj' := Cancel(maj);
    assert maj'.Keys <= maj.Keys;
    SubsetSize(maj'.Keys, maj.Keys);
    forall x ensures Count(nums[..i + 1], x) <= (if x in maj' then maj'[x] else 0) + (c + 1) {
      assert Count(nums[..i], x) <= (if x in maj then maj[x] else 0) + c;
    }
  }

  // A value above the threshold is still a candidate at the end.
  lemma FrequentSurvives(nums: seq<Value>, k: nat, maj: map<Value, int>, c: nat, x: Value)
    requires Candidates(nums, k, maj, c) && Count(nums, x) > |nums| / (k + 1)
    ensures x in maj
  {
    TotalNat(maj);
    GoneIsProduct(k, c);
    AtMostQuotient(|nums|, k + 1, c);
  }

  lemma AtMostQuotient(n: nat, d: nat, c: nat)
    requires d > 0 && d * c <= n
    ensures c <= n / d
  {
    var q := n / d;
    assert n < d * (q + 1);
    assert c >= q + 1 ==> d * c >= d * (q + 1);
  }

  // The keys whose count is above the threshold, in the order of the map.
  method KeysAbove(counts: map<Value, int>, threshold: int) returns (ans: seq<Value>)
    ensures forall i, j :: 0 <= i < j < |ans| ==> ans[i] < ans[j]
    ensures forall x :: x in ans <==> x in counts && counts[x] > threshold
  {
    ans := [];
    var rest := counts.Keys;
    while rest != {}
      invariant rest <= counts.Keys
      invariant forall i, j :: 0 <= i < j < |ans| ==> ans[i] < ans[j]
      invariant forall x :: x in ans <==> x in counts && x !in rest && counts[x] > threshold
      invariant forall x, y :: x in ans && y in rest ==> x < y
      decreases rest
    {
      var x := Least(rest);
      assert forall i :: 0 <= i < |ans| ==> ans[i] in ans;
      if counts[x] > threshold {
        ans := ans + [x];
      }
      rest := rest - {x};
    }
  }

  method Least(s: set<Value>) returns (x: Value)
    requires s != {}
    ensures x in s && forall y :: y in s ==> x <= y
  {
    x :| x in s;
    var rest := s - {x};
    while rest != {}
      invariant x in s && rest <= s && forall y :: y in s && y !in rest ==> x <= y
      decreases rest
    {
      var y :| y in rest;
      if y < x {
        x := y;
      }
      rest := rest - {y};
    }
  }

  // Exactly the values occurring more than |nums| / (k + 1) times, ascending.
  method MajorityElements(nums: seq<Value>, k: nat) returns (ans: seq<Value>)
    ensures forall i, j :: 0 <= i < j < |ans| ==> ans[i] < ans[j]
    ensures forall x :: x in ans <==> Count(nums, x) > |nums| / (k + 1)
  {
    var maj := Vote(nums, k);
    ghost var c: nat :| Candidates(nums, k, maj, c);
    var counts := Recount(nums, maj.Keys);
    ans := KeysAbove(counts, |nums| / (k + 1));
    forall x | Count(nums, x) > |nums| / (k + 1) ensures x in maj.Keys {
      FrequentSurvives(nums, k, maj, c, x);
    }
  }

  // The first pass.
  method Vote(nums: seq<Value>, k: nat) returns (maj: map<Value, int>)
    ensures exists c: nat :: Candidates(nums, k, maj, c)
  {
    maj := map[];
    ghost var c := 0;
    for i := 0 to |nums|
      invariant Candidates(nums[..i], k, maj, c)
    {
      var n := nums[i];
      if |maj| < k || n in maj {
        ghost var before := maj;
        maj := Bumped(maj, n);
        Counted(nums, i, k, before, c, maj);
      } else {
        Cancelled(nums, i, k, maj, c);
        maj := Cancel(maj);
        c := c + 1;
      }
    }
    assert nums[..|nums|] == nums;
  }

  // The second pass: the true counts of the candidates.
  method Recount(nums: seq<Value>, candidates: set<Value>) returns (counts: map<Value, int>)
    ensures counts.Keys == candidates
    ensures forall x :: x in counts ==> counts[x] == Count(nums, x)
  {
    counts := map x | x in candidates :: 0;
    for i := 0 to |nums|
      invariant counts.Keys == candidates
      invariant forall x :: x in counts ==> counts[x] == Count(nums[..i], x)
    {
      CountMore(nums, i);
      if nums[i] in counts {
        counts := counts[nums[i] := counts[nums[i]] + 1];
      }
    }
    assert nums[..|nums|] == nums;
  }
}
