// MyCalendarTwo of leetcode/leetcodecpp.cpp: bookings are half-open intervals
// [start, end), kept in two ordered sets whose comparator calls two intervals
// equivalent when they share an instant, so that inserting an interval that
// clashes with a member is silently dropped.

module Calendar {
  import opened Arithmetic

  datatype Interval = Interval(start: int, end: int)

  // std::less<MyPair>
  predicate Less(a: Interval, b: Interval) {
    a.end <= b.start
  }

  predicate Holds(a: Interval, t: int) {
    a.start <= t < a.end
  }

  // The members of a std::set<MyPair>, in order.
  type IntervalSet = seq<Interval>

  ghost predicate Sorted(s: IntervalSet) {
    && (forall i :: 0 <= i < |s| ==> s[i].start < s[i].end)
    && (forall i, j :: 0 <= i < j < |s| ==> Less(s[i], s[j]))
  }

  ghost predicate Covers(s: seq<Interval>, t: int) {
    exists i :: 0 <= i < |s| && Holds(s[i], t)
  }

  // Index of the first member not less than x.
  function LowerBound(s: IntervalSet, x: Interval): (k: nat)
    ensures k <= |s|
    ensures forall i :: 0 <= i < k ==> Less(s[i], x)
    ensures k < |s| ==> !Less(s[k], x)
  {
    if s == [] || !Less(s[0], x) then 0 else 1 + LowerBound(s[1..], x)
  }

  // Index of the first member greater than x.
  function UpperBound(s: IntervalSet, x: Interval): (k: nat)
    ensures k <= |s|
    ensures forall i :: 0 <= i < k ==> !Less(x, s[i])
    ensures k < |s| ==> Less(x, s[k])
  {
    if s == [] || Less(x, s[0]) then 0 else 1 + UpperBound(s[1..], x)
  }

  predicate Contains(s: IntervalSet, x: Interval) {
    var k := LowerBound(s, x);
    k < |s| && !Less(x, s[k])
  }

  function Insert(s: IntervalSet, x: Interval): IntervalSet {
    var k := LowerBound(s, x);
    if k < |s| && !Less(x, s[k]) then s else s[..k] + [x] + s[k..]
  }

  function InsertAll(s: IntervalSet, xs: seq<Interval>): IntervalSet
    decreases |xs|
  {
    if xs == [] then s else InsertAll(Insert(s, xs[0]), xs[1..])
  }

  // intersect(p1, p2, overlap): the stretches covered by exactly one of the
  // two, and the set `overlap` with their common section added.
  function Intersect(p1: Interval, p2: Interval, overlap: IntervalSet): (r: (seq<Interval>, IntervalSet))
    decreases p2.end < p1.end
  {
    if Less(p1, p2) || Less(p2, p1) then ([], overlap)
    else if p2.end < p1.end then Intersect(p2, p1, overlap)
    else
      var right := if p1.end < p2.end then [Interval(p1.end, p2.end)] else [];
      if p1.start >= p2.start then
        ((if p1.start > p2.start then [Interval(p2.start, p1.start)] else []) + right,
         Insert(overlap, p1))
      else
        ([Interval(p1.start, p2.start)] + right,
         Insert(overlap, Interval(p2.start, p1.end)))
  }

  predicate Clash(a: Interval, b: Interval) {
    !Less(a, b) && !Less(b, a)
  }

  function Common(a: Interval, b: Interval): Interval {
    Interval(Max(a.start, b.start), Min(a.end, b.end))
  }

  // The stretch [a, b), if it is not empty.
  function Part(a: int, b: int): seq<Interval> {
    if a < b then [Interval(a, b)] else []
  }

  // What intersect returns, whichever of its branches is taken.
  lemma IntersectMeaning(a: Interval, b: Interval, overlap: IntervalSet)
    requires a.start < a.end && b.start < b.end && Clash(a, b)
    ensures Intersect(a, b, overlap).1 == Insert(overlap, Common(a, b))
    ensures Intersect(a, b, overlap).0 == Part(Min(a.start, b.start), Max(a.start, b.start))
                                       + Part(Min(a.end, b.end), Max(a.end, b.end))
  {
    if b.end < a.end { IntersectOrdered(b, a, overlap); } else { IntersectOrdered(a, b, overlap); }
  }

  lemma IntersectOrdered(a: Interval, b: Interval, overlap: IntervalSet)
    requires a.start < a.end && b.start < b.end && Clash(a, b) && a.end <= b.end
    ensures Intersect(a, b, overlap).1 == Insert(overlap, Common(a, b))
    ensures Intersect(a, b, overlap).0 == Part(Min(a.start, b.start), Max(a.start, b.start)) + Part(a.end, b.end)
  {
  }

  lemma ContainsMeaning(s: IntervalSet, x: Interval)
    requires Sorted(s) && x.start < x.end
    ensures Contains(s, x) <==> exists t :: Holds(x, t) && Covers(s, t)
  {
    var k := LowerBound(s, x);
    if Contains(s, x) {
      var t := Max(x.start, s[k].start);
      assert Holds(x, t) && Holds(s[k], t);
    }
    if exists t :: Holds(x, t) && Covers(s, t) {
      var t :| Holds(x, t) && Covers(s, t);
      var i :| 0 <= i < |s| && Holds(s[i], t);
      assert k <= i;
    }
  }

  lemma InsertMeaning(s: IntervalSet, x: Interval)
    requires Sorted(s) && x.start < x.end
    ensures Sorted(Insert(s, x))
    ensures Contains(s, x) ==> Insert(s, x) == s
    ensures !Contains(s, x) ==>
      && (forall t :: Covers(Insert(s, x), t) <==> Covers(s, t) || Holds(x, t))
      && (forall y :: y in Insert(s, x) ==> y in s || y == x)
  {
    if !Contains(s, x) {
      var k := LowerBound(s, x);
      forall i | k <= i < |s| ensures Less(x, s[i]) {}
      SpliceCovers(s, x, k);
    }
  }

  lemma SpliceCovers(s: seq<Interval>, x: Interval, k: nat)
    requires k <= |s|
    ensures forall t :: Covers(s[..k] + [x] + s[k..], t) <==> Covers(s, t) || Holds(x, t)
  {
    var s' := s[..k] + [x] + s[k..];
    forall t ensures Covers(s', t) <==> Covers(s, t) || Holds(x, t) {
      if Covers(s, t) {
        var i :| 0 <= i < |s| && Holds(s[i], t);
        assert Holds(s'[if i < k then i else i + 1], t);
      }
      if Holds(x, t) { assert Holds(s'[k], t); }
      if Covers(s', t) {
        var i :| 0 <= i < |s'| && Holds(s'[i], t);
        if i < k { assert s[i] == s'[i]; } else if i > k { assert s[i - 1] == s'[i]; }
      }
    }
  }

  // The stretches book collects while scanning the members that clash.
  function Leftovers(found: seq<Interval>, x: Interval): seq<Interval> {
    if found == [] then []
    else Leftovers(found[..|found| - 1], x) + Intersect(found[|found| - 1], x, []).0
  }

  // The set `overlap` after that scan.
  function AddCommon(found: seq<Interval>, x: Interval, overlap: IntervalSet): IntervalSet {
    if found == [] then overlap
    else Insert(AddCommon(found[..|found| - 1], x, overlap), Common(found[|found| - 1], x))
  }

  lemma {:induction false} AddCommonMeaning(found: seq<Interval>, x: Interval, overlap: IntervalSet)
    requires Sorted(found) && Sorted(overlap) && x.start < x.end
    requires forall i :: 0 <= i < |found| ==> Clash(found[i], x)
    requires forall t :: Holds(x, t) ==> !Covers(overlap, t)
    ensures Sorted(AddCommon(found, x, overlap))
    ensures forall t :: Covers(AddCommon(found, x, overlap), t)
                  <==> Covers(overlap, t) || (Holds(x, t) && Covers(found, t))
  {
    if found != [] {
      var n := |found| - 1;
      var front, f := found[..n], found[n];
      AddCommonMeaning(front, x, overlap);
      var o := AddCommon(front, x, overlap);
      var c := Common(f, x);
      forall t | Holds(c, t) ensures !Covers(o, t) {
        NotInFront(found, t);
      }
      ContainsMeaning(o, c);
      InsertMeaning(o, c);
      CoversLast(found);
    }
  }

  lemma NotInFront(s: IntervalSet, t: int)
    requires Sorted(s) && s != [] && Holds(s[|s| - 1], t)
    ensures !Covers(s[..|s| - 1], t)
  {
    var front := s[..|s| - 1];
    forall i | 0 <= i < |front| ensures !Holds(front[i], t) {
      assert Less(s[i], s[|s| - 1]);
    }
  }

  lemma CoversLast(s: seq<Interval>)
    requires s != []
    ensures forall t :: Covers(s, t) <==> Covers(s[..|s| - 1], t) || Holds(s[|s| - 1], t)
  {
    var n := |s| - 1;
    forall t ensures Covers(s, t) <==> Covers(s[..n], t) || Holds(s[n], t) {
      if Covers(s[..n], t) { var i :| 0 <= i < n && Holds(s[..n][i], t); assert Holds(s[i], t); }
      if Covers(s, t) { var i :| 0 <= i < |s| && Holds(s[i], t); if i < n { assert Holds(s[..n][i], t); } }
    }
  }

  lemma {:induction false} InsertAllConcat(s: IntervalSet, a: seq<Interval>, b: seq<Interval>)
    ensures InsertAll(s, a + b) == InsertAll(InsertAll(s, a), b)
    decreases |a|
  {
    if a == [] {
      assert a + b == b;
    } else {
      assert (a + b)[1..] == a[1..] + b;
      InsertAllConcat(Insert(s, a[0]), a[1..], b);
    }
  }

  ghost predicate Apart(s: IntervalSet, a: int, b: int) {
    forall y :: y in s ==> y.end <= a || b <= y.start
  }

  // Members of `s` beyond those of `base` end by `limit`.
  ghost predicate NewEndBy(s: IntervalSet, base: IntervalSet, limit: int) {
    forall y :: y in s ==> y in base || y.end <= limit
  }

  // s' is s with at most the interval [a, b) added.
  ghost predicate Added(s: IntervalSet, a: int, b: int, s': IntervalSet) {
    && Sorted(s')
    && (forall t :: Covers(s, t) ==> Covers(s', t))
    && (forall t :: Covers(s', t) ==> Covers(s, t) || a <= t < b)
    && (forall y :: y in s' ==> y in s || y == Interval(a, b))
  }

  lemma AddPart(s: IntervalSet, a: int, b: int)
    requires Sorted(s)
    ensures Added(s, a, b, InsertAll(s, Part(a, b)))
    ensures Apart(s, a, b) ==> forall t :: a <= t < b ==> Covers(InsertAll(s, Part(a, b)), t)
  {
    if a < b {
      var x := Interval(a, b);
      InsertMeaning(s, x);
      assert InsertAll(s, [x]) == InsertAll(Insert(s, x), []);
      assert InsertAll(s, Part(a, b)) == Insert(s, x);
      if Contains(s, x) { assert s[LowerBound(s, x)] in s; }
      assert forall t :: a <= t < b <==> Holds(x, t);
    }
  }

  // Replacing the clashing members by their leftovers: whatever gets dropped
  // is already covered, so the new calendar and `o`, which holds the common
  // sections, still cover every booked instant.
  lemma {:induction false} LeftoversCover(base: IntervalSet, found: seq<Interval>, x: Interval, o: seq<Interval>)
    requires Sorted(base) && Sorted(found) && found != [] && x.start < x.end
    requires forall i :: 0 <= i < |found| ==> Clash(found[i], x)
    requires forall i :: 0 <= i < |found| ==> Apart(base, found[i].start, found[i].end)
    requires Apart(base, x.start, x.end)
    requires forall t :: Holds(x, t) && Covers(found, t) ==> Covers(o, t)
    ensures Sorted(InsertAll(base, Leftovers(found, x)))
    ensures NewEndBy(InsertAll(base, Leftovers(found, x)), base, Max(x.end, found[|found| - 1].end))
    ensures forall t :: Covers(InsertAll(base, Leftovers(found, x)), t) ==>
              Covers(base, t) || Holds(x, t) || Covers(found, t)
    ensures forall t :: Covers(base, t) || Holds(x, t) || Covers(found, t) ==>
              Covers(InsertAll(base, Leftovers(found, x)), t) || Covers(o, t)
    decreases |found|
  {
    var n := |found| - 1;
    var front, f := found[..n], found[n];
    var s := InsertAll(base, Leftovers(front, x));
    CoversLast(found);
    if n == 0 {
      assert front == [] && s == base;
      assert forall t :: !Covers(front, t);
      FirstLeftovers(base, f, x, o);
    } else {
      LeftoversCover(base, front, x, o);
      assert front[0] == found[0] && front[n - 1] == found[n - 1];
      LaterLeftovers(base, s, front[0], front[n - 1], f, x, o);
    }
    InsertAllConcat(base, Leftovers(front, x), Intersect(f, x, []).0);
  }

  lemma FirstLeftovers(base: IntervalSet, f: Interval, x: Interval, o: seq<Interval>)
    requires Sorted(base) && x.start < x.end && f.start < f.end && Clash(f, x)
    requires Apart(base, f.start, f.end) && Apart(base, x.start, x.end)
    requires forall t :: Holds(x, t) && Holds(f, t) ==> Covers(o, t)
    ensures var s := InsertAll(base, Intersect(f, x, []).0);
      && Sorted(s)
      && NewEndBy(s, base, Max(x.end, f.end))
      && (forall t :: Covers(s, t) ==> Covers(base, t) || Holds(x, t) || Holds(f, t))
      && (forall t :: Covers(base, t) || Holds(x, t) || Holds(f, t) ==> Covers(s, t) || Covers(o, t))
  {
    IntersectMeaning(f, x, []);
    var (a, b) := (Min(f.start, x.start), Max(f.start, x.start));
    var (c, d) := (Min(f.end, x.end), Max(f.end, x.end));
    var s0 := InsertAll(base, Part(a, b));
    AddPart(base, a, b);
    AddPart(s0, c, d);
    InsertAllConcat(base, Part(a, b), Part(c, d));
    FirstSpans(base, f, x, o, s0, InsertAll(s0, Part(c, d)));
  }

  lemma FirstSpans(base: IntervalSet, f: Interval, x: Interval, o: seq<Interval>, s0: IntervalSet, s: IntervalSet)
    requires x.start < x.end && f.start < f.end && Clash(f, x)
    requires Apart(base, f.start, f.end) && Apart(base, x.start, x.end)
    requires forall t :: Holds(x, t) && Holds(f, t) ==> Covers(o, t)
    requires var (a, b) := (Min(f.start, x.start), Max(f.start, x.start));
      Added(base, a, b, s0) && (Apart(base, a, b) ==> forall t :: a <= t < b ==> Covers(s0, t))
    requires var (c, d) := (Min(f.end, x.end), Max(f.end, x.end));
      Added(s0, c, d, s) && (Apart(s0, c, d) ==> forall t :: c <= t < d ==> Covers(s, t))
    ensures Sorted(s) && NewEndBy(s, base, Max(x.end, f.end))
    ensures forall t :: Covers(s, t) ==> Covers(base, t) || Holds(x, t) || Holds(f, t)
    ensures forall t :: Covers(base, t) || Holds(x, t) || Holds(f, t) ==> Covers(s, t) || Covers(o, t)
  {
  }

  lemma LaterLeftovers(base: IntervalSet, s: IntervalSet, first: Interval, prev: Interval, f: Interval, x: Interval,
                       o: seq<Interval>)
    requires Sorted(s) && x.start < x.end && f.start < f.end && Clash(f, x)
    requires Apart(base, f.start, f.end)
    requires first.start < first.end && Clash(first, x) && Less(first, f) && Less(prev, f)
    requires NewEndBy(s, base, Max(x.end, prev.end))
    requires forall t :: Holds(x, t) ==> Covers(s, t) || Covers(o, t)
    requires forall t :: Holds(x, t) && Holds(f, t) ==> Covers(o, t)
    ensures var s' := InsertAll(s, Intersect(f, x, []).0);
      && Sorted(s')
      && NewEndBy(s', base, Max(x.end, f.end))
      && (forall t :: Covers(s', t) ==> Covers(s, t) || Holds(x, t) || Holds(f, t))
      && (forall t :: Covers(s, t) || Holds(x, t) || Holds(f, t) ==> Covers(s', t) || Covers(o, t))
  {
    IntersectMeaning(f, x, []);
    assert x.start < f.start < x.end && prev.end < x.end;
    var (c, d) := (Min(f.end, x.end), Max(f.end, x.end));
    var s0 := InsertAll(s, Part(x.start, f.start));
    AddPart(s, x.start, f.start);
    AddPart(s0, c, d);
    InsertAllConcat(s, Part(x.start, f.start), Part(c, d));
    LaterSpans(base, s, f, x, o, s0, InsertAll(s0, Part(c, d)));
  }

  lemma LaterSpans(base: IntervalSet, s: IntervalSet, f: Interval, x: Interval, o: seq<Interval>,
                   s0: IntervalSet, s': IntervalSet)
    requires x.start < f.start < x.end && f.start < f.end && Apart(base, f.start, f.end)
    requires NewEndBy(s, base, x.end) && Added(s, x.start, f.start, s0)
    requires forall t :: Holds(x, t) ==> Covers(s, t) || Covers(o, t)
    requires var (c, d) := (Min(f.end, x.end), Max(f.end, x.end));
      Added(s0, c, d, s') && (Apart(s0, c, d) ==> forall t :: c <= t < d ==> Covers(s', t))
    ensures Sorted(s') && NewEndBy(s', base, Max(x.end, f.end))
    ensures forall t :: Covers(s', t) ==> Covers(s, t) || Holds(x, t) || Holds(f, t)
    ensures forall t :: Covers(s, t) || Holds(x, t) || Holds(f, t) ==> Covers(s', t) || Covers(o, t)
  {
    if x.end < f.end { assert Apart(s0, x.end, f.end); }
  }

  // How many of the bookings hold instant t.
  ghost function Booked(bookings: seq<Interval>, t: int): nat {
    if bookings == [] then 0
    else Booked(bookings[..|bookings| - 1], t) + (if Holds(bookings[|bookings| - 1], t) then 1 else 0)
  }

  // The promise of the class: a booking is refused exactly when it would make
  // some instant triple booked.
  ghost predicate Acceptable(bookings: seq<Interval>, x: Interval) {
    forall t :: Holds(x, t) ==> Booked(bookings, t) < 2
  }

  // `overlap` covers exactly the doubly booked instants, the two sets together
  // exactly the booked ones, and no instant is booked three times.
  ghost predicate Consistent(cal: IntervalSet, overlap: IntervalSet, bookings: seq<Interval>) {
    && Sorted(cal) && Sorted(overlap)
    && (forall t :: Booked(bookings, t) <= 2)
    && (forall t :: Covers(overlap, t) <==> Booked(bookings, t) == 2)
    && (forall t :: Covers(cal, t) || Covers(overlap, t) <==> Booked(bookings, t) >= 1)
  }

  lemma RefusedIffTriple(cal: IntervalSet, overlap: IntervalSet, bookings: seq<Interval>, x: Interval)
    requires Consistent(cal, overlap, bookings) && x.start < x.end
    ensures Contains(overlap, x) <==> !Acceptable(bookings, x)
  {
    ContainsMeaning(overlap, x);
  }

  lemma StaysConsistent(cal: IntervalSet, overlap: IntervalSet, bookings: seq<Interval>, x: Interval,
                        cal': IntervalSet, overlap': IntervalSet)
    requires Consistent(cal, overlap, bookings) && Acceptable(bookings, x)
    requires Sorted(cal') && Sorted(overlap')
    requires forall t :: Covers(overlap', t) <==> Covers(overlap, t) || (Holds(x, t) && Covers(cal, t))
    requires forall t :: Covers(cal', t) || Covers(overlap', t) <==> Covers(cal, t) || Covers(overlap, t) || Holds(x, t)
    ensures Consistent(cal', overlap', bookings + [x])
  {
    assert (bookings + [x])[..|bookings|] == bookings;
    assert forall t :: Booked(bookings + [x], t) == Booked(bookings, t) + (if Holds(x, t) then 1 else 0);
  }

  class MyCalendarTwo {
    var cal: IntervalSet
    var overlap: IntervalSet
    ghost var bookings: seq<Interval>   // the accepted ones

    ghost predicate Valid()
      reads this
    {
      Consistent(cal, overlap, bookings)
    }

    constructor ()
      ensures Valid() && bookings == []
    {
      cal, overlap, bookings := [], [], [];
    }

    method Book(start: int, end: int) returns (accepted: bool)
      requires Valid() && start < end
      modifies this
      ensures Valid()
      ensures accepted <==> Acceptable(old(bookings), Interval(start, end))
      ensures accepted ==> bookings == old(bookings) + [Interval(start, end)]
      ensures !accepted ==> bookings == old(bookings) && cal == old(cal) && overlap == old(overlap)
    {
      var x := Interval(start, end);
      RefusedIffTriple(cal, overlap, bookings, x);
      if Contains(overlap, x) {
        return false;
      }
      var lo, hi := LowerBound(cal, x), UpperBound(cal, x);
      if lo == hi {
        SingleConsistent(cal, overlap, bookings, x);
        cal := Insert(cal, x);
      } else {
        DoubleConsistent(cal, overlap, bookings, x);
        var leftovers;
        leftovers, overlap := Scan(cal[lo..hi], x, overlap);
        cal := InsertAll(cal[..lo] + cal[hi..], leftovers);
      }
      bookings := bookings + [x];
      return true;
    }

    // The loop of book over the members found, which all clash.
    static method Scan(found: seq<Interval>, x: Interval, overlap: IntervalSet)
      returns (leftovers: seq<Interval>, overlap': IntervalSet)
      requires x.start < x.end
      requires forall i :: 0 <= i < |found| ==> found[i].start < found[i].end && Clash(found[i], x)
      ensures leftovers == Leftovers(found, x)
      ensures overlap' == AddCommon(found, x, overlap)
    {
      leftovers, overlap' := [], overlap;
      for k := 0 to |found|
        invariant leftovers == Leftovers(found[..k], x)
        invariant overlap' == AddCommon(found[..k], x, overlap)
      {
        ScanOneMore(found, k, x, overlap, leftovers, overlap');
        var (parts, o) := Intersect(found[k], x, overlap');
        leftovers, overlap' := leftovers + parts, o;
      }
      assert found[..|found|] == found;
    }
  }

  lemma ScanOneMore(found: seq<Interval>, k: nat, x: Interval, overlap: IntervalSet,
                    leftovers: seq<Interval>, overlap': IntervalSet)
    requires k < |found| && x.start < x.end && found[k].start < found[k].end && Clash(found[k], x)
    requires leftovers == Leftovers(found[..k], x) && overlap' == AddCommon(found[..k], x, overlap)
    ensures leftovers + Intersect(found[k], x, overlap').0 == Leftovers(found[..k + 1], x)
    ensures Intersect(found[k], x, overlap').1 == AddCommon(found[..k + 1], x, overlap)
  {
    IntersectMeaning(found[k], x, overlap');
    IntersectMeaning(found[k], x, []);
    assert found[..k + 1] == found[..k] + [found[k]];
    FoundLast(found[..k], found[k], x, overlap);
  }

  lemma FoundLast(found: seq<Interval>, f: Interval, x: Interval, overlap: IntervalSet)
    ensures Leftovers(found + [f], x) == Leftovers(found, x) + Intersect(f, x, []).0
    ensures AddCommon(found + [f], x, overlap) == Insert(AddCommon(found, x, overlap), Common(f, x))
  {
    assert (found + [f])[..|found|] == found;
  }

  // equal_range: the members between the two bounds are those that clash.
  lemma RangeMeaning(s: IntervalSet, x: Interval)
    requires Sorted(s) && x.start < x.end
    ensures LowerBound(s, x) <= UpperBound(s, x)
    ensures forall i :: LowerBound(s, x) <= i < UpperBound(s, x) ==> Clash(s[i], x)
    ensures forall i :: 0 <= i < LowerBound(s, x) ==> Less(s[i], x)
    ensures forall i :: UpperBound(s, x) <= i < |s| ==> Less(x, s[i])
  {
  }

  lemma SingleBooking(cal: IntervalSet, x: Interval)
    requires Sorted(cal) && x.start < x.end && LowerBound(cal, x) == UpperBound(cal, x)
    ensures Sorted(Insert(cal, x))
    ensures forall t :: Covers(Insert(cal, x), t) <==> Covers(cal, t) || Holds(x, t)
    ensures forall t :: Holds(x, t) ==> !Covers(cal, t)
  {
    RangeMeaning(cal, x);
    InsertMeaning(cal, x);
  }

  // Cutting a stretch of members out leaves the others apart from it and
  // splits what is covered.
  lemma CutMeaning(s: IntervalSet, lo: nat, hi: nat)
    requires Sorted(s) && lo <= hi <= |s|
    ensures Sorted(s[..lo] + s[hi..]) && Sorted(s[lo..hi])
    ensures forall i :: 0 <= i < hi - lo ==> Apart(s[..lo] + s[hi..], s[lo..hi][i].start, s[lo..hi][i].end)
  {
    var rest := s[..lo] + s[hi..];
    var found := s[lo..hi];
    forall i, y | 0 <= i < |found| && y in rest ensures y.end <= found[i].start || found[i].end <= y.start {
      var j :| 0 <= j < |rest| && rest[j] == y;
      assert y == s[if j < lo then j else j - lo + hi];
    }
  }

  lemma CutCovers(s: IntervalSet, lo: nat, hi: nat, t: int)
    requires lo <= hi <= |s|
    ensures Covers(s, t) <==> Covers(s[lo..hi], t) || Covers(s[..lo] + s[hi..], t)
  {
    var rest := s[..lo] + s[hi..];
    if Covers(s, t) {
      var i :| 0 <= i < |s| && Holds(s[i], t);
      if i < lo { assert Holds(rest[i], t); }
      else if i < hi { assert Holds(s[lo..hi][i - lo], t); }
      else { assert Holds(rest[i - hi + lo], t); }
    }
    if Covers(s[lo..hi], t) {
      var i :| 0 <= i < hi - lo && Holds(s[lo..hi][i], t);
      assert Holds(s[lo + i], t);
    }
    if Covers(rest, t) {
      var i :| 0 <= i < |rest| && Holds(rest[i], t);
      assert Holds(s[if i < lo then i else i - lo + hi], t);
    }
  }

  // The two sets after a double booking.
  lemma DoubleBooking(cal: IntervalSet, overlap: IntervalSet, x: Interval)
    requires Sorted(cal) && Sorted(overlap) && x.start < x.end
    requires forall t :: Holds(x, t) ==> !Covers(overlap, t)
    requires LowerBound(cal, x) != UpperBound(cal, x)
    ensures LowerBound(cal, x) < UpperBound(cal, x)
    ensures forall i :: LowerBound(cal, x) <= i < UpperBound(cal, x) ==> Clash(cal[i], x)
    ensures var lo, hi := LowerBound(cal, x), UpperBound(cal, x);
      var o := AddCommon(cal[lo..hi], x, overlap);
      var c := InsertAll(cal[..lo] + cal[hi..], Leftovers(cal[lo..hi], x));
      && Sorted(c) && Sorted(o)
      && (forall t :: Covers(o, t) <==> Covers(overlap, t) || (Holds(x, t) && Covers(cal, t)))
      && (forall t :: Covers(c, t) || Covers(o, t) <==> Covers(cal, t) || Covers(overlap, t) || Holds(x, t))
  {
    RangeMeaning(cal, x);
    var lo, hi := LowerBound(cal, x), UpperBound(cal, x);
    var rest, found := cal[..lo] + cal[hi..], cal[lo..hi];
    forall t ensures Covers(cal, t) <==> Covers(found, t) || Covers(rest, t) {
      CutCovers(cal, lo, hi, t);
    }
    ScannedRange(cal, x);
    AddCommonMeaning(found, x, overlap);
    LeftoversCover(rest, found, x, AddCommon(found, x, overlap));
  }

  lemma SingleConsistent(cal: IntervalSet, overlap: IntervalSet, bookings: seq<Interval>, x: Interval)
    requires Consistent(cal, overlap, bookings) && Acceptable(bookings, x) && x.start < x.end
    requires LowerBound(cal, x) == UpperBound(cal, x)
    ensures Consistent(Insert(cal, x), overlap, bookings + [x])
  {
    SingleBooking(cal, x);
    StaysConsistent(cal, overlap, bookings, x, Insert(cal, x), overlap);
  }

  lemma DoubleConsistent(cal: IntervalSet, overlap: IntervalSet, bookings: seq<Interval>, x: Interval)
    requires Consistent(cal, overlap, bookings) && Acceptable(bookings, x) && x.start < x.end
    requires LowerBound(cal, x) != UpperBound(cal, x)
    ensures LowerBound(cal, x) < UpperBound(cal, x)
    ensures var found := cal[LowerBound(cal, x)..UpperBound(cal, x)];
      forall i :: 0 <= i < |found| ==> found[i].start < found[i].end && Clash(found[i], x)
    ensures var lo, hi := LowerBound(cal, x), UpperBound(cal, x);
      var o := AddCommon(cal[lo..hi], x, overlap);
      var c := InsertAll(cal[..lo] + cal[hi..], Leftovers(cal[lo..hi], x));
      Consistent(c, o, bookings + [x])
  {
    DoubleBooking(cal, overlap, x);
    ScannedRange(cal, x);
    var lo, hi := LowerBound(cal, x), UpperBound(cal, x);
    StaysConsistent(cal, overlap, bookings, x,
                    InsertAll(cal[..lo] + cal[hi..], Leftovers(cal[lo..hi], x)), AddCommon(cal[lo..hi], x, overlap));
  }

  lemma ScannedRange(cal: IntervalSet, x: Interval)
    requires Sorted(cal) && x.start < x.end
    requires LowerBound(cal, x) <= UpperBound(cal, x)
    ensures var lo, hi := LowerBound(cal, x), UpperBound(cal, x);
      var rest, found := cal[..lo] + cal[hi..], cal[lo..hi];
      && Sorted(rest) && Sorted(found)
      && Apart(rest, x.start, x.end)
      && (forall t :: Holds(x, t) ==> !Covers(rest, t))
      && (forall i :: 0 <= i < |found| ==> Clash(found[i], x))
      && (forall i :: 0 <= i < |found| ==> Apart(rest, found[i].start, found[i].end))
  {
    RangeMeaning(cal, x);
    var lo, hi := LowerBound(cal, x), UpperBound(cal, x);
    CutMeaning(cal, lo, hi);
  }

  // The ideal calendar: keeps the list of accepted bookings and nothing else.
  ghost function IdealBookings(requests: seq<Interval>): seq<Interval> {
    if requests == [] then []
    else
      var before, x := IdealBookings(requests[..|requests| - 1]), requests[|requests| - 1];
      if Acceptable(before, x) then before + [x] else before
  }

  lemma IdealStep(requests: seq<Interval>, k: nat)
    requires k < |requests|
    ensures var before := IdealBookings(requests[..k]);
      IdealBookings(requests[..k + 1]) ==
        if Acceptable(before, requests[k]) then before + [requests[k]] else before
  {
    assert requests[..k + 1][..k] == requests[..k];
  }

  ghost predicate IdealAnswer(requests: seq<Interval>, i: nat)
    requires i < |requests|
  {
    Acceptable(IdealBookings(requests[..i]), requests[i])
  }

  ghost predicate AnsweredIdeal(requests: seq<Interval>, answers: seq<bool>) {
    |answers| <= |requests| && forall i :: 0 <= i < |answers| ==> (answers[i] <==> IdealAnswer(requests, i))
  }

  lemma AnswerMore(requests: seq<Interval>, answers: seq<bool>, ok: bool, before: seq<Interval>, after: seq<Interval>)
    requires AnsweredIdeal(requests, answers) && |answers| < |requests|
    requires var (k, x) := (|answers|, requests[|answers|]);
      && before == IdealBookings(requests[..k]) && (ok <==> Acceptable(before, x))
      && after == if ok then before + [x] else before
    ensures AnsweredIdeal(requests, answers + [ok])
    ensures after == IdealBookings(requests[..|answers| + 1])
  {
    var k := |answers|;
    IdealStep(requests, k);
    assert ok <==> IdealAnswer(requests, k);
  }

  // Any sequence of bookings on a new calendar is answered as the ideal
  // calendar answers it.
  method BookAll(requests: seq<Interval>) returns (answers: seq<bool>)
    requires forall i :: 0 <= i < |requests| ==> requests[i].start < requests[i].end
    ensures |answers| == |requests| && AnsweredIdeal(requests, answers)
  {
    var c := new MyCalendarTwo();
    answers := [];
    for k := 0 to |requests|
      invariant c.Valid() && fresh(c) && c.bookings == IdealBookings(requests[..k])
      invariant |answers| == k && AnsweredIdeal(requests, answers)
    {
      ghost var before := c.bookings;
      var ok := c.Book(requests[k].start, requests[k].end);
      assert Interval(requests[k].start, requests[k].end) == requests[k];
      AnswerMore(requests, answers, ok, before, c.bookings);
      answers := answers + [ok];
    }
  }
}
