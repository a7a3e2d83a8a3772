// class Schedule of cpp11/ReservationSystem.cpp: table bookings of six quarter
// hours each, kept as a difference array over the day's slots.

module Reservations {
  import opened Arithmetic

  const TABLES := 10
  const PERSONS_PER_TABLE := 4
  const STAY := 6      // slots of a booking
  const NEARBY := 8    // slots in two hours

  // ceil_int(people, persons_per_table)
  function TablesNeeded(people: int): int {
    Quotient(people + PERSONS_PER_TABLE - 1, PERSONS_PER_TABLE)
  }

  function TimeToSlot(openTime: int, min: int): (slot: nat) {
    if min < openTime then 0 else Quotient(min - openTime, 15)
  }

  // The least number of tables that seats the party at four a table.
  lemma TablesSeatAll(people: int, tables: int)
    requires people > -4
    ensures 4 * TablesNeeded(people) >= people
    ensures 4 * tables >= people ==> tables >= TablesNeeded(people)
  {
  }

  // The quarter of an hour after opening that holds the time, or the first one.
  lemma SlotHoldsTime(openTime: int, min: int)
    ensures var slot := TimeToSlot(openTime, min);
      if min < openTime then slot == 0 else openTime + 15 * slot <= min < openTime + 15 * slot + 15
  {
  }

  datatype Booking = Booking(slot: nat, tables: int)

  // The tables in use in slot i: the sum over the bookings covering it.
  ghost function InUse(bookings: seq<Booking>, i: int): int {
    if bookings == [] then 0
    else
      var b := bookings[|bookings| - 1];
      InUse(bookings[..|bookings| - 1], i) + if b.slot <= i < b.slot + STAY then b.tables else 0
  }

  lemma InUseMore(bookings: seq<Booking>, b: Booking)
    ensures forall i ::
              InUse(bookings + [b], i) == InUse(bookings, i) + if b.slot <= i < b.slot + STAY then b.tables else 0
  {
    assert (bookings + [b])[..|bookings|] == bookings;
  }

  // The same by minutes: a booking takes its tables for ninety minutes.
  ghost function TablesAt(bookings: seq<Booking>, openTime: int, min: int): int {
    if bookings == [] then 0
    else
      var b := bookings[|bookings| - 1];
      var start := openTime + 15 * b.slot;
      TablesAt(bookings[..|bookings| - 1], openTime, min) + if start <= min < start + 90 then b.tables else 0
  }

  lemma {:induction false} TablesAtSlot(bookings: seq<Booking>, openTime: int, i: int, min: int)
    requires openTime + 15 * i <= min < openTime + 15 * i + 15
    ensures TablesAt(bookings, openTime, min) == InUse(bookings, i)
    decreases |bookings|
  {
    if bookings != [] { TablesAtSlot(bookings[..|bookings| - 1], openTime, i, min); }
  }

  // Ten tables are enough at every minute of a stay from `start` on.
  ghost predicate EnoughFrom(bookings: seq<Booking>, openTime: int, n: int, start: int) {
    forall min :: start <= min < start + 90 ==> TablesAt(bookings, openTime, min) + n <= 10
  }

  // A stay is possible exactly when it ends within the day and in none of its
  // ninety minutes more than ten tables would be taken.
  lemma PossibleByMinutes(bookings: seq<Booking>, slots: nat, n: int, openTime: int, slot: nat)
    ensures Possible(bookings, slots, n, slot) <==>
              slot + 6 < slots && EnoughFrom(bookings, openTime, n, openTime + 15 * slot)
  {
    var start := openTime + 15 * slot;
    if AllFit(bookings, n, slot, slot + STAY) {
      forall min | start <= min < start + 90 ensures TablesAt(bookings, openTime, min) + n <= 10 {
        var i := (min - openTime) / 15;
        TablesAtSlot(bookings, openTime, i, min);
        assert Fits(bookings, n, i);
      }
    }
    if EnoughFrom(bookings, openTime, n, start) {
      forall i | slot <= i < slot + STAY ensures Fits(bookings, n, i) {
        var min := openTime + 15 * i;
        TablesAtSlot(bookings, openTime, i, min);
        assert TablesAt(bookings, openTime, min) + n <= 10;
      }
    }
  }

  // The sum of the first k entries.
  ghost function Prefix(s: seq<int>, k: nat): int
    requires k <= |s|
  {
    if k == 0 then 0 else Prefix(s, k - 1) + s[k - 1]
  }

  lemma {:induction false} PrefixUpdate(s: seq<int>, j: nat, d: int, k: nat)
    requires j < |s| && k <= |s|
    ensures Prefix(s[j := s[j] + d], k) == Prefix(s, k) + if j < k then d else 0
    decreases k
  {
    if k > 0 { PrefixUpdate(s, j, d, k - 1); }
  }

  // n more tables fit into slot i.
  ghost predicate Fits(bookings: seq<Booking>, n: int, i: int) {
    InUse(bookings, i) + n <= TABLES
  }

  ghost predicate AllFit(bookings: seq<Booking>, n: int, lo: int, hi: int) {
    forall i {:trigger Fits(bookings, n, i)} :: lo <= i < hi ==> Fits(bookings, n, i)
  }

  // A booking of n tables from `slot` on is possible on a day of `slots` slots.
  ghost predicate Possible(bookings: seq<Booking>, slots: nat, n: int, slot: nat) {
    slot + STAY < slots && AllFit(bookings, n, slot, slot + STAY)
  }

  // The running sum of the difference array is the number of tables in use,
  // which never exceeds the tables there are.
  ghost predicate Balanced(s: seq<int>, bookings: seq<Booking>) {
    forall i {:trigger InUse(bookings, i)} :: 0 <= i < |s| ==> Prefix(s, i + 1) == InUse(bookings, i) <= TABLES
  }

  datatype Reservation = Reservation(startTime: int, people: int)

  class Schedule {
    var schedule: seq<int>
    var reservations: map<string, Reservation>
    const openTime: int
    ghost var bookings: seq<Booking>   // the accepted ones

    ghost predicate Valid()
      reads this
    {
      Balanced(schedule, bookings)
    }

    constructor (open: int, close: int)
      requires Quotient(close - open, 15) + 1 >= 0
      ensures Valid() && bookings == [] && openTime == open && |schedule| == Quotient(close - open, 15) + 1
    {
      openTime := open;
      schedule := seq(Quotient(close - open, 15) + 1, _ => 0);
      reservations, bookings := map[], [];
      new;
      ZeroPrefix(schedule);
    }

    // At no minute of the day are more than ten tables taken.
    lemma NeverOverbooked(min: int)
      requires Valid() && openTime <= min < openTime + 15 * |schedule|
      ensures TablesAt(bookings, openTime, min) <= 10
    {
      var i := (min - openTime) / 15;
      TablesAtSlot(bookings, openTime, i, min);
      assert InUse(bookings, i) <= TABLES;
    }

    method TakeReservation(user: string, startTime: int, people: int) returns (accepted: bool)
      requires Valid()
      modifies this
      ensures Valid() && |schedule| == old(|schedule|)
      ensures accepted <==> Possible(old(bookings), |schedule|, TablesNeeded(people), TimeToSlot(openTime, startTime))
      ensures accepted <==>
                var slot := TimeToSlot(openTime, startTime);
                slot + 6 < |schedule|
                && EnoughFrom(old(bookings), openTime, TablesNeeded(people), openTime + 15 * slot)
      ensures !accepted ==> bookings == old(bookings)
      ensures accepted ==>
                bookings == old(bookings) + [Booking(TimeToSlot(openTime, startTime), TablesNeeded(people))]
      ensures reservations ==
                if accepted then old(reservations)[user := Reservation(startTime, people)] else old(reservations)
    {
      var slot := TimeToSlot(openTime, startTime);
      PossibleByMinutes(bookings, |schedule|, TablesNeeded(people), openTime, slot);
      if slot + STAY >= |schedule| {
        return false;
      }
      var sum := 0;
      for i := 0 to slot
        invariant sum == Prefix(schedule, i)
      {
        sum := sum + schedule[i];
      }
      var needed := TablesNeeded(people);
      for i := slot to slot + STAY
        invariant Valid() && unchanged(this)
        invariant sum == Prefix(schedule, i)
        invariant AllFit(bookings, needed, slot, i)
      {
        sum := sum + schedule[i];
        assert sum == InUse(bookings, i);
        if sum + needed > TABLES {
          assert !Fits(bookings, needed, i);
          return false;
        }
      }
      schedule := schedule[slot := schedule[slot] + needed];
      schedule := schedule[slot + STAY := schedule[slot + STAY] - needed];
      reservations := reservations[user := Reservation(startTime, people)];
      bookings := bookings + [Booking(slot, needed)];
      Booked(old(schedule), old(bookings), slot, needed);
      return true;
    }

    // The start slots at most two hours away at which the party could be
    // taken, in ascending order.  The scan starts eight slots early, which
    // must not lie beyond the end of the day.
    method AlternateReservationWithin2hr(startTime: int, people: int) returns (alternate: seq<nat>)
      requires Valid() && TimeToSlot(openTime, startTime) - NEARBY <= |schedule|
      ensures forall i, j :: 0 <= i < j < |alternate| ==> alternate[i] < alternate[j]
      ensures forall x: nat :: x in alternate <==>
                && TimeToSlot(openTime, startTime) - 8 <= x <= TimeToSlot(openTime, startTime) + 8
                && Possible(bookings, |schedule|, TablesNeeded(people), x)
    {
      var slot := TimeToSlot(openTime, startTime);
      var start := Max(0, slot - NEARBY);
      var end := Min(|schedule| - 1, slot + NEARBY + STAY);
      var sum := 0;
      for i := 0 to start
        invariant sum == Prefix(schedule, i)
      {
        sum := sum + schedule[i];
      }
      var needed := TablesNeeded(people);
      var goodStart := -1;
      alternate := [];
      var i := start;
      while i < end
        invariant start <= i <= Max(start, end) && sum == Prefix(schedule, i)
        invariant RunOk(bookings, needed, start, i, goodStart)
        invariant Offered(alternate, bookings, needed, start, i)
      {
        sum := sum + schedule[i];
        assert sum == InUse(bookings, i);
        assert Fits(bookings, needed, i) <==> sum + needed <= TABLES;
        RunStep(bookings, needed, start, i, goodStart);
        OfferNext(alternate, bookings, needed, start, i);
        if sum + needed > TABLES {
          goodStart := -1;
        } else {
          if goodStart < 0 {
            goodStart := i;
          } else if i - goodStart == STAY - 1 {
            alternate := alternate + [goodStart];
            goodStart := goodStart + 1;
          }
        }
        i := i + 1;
      }
    }
  }

  lemma {:induction false} ZeroPrefixAt(s: seq<int>, k: nat)
    requires k <= |s| && forall i :: 0 <= i < |s| ==> s[i] == 0
    ensures Prefix(s, k) == 0
  {
    if k > 0 { ZeroPrefixAt(s, k - 1); }
  }

  lemma ZeroPrefix(s: seq<int>)
    requires forall i :: 0 <= i < |s| ==> s[i] == 0
    ensures forall k :: 0 <= k <= |s| ==> Prefix(s, k) == 0
  {
    forall k | 0 <= k <= |s| ensures Prefix(s, k) == 0 { ZeroPrefixAt(s, k); }
  }

  // An accepted booking adds its tables to the six slots it covers.
  lemma Booked(s: seq<int>, bookings: seq<Booking>, slot: nat, n: int)
    requires slot + STAY < |s| && AllFit(bookings, n, slot, slot + STAY)
    requires Balanced(s, bookings)
    ensures var s' := s[slot := s[slot] + n];
      Balanced(s'[slot + STAY := s'[slot + STAY] - n], bookings + [Booking(slot, n)])
  {
    var s' := s[slot := s[slot] + n];
    var s'' := s'[slot + STAY := s'[slot + STAY] - n];
    InUseMore(bookings, Booking(slot, n));
    forall i | 0 <= i < |s| ensures Prefix(s'', i + 1) == InUse(bookings + [Booking(slot, n)], i) <= TABLES {
      PrefixUpdate(s, slot, n, i + 1);
      PrefixUpdate(s', slot + STAY, -n, i + 1);
      assert slot <= i < slot + STAY ==> Fits(bookings, n, i);
    }
  }

  // The run of fitting slots that ends just before i starts at goodStart, cut
  // down to its last five slots; -1 when there is none.
  ghost predicate RunOk(bookings: seq<Booking>, n: int, start: int, i: int, goodStart: int) {
    if goodStart < 0 then i == start || !Fits(bookings, n, i - 1)
    else
      && start <= goodStart < i <= goodStart + STAY - 1
      && AllFit(bookings, n, goodStart, i)
      && (goodStart == start || i == goodStart + STAY - 1 || !Fits(bookings, n, goodStart - 1))
  }

  // The start slots from `start` on at which a stay ending by slot i fits,
  // in ascending order.
  ghost predicate Offered(alternate: seq<nat>, bookings: seq<Booking>, n: int, start: nat, i: nat) {
    && (forall a, b :: 0 <= a < b < |alternate| ==> alternate[a] < alternate[b])
    && (forall x: nat ::
          x in alternate <==> start <= x && x + STAY <= i && AllFit(bookings, n, x, x + STAY))
  }

  lemma OfferNext(alternate: seq<nat>, bookings: seq<Booking>, n: int, start: nat, i: nat)
    requires start <= i && Offered(alternate, bookings, n, start, i)
    ensures var x := i - (STAY - 1);
      if start <= x && AllFit(bookings, n, x, i + 1) then Offered(alternate + [x], bookings, n, start, i + 1)
      else Offered(alternate, bookings, n, start, i + 1)
  {
    var x := i - (STAY - 1);
    forall a | 0 <= a < |alternate| ensures alternate[a] < x { assert alternate[a] in alternate; }
  }

  // One more slot: a window of six slots ending at i fits exactly when the run
  // already held five and i fits.
  lemma RunStep(bookings: seq<Booking>, n: int, start: int, i: int, goodStart: int)
    requires 0 <= start <= i && RunOk(bookings, n, start, i, goodStart)
    ensures start <= i - (STAY - 1) && AllFit(bookings, n, i - (STAY - 1), i + 1)
            <==> Fits(bookings, n, i) && goodStart >= 0 && i - goodStart == STAY - 1
    ensures RunOk(bookings, n, start, i + 1,
              if !Fits(bookings, n, i) then -1
              else if goodStart < 0 then i
              else if i - goodStart == STAY - 1 then goodStart + 1
              else goodStart)
  {
    assert Fits(bookings, n, i + 1 - 1) == Fits(bookings, n, i);
  }
}
