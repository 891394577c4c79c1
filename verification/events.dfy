/**
  Calendar events, their partition by kind, the in-place sort by start time
  (sortArrayByDate), and the prefix of a sorted list that the early-exit
  loops process before their first `break`.
 */
module Events {
  import opened TimeGrid

  datatype Kind = Appointment | Opening

  /** An event row; times are minutes on the linear timeline. */
  datatype Event = Event(startsAt: int, endsAt: int, kind: Kind, weeklyRecurring: bool)

  /** The events of one kind, in their original order (Array.prototype.filter on `kind`). */
  function OfKind(events: seq<Event>, k: Kind): (r: seq<Event>)
    ensures forall e :: e in r ==> e.kind == k
    ensures forall e :: multiset(r)[e] == if e.kind == k then multiset(events)[e] else 0
  {
    if events == [] then []
    else
      assert events == [events[0]] + events[1..];
      (if events[0].kind == k then [events[0]] else []) + OfKind(events[1..], k)
  }

  /** Appointments and openings together are exactly the input events. */
  lemma PartitionByKind(events: seq<Event>)
    ensures multiset(OfKind(events, Appointment)) + multiset(OfKind(events, Opening)) == multiset(events)
  {
    var a, o := OfKind(events, Appointment), OfKind(events, Opening);
    forall e ensures (multiset(a) + multiset(o))[e] == multiset(events)[e] {
      assert multiset(a)[e] == if e.kind == Appointment then multiset(events)[e] else 0;
      assert multiset(o)[e] == if e.kind == Opening then multiset(events)[e] else 0;
    }
  }

  ghost predicate SortedByStart(s: seq<Event>)
  {
    forall i, j :: 0 <= i < j < |s| ==> s[i].startsAt <= s[j].startsAt
  }

  /** Exchanges the events at positions j - 1 and j. */
  method SwapAdjacent(a: array<Event>, j: int)
    requires 0 < j < a.Length
    modifies a
    ensures a[..] == old(a[..])[j - 1 := old(a[j])][j := old(a[j - 1])]
    ensures multiset(a[..]) == multiset(old(a[..]))
  {
    a[j - 1], a[j] := a[j], a[j - 1];
  }

  /** Moves a[i] down into the sorted prefix a[..i], leaving a[i + 1..] alone. */
  method InsertLast(a: array<Event>, i: int)
    requires 0 <= i < a.Length
    requires SortedByStart(a[..i])
    modifies a
    ensures SortedByStart(a[..i + 1])
    ensures a[i + 1..] == old(a[i + 1..])
    ensures multiset(a[..]) == multiset(old(a[..]))
  {
    var j := i;
    while j > 0 && a[j - 1].startsAt > a[j].startsAt
      invariant 0 <= j <= i
      invariant forall p, q :: 0 <= p < q <= i && q != j ==> a[p].startsAt <= a[q].startsAt
      invariant forall p, q :: 0 <= p < j < q <= i ==> a[p].startsAt <= a[q].startsAt
      invariant a[i + 1..] == old(a[i + 1..])
      invariant multiset(a[..]) == multiset(old(a[..]))
    {
      SwapAdjacent(a, j);
      j := j - 1;
    }
  }

  /**
    Sorts the events by start time, ascending, in place (sortArrayByDate). The
    order of events with equal start times is left unspecified.
   */
  method SortByStart(a: array<Event>)
    modifies a
    ensures SortedByStart(a[..])
    ensures multiset(a[..]) == multiset(old(a[..]))
  {
    var i := 0;
    while i < a.Length
      invariant 0 <= i <= a.Length
      invariant SortedByStart(a[..i])
      invariant multiset(a[..]) == multiset(old(a[..]))
    {
      InsertLast(a, i);
      i := i + 1;
    }
    assert a[..a.Length] == a[..];
  }

  /** The loops' guard: the event starts no later than the first minute of the last horizon day. */
  predicate InRange(e: Event, lastDay: int): (b: bool)
    ensures b ==> e.startsAt < DayStart(lastDay + 1)
    ensures DayStart(lastDay) < e.startsAt < DayStart(lastDay + 1) ==> !b
  {
    e.startsAt <= DayStart(lastDay)
  }

  /** The events a `for` loop with `break` on the first out-of-range event visits. */
  function TakeInRange(events: seq<Event>, lastDay: int): (r: seq<Event>)
    ensures |r| <= |events| && r == events[..|r|]
    ensures forall e :: e in r ==> InRange(e, lastDay)
    ensures |r| < |events| ==> !InRange(events[|r|], lastDay)
  {
    if events == [] || !InRange(events[0], lastDay) then []
    else [events[0]] + TakeInRange(events[1..], lastDay)
  }

  /** A loop that has visited the first i events and stops there visited exactly TakeInRange. */
  lemma TakeInRangeStops(events: seq<Event>, lastDay: int, i: nat)
    requires i <= |events|
    requires forall j :: 0 <= j < i ==> InRange(events[j], lastDay)
    requires i < |events| ==> !InRange(events[i], lastDay)
    ensures TakeInRange(events, lastDay) == events[..i]
  {
  }

  /** All in-range events, wherever they are in the list. */
  function FilterInRange(events: seq<Event>, lastDay: int): (r: seq<Event>)
  {
    if events == [] then []
    else (if InRange(events[0], lastDay) then [events[0]] else []) + FilterInRange(events[1..], lastDay)
  }

  lemma {:induction false} NoneInRange(events: seq<Event>, lastDay: int)
    requires forall e :: e in events ==> !InRange(e, lastDay)
    ensures FilterInRange(events, lastDay) == []
  {
    if events != [] {
      assert events[0] in events;
      forall e | e in events[1..] ensures !InRange(e, lastDay) {
        assert e in events;
      }
      NoneInRange(events[1..], lastDay);
    }
  }

  /**
    On a sorted list, stopping at the first out-of-range event visits exactly
    the in-range events: the early exit loses nothing.
   */
  lemma {:induction false} SortedTakeIsFilter(events: seq<Event>, lastDay: int)
    requires SortedByStart(events)
    ensures TakeInRange(events, lastDay) == FilterInRange(events, lastDay)
  {
    if events != [] {
      if InRange(events[0], lastDay) {
        SortedTakeIsFilter(events[1..], lastDay);
      } else {
        forall e | e in events ensures !InRange(e, lastDay) {
          var k :| 0 <= k < |events| && events[k] == e;
          assert events[0].startsAt <= events[k].startsAt;
        }
        NoneInRange(events, lastDay);
      }
    }
  }

  /** On an unsorted list the early exit can skip an in-range event. */
  lemma UnsortedTakeMissesEvents()
    ensures var late := Event(DayStart(10), DayStart(10) + 60, Appointment, false);
      var early := Event(DayStart(1), DayStart(1) + 60, Appointment, false);
      TakeInRange([late, early], 6) == [] && FilterInRange([late, early], 6) == [early]
  {
    var late := Event(DayStart(10), DayStart(10) + 60, Appointment, false);
    var early := Event(DayStart(1), DayStart(1) + 60, Appointment, false);
    assert [late, early][1..] == [early];
    assert [early][1..] == [];
    assert FilterInRange([early], 6) == [early] + FilterInRange([], 6);
    assert FilterInRange([late, early], 6) == [] + FilterInRange([early], 6);
  }
}
