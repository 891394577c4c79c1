/**
  Worked examples of the whole computation: a Saturday reference day ref, so
  that ref + 2 is the Monday of the horizon, and a one-hour opening at 9:00
  on a Monday.
 */
module Scenarios {
  import opened TimeGrid
  import opened Events
  import opened Horizon
  import opened Slots
  import opened Availabilities

  /** The two labels of a 9:00 to 10:00 interval on day d. */
  lemma NineToTen(d: int)
    ensures Labels(DayStart(d) + 9 * 60, DayStart(d) + 10 * 60) == [SlotLabel(9, 0), SlotLabel(9, 30)]
  {
    var s := DayStart(d) + 9 * 60;
    SlotAtOffset(d, 9 * 60);
    SlotAtOffset(d, 9 * 60 + 30);
    assert Labels(s + SlotMinutes, DayStart(d) + 10 * 60) == [SlotAt(s + SlotMinutes)];
  }

  lemma UnbookedPair(a: SlotLabel, b: SlotLabel, bs: seq<SlotLabel>)
    ensures Unbooked([a, b], bs) == (if a in bs then [] else [a]) + (if b in bs then [] else [b])
  {
    assert [a, b][..1] == [a];
    assert [a][..0] == [];
    assert Unbooked([a], bs) == [] + (if a in bs then [] else [a]);
  }

  /** With a single opening, each horizon day lists its unbooked labels if it is the target, and nothing otherwise. */
  lemma ResolveOneOpening(ref: int, appointments: seq<Event>, o: Event, d: int)
    requires InRange(o, ref + HorizonDays - 1)
    requires d in HorizonSet(ref)
    ensures d in Resolve(ref, appointments, [o])
    ensures Resolve(ref, appointments, [o])[d] ==
      if Target(o, ref) == d then Unbooked(Labels(o.startsAt, o.endsAt), Existing(BookedFor(ref, appointments), d)) else []
  {
    assert TakeInRange([o], ref + HorizonDays - 1) == [o];
    ResolveDay(ref, appointments, [o], d);
    assert [o][..0] == [];
  }

  /** The result has the horizon days as keys, like the seeded object. */
  lemma ResolveKeys(ref: int, appointments: seq<Event>, openings: seq<Event>)
    ensures Resolve(ref, appointments, openings).Keys == Seeded(ref).Keys == HorizonSet(ref)
  {
    ResolveContents(ref, appointments, openings, ref, SlotLabel(0, 0));
  }

  /** With a single opening landing on horizon day t, only t gets labels: the opening's unbooked ones. */
  lemma ResolveOneOpeningMap(ref: int, appointments: seq<Event>, o: Event, t: int,
                             emitted: seq<SlotLabel>, booked: seq<SlotLabel>, ls: seq<SlotLabel>)
    requires InRange(o, ref + HorizonDays - 1)
    requires Target(o, ref) == t && ref <= t < ref + HorizonDays
    requires Labels(o.startsAt, o.endsAt) == emitted
    requires Existing(BookedFor(ref, appointments), t) == booked
    requires Unbooked(emitted, booked) == ls
    ensures Resolve(ref, appointments, [o]) == Seeded(ref)[t := ls]
  {
    HorizonDaysAre(ref);
    var r := Resolve(ref, appointments, [o]);
    var want := Seeded(ref)[t := ls];
    ResolveKeys(ref, appointments, [o]);
    forall d | d in r ensures r[d] == want[d] {
      ResolveOneOpening(ref, appointments, o, d);
    }
  }

  /** Nothing is booked without appointments. */
  lemma NoneBooked(ref: int)
    ensures BookedFor(ref, []) == map[]
  {
  }

  /** An appointment from 9:00 to 9:30 on the Monday books 9:00 on the Monday. */
  lemma MondayNineBooked(ref: int)
    ensures var a := Event(DayStart(ref + 2) + 9 * 60, DayStart(ref + 2) + 9 * 60 + 30, Appointment, false);
      BookedFor(ref, [a]) == map[ref + 2 := [SlotLabel(9, 0)]]
  {
    var a := Event(DayStart(ref + 2) + 9 * 60, DayStart(ref + 2) + 9 * 60 + 30, Appointment, false);
    DayOfDayStart(ref + 2, 9 * 60);
    SlotAtOffset(ref + 2, 9 * 60);
    assert Labels(a.startsAt, a.endsAt) == [SlotLabel(9, 0)];
    assert TakeInRange([a], ref + HorizonDays - 1) == [a];
    assert [a][..0] == [];
    assert Index([a]) == map[][ref + 2 := Existing(map[], ref + 2) + Labels(a.startsAt, a.endsAt)];
    assert Existing(map[], ref + 2) + Labels(a.startsAt, a.endsAt) == [SlotLabel(9, 0)];
  }

  /**
    One non-recurring opening from 9:00 to 10:00 on the Monday and no
    appointments: the Monday lists 9:00 and 9:30, every other day is empty.
   */
  lemma MondayOpening(ref: int)
    ensures var o := Event(DayStart(ref + 2) + 9 * 60, DayStart(ref + 2) + 10 * 60, Opening, false);
      Resolve(ref, [], [o]) == Seeded(ref)[ref + 2 := [SlotLabel(9, 0), SlotLabel(9, 30)]]
  {
    var o := Event(DayStart(ref + 2) + 9 * 60, DayStart(ref + 2) + 10 * 60, Opening, false);
    DayOfDayStart(ref + 2, 9 * 60);
    NineToTen(ref + 2);
    NoneBooked(ref);
    UnbookedNone([SlotLabel(9, 0), SlotLabel(9, 30)]);
    ResolveOneOpeningMap(ref, [], o, ref + 2, [SlotLabel(9, 0), SlotLabel(9, 30)], [], [SlotLabel(9, 0), SlotLabel(9, 30)]);
  }

  /**
    The same opening recurring weekly, dated the Monday of the previous week:
    it steps one week forward and fills the Monday of this horizon.
   */
  lemma WeeklyMondayOpening(ref: int)
    ensures var o := Event(DayStart(ref - 5) + 9 * 60, DayStart(ref - 5) + 10 * 60, Opening, true);
      Resolve(ref, [], [o]) == Seeded(ref)[ref + 2 := [SlotLabel(9, 0), SlotLabel(9, 30)]]
  {
    var o := Event(DayStart(ref - 5) + 9 * 60, DayStart(ref - 5) + 10 * 60, Opening, true);
    DayOfDayStart(ref - 5, 9 * 60);
    assert WeeklyDay(ref - 5, ref) == WeeklyDay(ref + 2, ref) == ref + 2;
    NineToTen(ref - 5);
    NoneBooked(ref);
    UnbookedNone([SlotLabel(9, 0), SlotLabel(9, 30)]);
    ResolveOneOpeningMap(ref, [], o, ref + 2, [SlotLabel(9, 0), SlotLabel(9, 30)], [], [SlotLabel(9, 0), SlotLabel(9, 30)]);
  }

  /**
    The Monday opening with an appointment from 9:00 to 9:30 on the same day:
    only 9:30 remains.
   */
  lemma MondayOpeningPartlyBooked(ref: int)
    ensures var o := Event(DayStart(ref + 2) + 9 * 60, DayStart(ref + 2) + 10 * 60, Opening, false);
      var a := Event(DayStart(ref + 2) + 9 * 60, DayStart(ref + 2) + 9 * 60 + 30, Appointment, false);
      Resolve(ref, [a], [o]) == Seeded(ref)[ref + 2 := [SlotLabel(9, 30)]]
  {
    var o := Event(DayStart(ref + 2) + 9 * 60, DayStart(ref + 2) + 10 * 60, Opening, false);
    var a := Event(DayStart(ref + 2) + 9 * 60, DayStart(ref + 2) + 9 * 60 + 30, Appointment, false);
    DayOfDayStart(ref + 2, 9 * 60);
    NineToTen(ref + 2);
    MondayNineBooked(ref);
    UnbookedPair(SlotLabel(9, 0), SlotLabel(9, 30), [SlotLabel(9, 0)]);
    ResolveOneOpeningMap(ref, [a], o, ref + 2, [SlotLabel(9, 0), SlotLabel(9, 30)], [SlotLabel(9, 0)], [SlotLabel(9, 30)]);
  }

  /**
    An opening from 9:00 to 10:00 on the last horizon day starts after that
    day's first minute: the loop stops before it and no label is added.
   */
  lemma LastDayMorningSkipped(ref: int)
    ensures var o := Event(DayStart(ref + 6) + 9 * 60, DayStart(ref + 6) + 10 * 60, Opening, false);
      Resolve(ref, [], [o]) == Seeded(ref)
  {
    var o := Event(DayStart(ref + 6) + 9 * 60, DayStart(ref + 6) + 10 * 60, Opening, false);
    assert !InRange(o, ref + HorizonDays - 1);
    assert TakeInRange([o], ref + HorizonDays - 1) == [];
  }

  /** The single label of a half-hour interval starting at midnight of day d. */
  lemma MidnightHalfHour(d: int)
    ensures Labels(DayStart(d), DayStart(d) + 30) == [SlotLabel(0, 0)]
  {
    SlotAtOffset(d, 0);
  }

  /** An opening starting at the very first minute of the last horizon day still passes the cut-off. */
  lemma LastDayMidnightKept(ref: int)
    ensures var o := Event(DayStart(ref + 6), DayStart(ref + 6) + 30, Opening, false);
      Resolve(ref, [], [o]) == Seeded(ref)[ref + 6 := [SlotLabel(0, 0)]]
  {
    var o := Event(DayStart(ref + 6), DayStart(ref + 6) + 30, Opening, false);
    DayOfDayStart(ref + 6, 0);
    MidnightHalfHour(ref + 6);
    NoneBooked(ref);
    UnbookedNone([SlotLabel(0, 0)]);
    ResolveOneOpeningMap(ref, [], o, ref + 6, [SlotLabel(0, 0)], [], [SlotLabel(0, 0)]);
  }

  /** With nothing booked on a day, every emitted label survives the booked check, in order. */
  lemma {:induction false} UnbookedNone(ls: seq<SlotLabel>)
    ensures Unbooked(ls, []) == ls
    decreases |ls|
  {
    if ls != [] {
      UnbookedNone(ls[..|ls| - 1]);
      assert ls[..|ls| - 1] + [ls[|ls| - 1]] == ls;
    }
  }
}
