/**
  Interval expansion and the booked-slot index (getBookedSlots).

  An interval [s, e) is expanded by a do-while loop: the label of the cursor
  is emitted, the cursor advances by 30 minutes, and the loop continues while
  at least 30 minutes remain before e. Every label of an appointment is filed
  under the day its start falls on.
 */
module Slots {
  import opened TimeGrid
  import opened Events
  import opened Horizon

  /** The cursor positions the do-while visits for [s, e), in order. */
  function Cursors(s: int, e: int): (cs: seq<int>)
    ensures 1 <= |cs| && cs[0] == s
    ensures forall c :: c in cs ==> s <= c
    decreases e - s
  {
    if e - (s + SlotMinutes) >= SlotMinutes then [s] + Cursors(s + SlotMinutes, e) else [s]
  }

  /** max(1, (e - s) / 30): the start slot is emitted even for an interval shorter than a slot. */
  function SlotCount(s: int, e: int): nat
  {
    if (e - s) / SlotMinutes >= 1 then (e - s) / SlotMinutes else 1
  }

  /** The do-while visits s, s + 30, s + 60, ..., max(1, (e - s) / 30) positions in all. */
  lemma {:induction false} CursorsClosedForm(s: int, e: int)
    ensures |Cursors(s, e)| == SlotCount(s, e)
    ensures forall i :: 0 <= i < |Cursors(s, e)| ==> Cursors(s, e)[i] == s + SlotMinutes * i
    decreases e - s
  {
    if e - (s + SlotMinutes) >= SlotMinutes {
      CursorsClosedForm(s + SlotMinutes, e);
      assert (e - (s + SlotMinutes)) / SlotMinutes == (e - s) / SlotMinutes - 1;
      forall i | 0 < i < |Cursors(s, e)|
        ensures Cursors(s, e)[i] == s + SlotMinutes * i
      {
        assert Cursors(s, e)[i] == Cursors(s + SlotMinutes, e)[i - 1];
      }
    }
  }

  /**
    Cursors strictly increase, and each one is the start itself or begins a
    whole slot that ends no later than e; the last one leaves less than a
    further slot before e.
   */
  lemma CursorsWithinInterval(s: int, e: int)
    ensures forall i, j :: 0 <= i < j < |Cursors(s, e)| ==> Cursors(s, e)[i] < Cursors(s, e)[j]
    ensures forall c :: c in Cursors(s, e) ==> c == s || (s < c && c + SlotMinutes <= e)
    ensures var last := Cursors(s, e)[|Cursors(s, e)| - 1]; e - (last + SlotMinutes) < SlotMinutes
  {
    var cs := Cursors(s, e);
    CursorsClosedForm(s, e);
    forall c | c in cs ensures c == s || (s < c && c + SlotMinutes <= e) {
      var i :| 0 <= i < |cs| && cs[i] == c;
      if i > 0 {
        var n := (e - s) / SlotMinutes;
        assert i + 1 <= n;
        assert SlotMinutes * (i + 1) <= SlotMinutes * n <= e - s;
      }
    }
    var k := |cs| - 1;
    assert cs[k] == s + SlotMinutes * k;
    if (e - s) / SlotMinutes >= 1 {
      assert k + 1 == (e - s) / SlotMinutes;
    }
  }

  /** The labels the do-while emits for the interval [s, e), in order. */
  function Labels(s: int, e: int): (ls: seq<SlotLabel>)
    ensures ls != []
    decreases e - s
  {
    if e - (s + SlotMinutes) >= SlotMinutes then [SlotAt(s)] + Labels(s + SlotMinutes, e) else [SlotAt(s)]
  }

  /** The i-th label emitted is the label of the i-th cursor. */
  lemma {:induction false} LabelsOfCursors(s: int, e: int)
    ensures |Labels(s, e)| == |Cursors(s, e)|
    ensures forall i :: 0 <= i < |Labels(s, e)| ==> Labels(s, e)[i] == SlotAt(Cursors(s, e)[i])
    decreases e - s
  {
    if e - (s + SlotMinutes) >= SlotMinutes {
      LabelsOfCursors(s + SlotMinutes, e);
    }
  }

  /** The list a day has in a day-keyed map, or none yet. */
  function Existing(m: map<int, seq<SlotLabel>>, d: int): seq<SlotLabel>
  {
    if d in m then m[d] else []
  }

  /** The booked-slot map after filing each event, in order, under its start day. */
  function Index(events: seq<Event>): (booked: map<int, seq<SlotLabel>>)
    ensures forall d :: d in booked ==> booked[d] != []
    decreases |events|
  {
    if events == [] then map[]
    else
      var prev := Index(events[..|events| - 1]);
      var e := events[|events| - 1];
      prev[Day(e.startsAt) := Existing(prev, Day(e.startsAt)) + Labels(e.startsAt, e.endsAt)]
  }

  /** The labels of the events that start on day d, concatenated in event order. */
  function LabelsOn(events: seq<Event>, d: int): seq<SlotLabel>
    decreases |events|
  {
    if events == [] then []
    else
      var e := events[|events| - 1];
      LabelsOn(events[..|events| - 1], d) + (if Day(e.startsAt) == d then Labels(e.startsAt, e.endsAt) else [])
  }

  /**
    The booked-slot map has a key for exactly the start days of the filed
    events, and day d holds the labels of the events starting on d, in order,
    whatever day their later slots fall on.
   */
  lemma {:induction false} IndexIsByStartDay(events: seq<Event>)
    ensures Index(events).Keys == set e | e in events :: Day(e.startsAt)
    ensures forall d :: Existing(Index(events), d) == LabelsOn(events, d)
    decreases |events|
  {
    if events != [] {
      var init := events[..|events| - 1];
      var e := events[|events| - 1];
      IndexIsByStartDay(init);
      assert events == init + [e];
      assert (set x | x in events :: Day(x.startsAt)) == (set x | x in init :: Day(x.startsAt)) + {Day(e.startsAt)};
    }
  }

  lemma {:induction false} LabelsOnMember(events: seq<Event>, d: int, x: SlotLabel)
    ensures x in LabelsOn(events, d) <==>
      exists e :: e in events && Day(e.startsAt) == d && x in Labels(e.startsAt, e.endsAt)
    decreases |events|
  {
    if events != [] {
      var init := events[..|events| - 1];
      var last := events[|events| - 1];
      LabelsOnMember(init, d, x);
      assert events == init + [last];
      if x in LabelsOn(events, d) && x !in LabelsOn(init, d) {
        assert last in events;
      }
      if exists e :: e in events && Day(e.startsAt) == d && x in Labels(e.startsAt, e.endsAt) {
        var e :| e in events && Day(e.startsAt) == d && x in Labels(e.startsAt, e.endsAt);
        if e != last {
          assert e in init;
        }
      }
    }
  }

  /** An appointment running past midnight files its after-midnight label under its start day. */
  lemma MidnightAppointment()
    ensures var a := Event(DayStart(3) + 23 * 60 + 30, DayStart(4) + 30, Appointment, false);
      Index([a]) == map[3 := [SlotLabel(23, 30), SlotLabel(0, 0)]]
  {
    var s := DayStart(3) + 23 * 60 + 30;
    var a := Event(s, DayStart(4) + 30, Appointment, false);
    assert Labels(s + SlotMinutes, DayStart(4) + 30) == [SlotAt(s + SlotMinutes)];
    assert SlotAt(s) == SlotLabel(23, 30);
    assert SlotAt(s + SlotMinutes) == SlotLabel(0, 0);
    assert Labels(s, DayStart(4) + 30) == [SlotAt(s), SlotAt(s + SlotMinutes)];
    DayOfDayStart(3, 23 * 60 + 30);
    assert [a][..0] == [];
    assert Index([a]) == map[][Day(s) := Existing(map[], Day(s)) + Labels(s, DayStart(4) + 30)];
    assert Existing(map[], Day(s)) + Labels(s, DayStart(4) + 30) == [SlotLabel(23, 30), SlotLabel(0, 0)];
  }

  /** The map after appending the labels ls to day d's list, creating it if needed. */
  function Filed(m: map<int, seq<SlotLabel>>, d: int, ls: seq<SlotLabel>): map<int, seq<SlotLabel>>
  {
    if ls == [] then m else m[d := Existing(m, d) + ls]
  }

  lemma FiledSnoc(m: map<int, seq<SlotLabel>>, d: int, ls: seq<SlotLabel>, x: SlotLabel)
    ensures Filed(m, d, ls + [x]) == Filed(m, d, ls)[d := Existing(Filed(m, d, ls), d) + [x]]
  {
    if ls != [] {
      var m1 := m[d := Existing(m, d) + ls];
      assert Existing(m1, d) + [x] == Existing(m, d) + (ls + [x]);
      assert m1[d := Existing(m1, d) + [x]] == m[d := Existing(m, d) + (ls + [x])];
    } else {
      assert ls + [x] == [x];
    }
  }

  /** One turn of the do-while: emit the cursor's label, then stop or go on from the next cursor. */
  lemma {:induction false} LabelsStep(s: int, e: int, done: seq<SlotLabel>, c: int)
    requires Labels(s, e) == done + Labels(c, e)
    ensures e - (c + SlotMinutes) >= SlotMinutes ==> Labels(s, e) == (done + [SlotAt(c)]) + Labels(c + SlotMinutes, e)
    ensures e - (c + SlotMinutes) < SlotMinutes ==> Labels(s, e) == done + [SlotAt(c)]
  {
    if e - (c + SlotMinutes) >= SlotMinutes {
      assert Labels(c, e) == [SlotAt(c)] + Labels(c + SlotMinutes, e);
    } else {
      assert Labels(c, e) == [SlotAt(c)];
    }
  }

  /** Files every label of the appointment [s, e) under its start day (the do-while of getBookedSlots). */
  method FileAppointment(booked0: map<int, seq<SlotLabel>>, s: int, e: int) returns (booked: map<int, seq<SlotLabel>>)
    ensures booked == booked0[Day(s) := Existing(booked0, Day(s)) + Labels(s, e)]
  {
    booked := booked0;
    var cursor := s;
    var day := Day(s);
    ghost var done: seq<SlotLabel> := [];
    while true
      invariant Labels(s, e) == done + Labels(cursor, e)
      invariant booked == Filed(booked0, day, done)
      decreases e - cursor
    {
      var slot := SlotAt(cursor);
      FiledSnoc(booked0, day, done, slot);
      LabelsStep(s, e, done, cursor);
      if day in booked {
        booked := booked[day := booked[day] + [slot]];
      } else {
        assert [] + [slot] == [slot];
        booked := booked[day := [slot]];
      }
      assert booked == Filed(booked0, day, done + [slot]);
      done := done + [slot];
      cursor := cursor + SlotMinutes;
      if e - cursor < SlotMinutes {
        assert done == Labels(s, e) && done != [];
        break;
      }
    }
  }

  /**
    Builds the booked-slot map from the appointments, sorted by start time:
    appointments are filed in order until the first one that starts after the
    first minute of the last horizon day (getBookedSlots).
   */
  method BookedSlots(appointments: seq<Event>, keys: seq<int>) returns (booked: map<int, seq<SlotLabel>>)
    requires |keys| > 0
    ensures booked == Index(TakeInRange(appointments, LastKey(keys)))
  {
    booked := map[];
    var lastDay := LastKey(keys);
    var i := 0;
    while i < |appointments|
      invariant 0 <= i <= |appointments|
      invariant forall j :: 0 <= j < i ==> InRange(appointments[j], lastDay)
      invariant booked == Index(appointments[..i])
    {
      var ev := appointments[i];
      if ev.startsAt <= DayStart(lastDay) {
        booked := FileAppointment(booked, ev.startsAt, ev.endsAt);
        assert appointments[..i + 1][..i] == appointments[..i];
        i := i + 1;
      } else {
        break;
      }
    }
    TakeInRangeStops(appointments, lastDay, i);
  }
}
