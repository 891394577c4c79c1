/**
  The availability resolver (getAvailabilities): the availability object
  seeded with the 7 horizon days, filterAvailableSots, the weekly-recurrence
  stepping, the per-opening expansion and the orchestrating entry point,
  each proved against a pure specification of the resulting day-keyed map.
 */
module Availabilities {
  import opened TimeGrid
  import opened Events
  import opened Horizon
  import opened Slots

  /** The day keys of the horizon starting at ref. */
  function HorizonSet(ref: int): set<int>
  {
    set d | d in HorizonKeys(ref)
  }

  /** Every horizon day mapped to an empty list. */
  function Seeded(ref: int): (avail: map<int, seq<SlotLabel>>)
    ensures avail.Keys == HorizonSet(ref)
    ensures forall d :: d in avail ==> avail[d] == []
  {
    map d | d in HorizonKeys(ref) :: []
  }

  /** No label listed for a day occurs in that day's booked list. */
  ghost predicate AvoidsBooked(avail: map<int, seq<SlotLabel>>, booked: map<int, seq<SlotLabel>>)
  {
    forall d, x :: d in avail && x in avail[d] ==> x !in Existing(booked, d)
  }

  /**
    filterAvailableSots: the slot is appended to day's list exactly when day
    is a key and the slot is not booked on day; no other list changes, no key
    is added, and no duplicate check is made against the list itself.
   */
  function Filtered(avail: map<int, seq<SlotLabel>>, day: int, booked: map<int, seq<SlotLabel>>, slot: SlotLabel): (r: map<int, seq<SlotLabel>>)
    ensures r.Keys == avail.Keys
    ensures forall d :: d in r && d != day ==> r[d] == avail[d]
    ensures day in avail ==> r[day] == if slot in Existing(booked, day) then avail[day] else avail[day] + [slot]
  {
    if day in avail && (day !in booked || slot !in booked[day]) then avail[day := avail[day] + [slot]] else avail
  }

  /** filterAvailableSots never lists a booked slot that was not listed before. */
  lemma FilteredAvoidsBooked(avail: map<int, seq<SlotLabel>>, day: int, booked: map<int, seq<SlotLabel>>, slot: SlotLabel)
    requires AvoidsBooked(avail, booked)
    ensures AvoidsBooked(Filtered(avail, day, booked, slot), booked)
  {
  }

  /** The day a weekly opening starting on day d lands on: d stepped forward a week at a time until it reaches the horizon. */
  function WeeklyDay(d: int, first: int): (h: int)
    ensures first <= h && d <= h
    ensures (h - d) % DaysPerWeek == 0
    decreases first - d
  {
    if first <= d then d else WeeklyDay(d + DaysPerWeek, first)
  }

  /**
    The stepping lands on the unique horizon day at or after d that is a
    whole number of weeks from d; that is d itself when d is in the horizon.
   */
  lemma {:induction false} WeeklyDayLands(d: int, first: int)
    requires d < first + HorizonDays
    ensures var h := WeeklyDay(d, first);
      && first <= h < first + HorizonDays
      && d <= h && (h - d) % DaysPerWeek == 0
      && (first <= d ==> h == d)
    decreases first - d
  {
    var h := WeeklyDay(d, first);
    if d < first {
      WeeklyDayLands(d + DaysPerWeek, first);
      assert (h - d) % DaysPerWeek == 0 by {
        assert h - d == (h - (d + DaysPerWeek)) + DaysPerWeek;
      }
    }
  }

  /** No other horizon day at or after d is a whole number of weeks from d. */
  lemma WeeklyDayUnique(d: int, first: int, k: int)
    requires d < first + HorizonDays
    requires first <= k < first + HorizonDays && d <= k && (k - d) % DaysPerWeek == 0
    ensures k == WeeklyDay(d, first)
  {
    var h := WeeklyDay(d, first);
    WeeklyDayLands(d, first);
    var a, b := (k - d) / DaysPerWeek, (h - d) / DaysPerWeek;
    assert k - d == DaysPerWeek * a;
    assert h - d == DaysPerWeek * b;
    assert -DaysPerWeek < DaysPerWeek * (a - b) < DaysPerWeek;
  }

  /** The day an opening's slots are filed under: its own start day, or the weekly landing day. */
  function Target(o: Event, first: int): (t: int)
    ensures o.weeklyRecurring ==> first <= t && Day(o.startsAt) <= t
    ensures !o.weeklyRecurring ==> t == Day(o.startsAt)
  {
    if o.weeklyRecurring then WeeklyDay(Day(o.startsAt), first)
    else Day(o.startsAt)
  }

  /** The availability after filtering each label in turn onto day. */
  function ApplySlots(avail: map<int, seq<SlotLabel>>, day: int, booked: map<int, seq<SlotLabel>>, ls: seq<SlotLabel>): (r: map<int, seq<SlotLabel>>)
    ensures r.Keys == avail.Keys
    decreases |ls|
  {
    if ls == [] then avail
    else Filtered(ApplySlots(avail, day, booked, ls[..|ls| - 1]), day, booked, ls[|ls| - 1])
  }

  lemma ApplySlotsSnoc(avail: map<int, seq<SlotLabel>>, day: int, booked: map<int, seq<SlotLabel>>, ls: seq<SlotLabel>, x: SlotLabel)
    ensures ApplySlots(avail, day, booked, ls + [x]) == Filtered(ApplySlots(avail, day, booked, ls), day, booked, x)
  {
    assert (ls + [x])[..|ls|] == ls;
  }

  /** The labels of ls not in bs, in order, repeats kept. */
  function Unbooked(ls: seq<SlotLabel>, bs: seq<SlotLabel>): seq<SlotLabel>
    decreases |ls|
  {
    if ls == [] then []
    else Unbooked(ls[..|ls| - 1], bs) + (if ls[|ls| - 1] in bs then [] else [ls[|ls| - 1]])
  }

  lemma {:induction false} UnbookedMember(ls: seq<SlotLabel>, bs: seq<SlotLabel>, x: SlotLabel)
    ensures x in Unbooked(ls, bs) <==> x in ls && x !in bs
    decreases |ls|
  {
    if ls != [] {
      var init := ls[..|ls| - 1];
      UnbookedMember(init, bs, x);
      assert ls == init + [ls[|ls| - 1]];
    }
  }

  /** Filtering one label onto a day that already got u appended appends the label too, unless it is booked. */
  lemma FilteredAfterAppend(avail: map<int, seq<SlotLabel>>, day: int, booked: map<int, seq<SlotLabel>>, u: seq<SlotLabel>, x: SlotLabel)
    requires day in avail
    ensures Filtered(avail[day := avail[day] + u], day, booked, x)
      == avail[day := avail[day] + (u + if x in Existing(booked, day) then [] else [x])]
  {
    var extra := if x in Existing(booked, day) then [] else [x];
    var m := avail[day := avail[day] + u];
    var r := Filtered(m, day, booked, x);
    var want := avail[day := avail[day] + (u + extra)];
    assert r[day] == avail[day] + u + extra == want[day];
    assert r.Keys == want.Keys;
    assert forall d :: d in r && d != day ==> r[d] == want[d];
  }

  /**
    Filtering a run of labels onto one day appends exactly the unbooked ones,
    in order and with repeats, when the day is a key, and changes nothing
    otherwise.
   */
  lemma {:induction false} ApplySlotsAppendsUnbooked(avail: map<int, seq<SlotLabel>>, day: int, booked: map<int, seq<SlotLabel>>, ls: seq<SlotLabel>)
    ensures ApplySlots(avail, day, booked, ls) ==
      if day in avail then avail[day := avail[day] + Unbooked(ls, Existing(booked, day))] else avail
    decreases |ls|
  {
    if ls == [] {
      if day in avail {
        assert avail[day] + Unbooked(ls, Existing(booked, day)) == avail[day];
        assert avail[day := avail[day]] == avail;
      }
    } else {
      var init := ls[..|ls| - 1];
      ApplySlotsAppendsUnbooked(avail, day, booked, init);
      if day in avail {
        FilteredAfterAppend(avail, day, booked, Unbooked(init, Existing(booked, day)), ls[|ls| - 1]);
      }
    }
  }

  /** One opening: its labels filtered onto its target day. */
  function ApplyOpening(avail: map<int, seq<SlotLabel>>, o: Event, booked: map<int, seq<SlotLabel>>, first: int): (r: map<int, seq<SlotLabel>>)
    ensures r.Keys == avail.Keys
  {
    ApplySlots(avail, Target(o, first), booked, Labels(o.startsAt, o.endsAt))
  }

  /** The openings applied one after another. */
  function ApplyOpenings(avail: map<int, seq<SlotLabel>>, os: seq<Event>, booked: map<int, seq<SlotLabel>>, first: int): (r: map<int, seq<SlotLabel>>)
    ensures forall d :: d in r ==> d in avail
    decreases |os|
  {
    if os == [] then avail
    else
      var last := os[|os| - 1];
      ApplyOpening(ApplyOpenings(avail, os[..|os| - 1], booked, first), last, booked, first)
  }

  /** One more turn of the opening loop applies the next opening to the result so far. */
  lemma ApplyOpeningsNext(avail: map<int, seq<SlotLabel>>, os: seq<Event>, i: int, booked: map<int, seq<SlotLabel>>, first: int)
    requires 0 <= i < |os|
    ensures ApplyOpenings(avail, os[..i + 1], booked, first) == ApplyOpening(ApplyOpenings(avail, os[..i], booked, first), os[i], booked, first)
  {
    assert os[..i + 1][..i] == os[..i];
  }

  /** What the openings add to day d: each opening's unbooked labels, if d is its target. */
  function Contribution(os: seq<Event>, first: int, booked: map<int, seq<SlotLabel>>, d: int): seq<SlotLabel>
    decreases |os|
  {
    if os == [] then []
    else
      var last := os[|os| - 1];
      Contribution(os[..|os| - 1], first, booked, d)
        + (if Target(last, first) == d then Unbooked(Labels(last.startsAt, last.endsAt), Existing(booked, d)) else [])
  }

  /** Applying the openings keeps exactly the same days. */
  lemma {:induction false} ApplyOpeningsKeys(avail: map<int, seq<SlotLabel>>, os: seq<Event>, booked: map<int, seq<SlotLabel>>, first: int)
    ensures ApplyOpenings(avail, os, booked, first).Keys == avail.Keys
    decreases |os|
  {
    if os != [] {
      var last := os[|os| - 1];
      ApplyOpeningsKeys(avail, os[..|os| - 1], booked, first);
      ApplySlotsAppendsUnbooked(ApplyOpenings(avail, os[..|os| - 1], booked, first), Target(last, first), booked, Labels(last.startsAt, last.endsAt));
    }
  }

  /**
    Applying the openings appends to day d the unbooked labels of the
    openings that target it, in opening order.
   */
  lemma {:induction false} ApplyOpeningsAppends(avail: map<int, seq<SlotLabel>>, os: seq<Event>, booked: map<int, seq<SlotLabel>>, first: int, d: int)
    requires d in avail
    ensures d in ApplyOpenings(avail, os, booked, first)
    ensures ApplyOpenings(avail, os, booked, first)[d] == avail[d] + Contribution(os, first, booked, d)
    decreases |os|
  {
    if os != [] {
      var init := os[..|os| - 1];
      var last := os[|os| - 1];
      var prev := ApplyOpenings(avail, init, booked, first);
      ApplyOpeningsAppends(avail, init, booked, first, d);
      ApplyOpeningAt(prev, last, booked, first, d);
      ContributionSnoc(os, first, booked, d);
      var add := if Target(last, first) == d then Unbooked(Labels(last.startsAt, last.endsAt), Existing(booked, d)) else [];
      AppendedAfter(prev, ApplyOpening(prev, last, booked, first), d, avail[d], Contribution(init, first, booked, d), add);
    }
  }

  /** Two appends in a row to one day's list are one append of both. */
  lemma AppendedAfter(x: map<int, seq<SlotLabel>>, r: map<int, seq<SlotLabel>>, d: int, head: seq<SlotLabel>, before: seq<SlotLabel>, add: seq<SlotLabel>)
    requires d in x && x[d] == head + before
    requires d in r && r[d] == x[d] + add
    ensures r[d] == head + (before + add)
  {
  }

  /** One opening appends its unbooked labels to its target day and leaves every other day as it was. */
  lemma ApplyOpeningAt(avail: map<int, seq<SlotLabel>>, o: Event, booked: map<int, seq<SlotLabel>>, first: int, d: int)
    requires d in avail
    ensures d in ApplyOpening(avail, o, booked, first)
    ensures ApplyOpening(avail, o, booked, first)[d] ==
      avail[d] + if Target(o, first) == d then Unbooked(Labels(o.startsAt, o.endsAt), Existing(booked, d)) else []
  {
    ApplySlotsAppendsUnbooked(avail, Target(o, first), booked, Labels(o.startsAt, o.endsAt));
    if Target(o, first) != d {
      assert avail[d] + [] == avail[d];
    }
  }

  lemma ContributionSnoc(os: seq<Event>, first: int, booked: map<int, seq<SlotLabel>>, d: int)
    requires os != []
    ensures var last := os[|os| - 1];
      Contribution(os, first, booked, d) == Contribution(os[..|os| - 1], first, booked, d)
        + (if Target(last, first) == d then Unbooked(Labels(last.startsAt, last.endsAt), Existing(booked, d)) else [])
  {
  }

  /** A label is contributed to day d exactly when it is unbooked on d and some opening targeting d emits it. */
  lemma {:induction false} ContributionMember(os: seq<Event>, first: int, booked: map<int, seq<SlotLabel>>, d: int, x: SlotLabel)
    ensures x in Contribution(os, first, booked, d) <==>
      x !in Existing(booked, d) &&
      exists o :: o in os && Target(o, first) == d && x in Labels(o.startsAt, o.endsAt)
    decreases |os|
  {
    if os != [] {
      var init := os[..|os| - 1];
      var last := os[|os| - 1];
      assert last in os;
      assert os == init + [last];
      ContributionMember(init, first, booked, d, x);
      UnbookedMember(Labels(last.startsAt, last.endsAt), Existing(booked, d), x);
      if exists o :: o in os && Target(o, first) == d && x in Labels(o.startsAt, o.endsAt) {
        var o :| o in os && Target(o, first) == d && x in Labels(o.startsAt, o.endsAt);
        if o != last {
          assert o in init;
        }
      }
    }
  }

  /**
    The whole computation on sorted appointments and openings: seed the
    horizon, index the appointments visited before the first one beyond it,
    then apply the openings visited before the first one beyond it.
   */
  function BookedFor(ref: int, appointments: seq<Event>): map<int, seq<SlotLabel>>
  {
    Index(TakeInRange(appointments, ref + HorizonDays - 1))
  }

  function Resolve(ref: int, appointments: seq<Event>, openings: seq<Event>): (r: map<int, seq<SlotLabel>>)
    ensures r.Keys == HorizonSet(ref)
  {
    ApplyOpeningsKeys(Seeded(ref), TakeInRange(openings, ref + HorizonDays - 1), BookedFor(ref, appointments), ref);
    ApplyOpenings(Seeded(ref), TakeInRange(openings, ref + HorizonDays - 1), BookedFor(ref, appointments), ref)
  }

  /**
    The result has exactly the 7 horizon days as keys; a label is listed on
    day d exactly when it is not booked on d and some visited opening whose
    target day is d emits it.
   */
  lemma ResolveContents(ref: int, appointments: seq<Event>, openings: seq<Event>, d: int, x: SlotLabel)
    ensures Resolve(ref, appointments, openings).Keys == HorizonSet(ref)
    ensures d in HorizonSet(ref) ==>
      (x in Resolve(ref, appointments, openings)[d] <==>
        x !in Existing(BookedFor(ref, appointments), d) &&
        exists o :: o in TakeInRange(openings, ref + HorizonDays - 1) && Target(o, ref) == d && x in Labels(o.startsAt, o.endsAt))
  {
    var os := TakeInRange(openings, ref + HorizonDays - 1);
    var booked := BookedFor(ref, appointments);
    ApplyOpeningsKeys(Seeded(ref), os, booked, ref);
    if d in HorizonSet(ref) {
      ApplyOpeningsAppends(Seeded(ref), os, booked, ref, d);
    }
    ContributionMember(os, ref, booked, d, x);
  }

  /**
    Each horizon day lists, in order and with repeats, the unbooked labels of
    the visited openings that target it.
   */
  lemma ResolveDay(ref: int, appointments: seq<Event>, openings: seq<Event>, d: int)
    requires d in HorizonSet(ref)
    ensures d in Resolve(ref, appointments, openings)
    ensures Resolve(ref, appointments, openings)[d] ==
      Contribution(TakeInRange(openings, ref + HorizonDays - 1), ref, BookedFor(ref, appointments), d)
  {
    var os := TakeInRange(openings, ref + HorizonDays - 1);
    ApplyOpeningsAppends(Seeded(ref), os, BookedFor(ref, appointments), ref, d);
    assert [] + Contribution(os, ref, BookedFor(ref, appointments), d) == Contribution(os, ref, BookedFor(ref, appointments), d);
  }

  /**
    A weekly opening visited by the loop files its slots on a horizon day that
    is a whole number of weeks after its start day; any other opening files
    them on its own start day.
   */
  lemma TargetLands(o: Event, first: int)
    requires InRange(o, first + HorizonDays - 1)
    ensures o.weeklyRecurring ==>
      first <= Target(o, first) < first + HorizonDays
      && Day(o.startsAt) <= Target(o, first)
      && (Target(o, first) - Day(o.startsAt)) % DaysPerWeek == 0
    ensures !o.weeklyRecurring ==> Target(o, first) == Day(o.startsAt)
  {
    DayAtMost(o.startsAt, first + HorizonDays - 1);
    WeeklyDayLands(Day(o.startsAt), first);
  }

  /** No label in the result is booked on its day. */
  lemma ResolveAvoidsBooked(ref: int, appointments: seq<Event>, openings: seq<Event>)
    ensures AvoidsBooked(Resolve(ref, appointments, openings), BookedFor(ref, appointments))
  {
    var r := Resolve(ref, appointments, openings);
    forall d, x | d in r && x in r[d] ensures x !in Existing(BookedFor(ref, appointments), d) {
      ResolveContents(ref, appointments, openings, d, x);
    }
  }

  /** The opening loop, stopped after i openings all in range and before one out of range, applied exactly TakeInRange. */
  lemma OpeningsLoopExit(avail: map<int, seq<SlotLabel>>, openings: seq<Event>, booked: map<int, seq<SlotLabel>>, first: int, i: nat)
    requires i <= |openings|
    requires forall j :: 0 <= j < i ==> InRange(openings[j], first + HorizonDays - 1)
    requires i < |openings| ==> !InRange(openings[i], first + HorizonDays - 1)
    ensures ApplyOpenings(avail, openings[..i], booked, first) == ApplyOpenings(avail, TakeInRange(openings, first + HorizonDays - 1), booked, first)
  {
    TakeInRangeStops(openings, first + HorizonDays - 1, i);
  }

  /**
    The availability object: the day keys in insertion order (Object.keys)
    and the list of available slot labels of each day.
   */
  class Availability {
    var keys: seq<int>
    var slots: map<int, seq<SlotLabel>>

    /** The keys are the 7 horizon days in order, and they are exactly the days with a list. */
    ghost predicate Valid()
      reads this
    {
      |keys| > 0 && keys == HorizonKeys(keys[0]) && slots.Keys == HorizonSet(keys[0])
    }

    /** Seeds one empty list per horizon day, for the reference day and the 6 days after it. */
    constructor (date: int)
      ensures Valid()
      ensures keys == HorizonKeys(Day(date))
      ensures slots == Seeded(Day(date))
    {
      var ref := Day(date);
      var order: seq<int> := [];
      var lists: map<int, seq<SlotLabel>> := map[];
      var day := 0;
      while day < HorizonDays
        invariant 0 <= day <= HorizonDays
        invariant order == HorizonKeys(ref)[..day]
        invariant forall d :: d in lists <==> ref <= d < ref + day
        invariant forall d :: d in lists ==> lists[d] == []
      {
        var key := Day(date + day * MinutesPerDay);
        DayShift(date, day);
        if key !in lists {
          order := order + [key];
        }
        lists := lists[key := []];
        day := day + 1;
      }
      keys := order;
      slots := lists;
      HorizonDaysAre(ref);
      assert order == HorizonKeys(ref);
      assert lists == Seeded(ref);
    }

    /** filterAvailableSots on this object. */
    method FilterAppend(day: int, booked: map<int, seq<SlotLabel>>, slot: SlotLabel)
      modifies this
      ensures keys == old(keys)
      ensures slots == Filtered(old(slots), day, booked, slot)
    {
      if day in slots && (day !in booked || slot !in booked[day]) {
        slots := slots[day := slots[day] + [slot]];
      }
    }

    /** Steps the opening's start day forward a week at a time until it is a key. */
    method RecurringDay(startsAt: int) returns (d: int)
      requires Valid()
      requires Day(startsAt) <= LastKey(keys)
      ensures d in slots
      ensures d == WeeklyDay(Day(startsAt), keys[0])
    {
      d := Day(startsAt);
      HorizonDaysAre(keys[0]);
      while d !in slots
        invariant d <= keys[0] + HorizonDays - 1
        invariant WeeklyDay(d, keys[0]) == WeeklyDay(Day(startsAt), keys[0])
        decreases keys[0] + HorizonDays - d
      {
        DayShift(DayStart(d), DaysPerWeek);
        DayOfDayStart(d, 0);
        d := Day(DayStart(d) + DaysPerWeek * MinutesPerDay);
      }
    }

    /** Expands one opening and filters each of its slots onto its target day (the do-while of getAvailabilities). */
    method AddOpening(o: Event, booked: map<int, seq<SlotLabel>>)
      requires Valid()
      requires InRange(o, LastKey(keys))
      modifies this
      ensures Valid() && keys == old(keys)
      ensures slots == ApplyOpening(old(slots), o, booked, keys[0])
    {
      var cursor := o.startsAt;
      var formatedDate := Day(o.startsAt);
      ghost var target := Target(o, keys[0]);
      ghost var done: seq<SlotLabel> := [];
      while true
        invariant Valid() && keys == old(keys)
        invariant Labels(o.startsAt, o.endsAt) == done + Labels(cursor, o.endsAt)
        invariant slots == ApplySlots(old(slots), target, booked, done)
        decreases o.endsAt - cursor
      {
        var slot := SlotAt(cursor);
        LabelsStep(o.startsAt, o.endsAt, done, cursor);
        ApplySlotsSnoc(old(slots), target, booked, done, slot);
        if o.weeklyRecurring {
          DayAtMost(o.startsAt, LastKey(keys));
          var day := RecurringDay(o.startsAt);
          FilterAppend(day, booked, slot);
        } else {
          FilterAppend(formatedDate, booked, slot);
        }
        done := done + [slot];
        cursor := cursor + SlotMinutes;
        if o.endsAt - cursor < SlotMinutes {
          assert done == Labels(o.startsAt, o.endsAt);
          break;
        }
      }
    }

    /**
      Applies the sorted openings in order, stopping at the first one that
      starts after the first minute of the last horizon day (the opening loop
      of getAvailabilities).
     */
    method AddOpenings(openings: seq<Event>, booked: map<int, seq<SlotLabel>>)
      requires Valid()
      modifies this
      ensures Valid() && keys == old(keys)
      ensures slots == ApplyOpenings(old(slots), TakeInRange(openings, keys[0] + HorizonDays - 1), booked, keys[0])
    {
      var lastDay := LastKey(keys);
      ghost var first := keys[0];
      ghost var start := slots;
      LastKeyOfHorizon(first);
      var i := 0;
      while i < |openings|
        invariant 0 <= i <= |openings|
        invariant Valid() && keys == old(keys)
        invariant forall j :: 0 <= j < i ==> InRange(openings[j], first + HorizonDays - 1)
        invariant slots == ApplyOpenings(start, openings[..i], booked, first)
      {
        var o := openings[i];
        if o.startsAt <= DayStart(lastDay) {
          ApplyOpeningsNext(start, openings, i, booked, first);
          AddOpening(o, booked);
          i := i + 1;
        } else {
          break;
        }
      }
      OpeningsLoopExit(start, openings, booked, first, i);
    }
  }

  /**
    The events of one kind copied into a fresh array (Array.prototype.filter)
    and sorted there in place by start time (sortArrayByDate).
   */
  method SortedOfKind(events: seq<Event>, k: Kind) returns (sorted: seq<Event>)
    ensures SortedByStart(sorted)
    ensures multiset(sorted) == multiset(OfKind(events, k))
  {
    var filtered := OfKind(events, k);
    var arr := new Event[|filtered|](i requires 0 <= i < |filtered| => filtered[i]);
    assert arr[..] == filtered;
    SortByStart(arr);
    sorted := arr[..];
  }

  /**
    getAvailabilities over an event list: partition by kind, sort each part
    by start time in place, seed the horizon, index the appointments, then
    apply the openings in order until the first one beyond the horizon. The
    ghost outputs are the sorted orders the sort produced.
   */
  method GetAvailabilities(date: int, dbEvents: seq<Event>) returns (a: Availability, ghost appointments: seq<Event>, ghost openings: seq<Event>)
    ensures fresh(a)
    ensures SortedByStart(appointments) && multiset(appointments) == multiset(OfKind(dbEvents, Appointment))
    ensures SortedByStart(openings) && multiset(openings) == multiset(OfKind(dbEvents, Opening))
    ensures a.Valid() && a.keys == HorizonKeys(Day(date))
    ensures a.slots == Resolve(Day(date), appointments, openings)
  {
    var bookedEvents := SortedOfKind(dbEvents, Appointment);
    var openEvents := SortedOfKind(dbEvents, Opening);
    appointments, openings := bookedEvents, openEvents;

    var ref := Day(date);
    a := new Availability(date);
    assert a.keys[0] == ref;
    var bookedSlots := BookedSlots(bookedEvents, a.keys);
    LastKeyOfHorizon(ref);
    a.AddOpenings(openEvents, bookedSlots);
  }
}
