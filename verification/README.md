# Slot availability over a 7-day horizon, in Dafny

This project models `getAvailabilities`, the routine that computes which
30-minute slots can be booked in the 7 days starting at a reference date.
It also models the helpers the routine uses.

The routine works in five steps:

1. It splits the calendar events into appointments and openings, and sorts
   each list by start time.
2. It seeds an availability object with one empty list per horizon day.
3. It files the labels of every appointment under the appointment's start
   day (`getBookedSlots`).
4. It expands every opening into 30-minute slot labels. A weekly-recurring
   opening first steps its start day forward a week at a time until it
   reaches the horizon.
5. It appends each label to its target day, unless that day is not in the
   horizon or the label is booked there (`filterAvailableSots`).

Time is a whole number of minutes on one timeline:

- Day `d` covers the minutes `[d * 1440, (d + 1) * 1440)`.
- The day key of a timestamp `t` is `t / 1440`.
- "The date of a day key" is that day's first minute.

A slot label is the datatype `SlotLabel(hour, minute)`. Its text, `Render`,
is the unpadded hour, a colon, then the minute as two digits.
`RenderInjective` proves that two labels render equal exactly when the
labels are equal. So the maps can hold labels instead of strings: comparing
labels, as the model does, is the same as the source's `indexOf` on strings.

The model has six modules:

- `TimeGrid`: day keys, hour and minute, and the label format (`getFormattedTime`).
- `Events`: events, the split by kind, the in-place insertion sort (`sortArrayByDate`), and the prefix of events the early-exit loops visit.
- `Horizon`: the 7 day keys in insertion order, and `getLastKey`.
- `Slots`: interval expansion and the booked-slot index (`getBookedSlots`), as methods proved against the functions `Labels` and `Index`.
- `Availabilities`: `filterAvailableSots`, the weekly stepping, the opening loop and the entry point.
  - The class `Availability` holds the day keys and the day-to-labels map; its methods update them in place.
  - Each method is proved against a pure function of the old state: `Filtered`, `ApplyOpening`, `ApplyOpenings`, `Resolve`.
  - The properties are proved about those functions.
- `Scenarios`: worked examples: one opening, the same opening recurring weekly, an opening partly booked, and an opening on the morning of the last horizon day.

Four behaviours of the code are kept as they are:

- The minute is always two digits: 9:00 gives "9:00", not "9:0" (`FormatTimeWholeHour`).
- A day's booked labels are an ordered list that can repeat, not a set.
- Nothing rejects an event with `starts_at >= ends_at`: the do-while emits the start slot of any interval (`SlotCount` is at least 1).
- The cut-off compares the start timestamp, not the start day, with the first minute of the last horizon day, so events later on that day are skipped (`InRange`, `LastDayMorningSkipped`).

## Model

| member | source | states |
|---|---|---|
| TimeGrid.DayShift | lib/getAvailabilities.js:151-152 | adding k whole days to a timestamp moves its day key by exactly k |
| TimeGrid.DayAtMost | lib/getAvailabilities.js:166 | an event that passes the cut-off test starts on the last horizon day or earlier |
| TimeGrid.DayOfDayStart | lib/getAvailabilities.js:78 | a timestamp inside day d has day key d |
| TimeGrid.Hours | lib/getAvailabilities.js:54 | the hour of a timestamp is below 24 |
| TimeGrid.Minutes | lib/getAvailabilities.js:55 | the minute of a timestamp is below 60 |
| TimeGrid.Decimal | lib/getAvailabilities.js:56 | a number renders as at least one decimal digit, with no leading zero unless it is 0, one digit exactly for numbers below 10 |
| TimeGrid.ParseDecimalOfDecimal | lib/getAvailabilities.js:56 | reading back the decimal rendering of n gives n |
| TimeGrid.TwoDigitsShape | lib/getAvailabilities.js:55 | prefixing "0" and keeping the last two characters gives exactly the tens digit then the units digit, for every minute of an hour |
| TimeGrid.SlotAt | lib/getAvailabilities.js:54-55 | the hour and minute read from a timestamp form a valid time of day |
| TimeGrid.SlotAtOffset | lib/getAvailabilities.js:54-55 | the label depends only on the offset within the day |
| TimeGrid.FormatTime | lib/getAvailabilities.js:53-57 | the label text of a timestamp is 4 or 5 characters with ':' third from the end, and reading it back gives the timestamp's hour and minute |
| TimeGrid.HourDigits | lib/getAvailabilities.js:54 | an hour of the day renders unpadded as one or two digits |
| TimeGrid.RenderShape | lib/getAvailabilities.js:53-57 | a label is 4 or 5 characters: the unpadded hour, ':' and two minute digits; parsing it gives back the hour and minute |
| TimeGrid.RenderInjective | lib/getAvailabilities.js:119 | two labels render to the same text exactly when they are equal, so the string comparison of indexOf compares labels |
| TimeGrid.SameLabelIffSameTimeOfDay | lib/getAvailabilities.js:53-57 | two timestamps get the same label exactly when they fall at the same minute of the day, on whatever day |
| TimeGrid.FormatTimeAt | lib/getAvailabilities.js:53-57 | h:m renders as the decimal hour, ':' and the two digits of m |
| TimeGrid.FormatTimeWholeHour | lib/getAvailabilities.js:55 | 9:00 renders as "9:00" |
| TimeGrid.FormatTimeOffGrid | lib/getAvailabilities.js:55 | 9:05 renders as "9:05": the minute is read verbatim, not snapped to the half hour |
| TimeGrid.FormatTimeAfternoon | lib/getAvailabilities.js:54 | 13:30 renders as "13:30" |
| Events.OfKind | lib/getAvailabilities.js:137-140 | the filtered list holds only events of the kind, each as often as in the input |
| Events.PartitionByKind | lib/getAvailabilities.js:137-140 | appointments and openings together are exactly the fetched events |
| Events.SwapAdjacent | lib/getAvailabilities.js:41 | exchanging two neighbours keeps the multiset of events |
| Events.InsertLast | lib/getAvailabilities.js:41-45 | moving the next event into a sorted prefix leaves a sorted longer prefix, does not touch the rest, and keeps the multiset |
| Events.SortByStart | lib/getAvailabilities.js:40-46 | after the in-place sort the array is ascending by start time and a permutation of its old contents |
| Events.TakeInRange | lib/getAvailabilities.js:77-101 | a loop that breaks at the first out-of-range event visits a prefix whose events are all in range, and the next event, if any, is out of range |
| Events.InRange | lib/getAvailabilities.js:166 | an event that passes the cut-off starts before the end of the last horizon day; one that starts later on that day than its first minute fails |
| Events.TakeInRangeStops | lib/getAvailabilities.js:98-100 | a loop that visited the first i events, all in range, and then broke or ran out visited exactly TakeInRange |
| Events.NoneInRange | lib/getAvailabilities.js:78 | a list with no event in range has no in-range events to keep |
| Events.SortedTakeIsFilter | lib/getAvailabilities.js:143-144 | on a sorted list, breaking at the first out-of-range event visits exactly the in-range events |
| Events.UnsortedTakeMissesEvents | lib/getAvailabilities.js:98-100 | on an unsorted list the early exit skips an in-range event that follows an out-of-range one |
| Horizon.HorizonDaysAre | lib/getAvailabilities.js:150-154 | the horizon has 7 keys, exactly ref to ref + 6, strictly increasing |
| Horizon.HorizonKeys | lib/getAvailabilities.js:150-154 | the seeding inserts 7 keys, the i-th being the reference day plus i |
| Horizon.LastKey | lib/getAvailabilities.js:64 | getLastKey returns one of the object's keys |
| Horizon.LastKeyOfHorizon | lib/getAvailabilities.js:64 | the last key of the horizon is ref + 6 |
| Slots.CursorsClosedForm | lib/getAvailabilities.js:82-97 | the do-while visits s, s + 30, s + 60, ..., max(1, (e - s) / 30) positions in all |
| Slots.Cursors | lib/getAvailabilities.js:82-97 | the do-while visits at least one position, the start first, and none before the start |
| Slots.CursorsWithinInterval | lib/getAvailabilities.js:82-97 | visited positions strictly increase, each is s or starts a whole slot ending by e, and the last leaves less than a slot before e |
| Slots.LabelsOfCursors | lib/getAvailabilities.js:83 | the i-th label emitted is the label of the i-th visited position |
| Slots.Labels | lib/getAvailabilities.js:82-97 | the do-while emits at least one label, even for an interval shorter than a slot |
| Slots.IndexIsByStartDay | lib/getAvailabilities.js:77-101 | the booked map has a key for exactly the start days of the visited appointments, and each day holds the labels of the appointments starting on it, in order |
| Slots.Index | lib/getAvailabilities.js:72-104 | every day that has a key in the booked map has at least one booked label |
| Slots.LabelsOnMember | lib/getAvailabilities.js:80-90 | a label is booked on day d exactly when some appointment starting on d emits it |
| Slots.MidnightAppointment | lib/getAvailabilities.js:80 | an appointment from 23:30 to 00:30 files both its labels under its start day |
| Slots.FiledSnoc | lib/getAvailabilities.js:85-90 | pushing one more label onto a day's list, creating the list if missing, is filing the longer run of labels |
| Slots.LabelsStep | lib/getAvailabilities.js:92-97 | one turn of the do-while emits the current label and then stops or continues from the next position |
| Slots.FileAppointment | lib/getAvailabilities.js:79-97 | the do-while appends exactly the appointment's labels to its start day's list, creating the list if needed, and changes no other day |
| Slots.BookedSlots | lib/getAvailabilities.js:72-104 | the booked map is the index of the appointments visited before the first one past the cut-off |
| Availabilities.Filtered | lib/getAvailabilities.js:114-124 | filterAvailableSots adds no key and changes no other day; it appends the slot exactly when the day is a key and the slot is not booked there, with no check against the day's own list |
| Availabilities.FilteredAvoidsBooked | lib/getAvailabilities.js:117-119 | if no listed slot is booked on its day before the call, none is after it |
| Availabilities.Seeded | lib/getAvailabilities.js:150-154 | the seeded map has exactly the horizon days as keys, each with an empty list |
| Availabilities.WeeklyDayLands | lib/getAvailabilities.js:179-182 | stepping a start day at or before the last horizon day forward by weeks lands in the horizon, a whole number of weeks later, and on the start day itself when that is in the horizon |
| Availabilities.WeeklyDayUnique | lib/getAvailabilities.js:179-182 | no other horizon day at or after the start day is a whole number of weeks from it |
| Availabilities.WeeklyDay | lib/getAvailabilities.js:179-182 | the stepping stops at or after the first horizon day and at or after the start day, a whole number of weeks after the start day |
| Availabilities.Target | lib/getAvailabilities.js:168-188 | a weekly opening files its slots at or after both the first horizon day and its start day; any other opening files them on its start day |
| Availabilities.TargetLands | lib/getAvailabilities.js:168-188 | a visited weekly opening files its slots on a horizon day a whole number of weeks after its start day; any other opening files them on its own start day |
| Availabilities.UnbookedMember | lib/getAvailabilities.js:117-119 | a label survives the booked check exactly when it is emitted and not booked |
| Availabilities.ApplySlots | lib/getAvailabilities.js:171-198 | filtering a run of labels onto a day keeps the same days |
| Availabilities.FilteredAfterAppend | lib/getAvailabilities.js:114-124 | after some labels were appended to a day, filtering one more appends it too unless it is booked |
| Availabilities.ApplySlotsAppendsUnbooked | lib/getAvailabilities.js:171-198 | filtering a run of labels onto a day appends exactly its unbooked labels, in order and with repeats, if the day is a key, and changes nothing otherwise |
| Availabilities.ApplyOpeningAt | lib/getAvailabilities.js:171-198 | one opening appends its unbooked labels to its target day and leaves every other day as it was |
| Availabilities.ApplyOpening | lib/getAvailabilities.js:171-198 | one opening neither adds nor removes a day |
| Availabilities.ApplyOpenings | lib/getAvailabilities.js:163-202 | the opening loop never adds a day |
| Availabilities.ApplyOpeningsNext | lib/getAvailabilities.js:163-202 | one more turn of the opening loop applies the next opening to the result so far |
| Availabilities.ApplyOpeningsKeys | lib/getAvailabilities.js:116 | applying openings never adds or removes a day |
| Availabilities.ApplyOpeningsAppends | lib/getAvailabilities.js:163-202 | after the openings each day holds its old list followed by the unbooked labels of the openings that target it, in opening order |
| Availabilities.ContributionMember | lib/getAvailabilities.js:163-202 | a label is added to day d exactly when it is not booked on d and some opening targeting d emits it |
| Availabilities.ResolveContents | lib/getAvailabilities.js:147-204 | the result has exactly the 7 horizon days as keys; a label is listed on a day exactly when it is not booked there and a visited opening targeting that day emits it |
| Availabilities.ResolveDay | lib/getAvailabilities.js:147-204 | each horizon day lists, in order and with repeats, the unbooked labels of the visited openings that target it |
| Availabilities.Resolve | lib/getAvailabilities.js:131-205 | the result has exactly the 7 horizon days as keys |
| Availabilities.ResolveAvoidsBooked | lib/getAvailabilities.js:185-188 | no label in the result is booked on its day |
| Availabilities.Availability.constructor | lib/getAvailabilities.js:147-154 | seeding leaves the keys ref to ref + 6 in insertion order, each with an empty list |
| Availabilities.Availability.FilterAppend | lib/getAvailabilities.js:114-124 | the object's map becomes Filtered of the old map; the keys are unchanged |
| Availabilities.Availability.RecurringDay | lib/getAvailabilities.js:176-182 | the stepping loop terminates on a key of the object, and that key is WeeklyDay of the start day |
| Availabilities.Availability.AddOpening | lib/getAvailabilities.js:167-198 | the do-while filters every label of the opening onto its target day: the map becomes ApplyOpening of the old map |
| Availabilities.OpeningsLoopExit | lib/getAvailabilities.js:199-201 | the opening loop, stopped after openings all in range and before one out of range, has applied exactly the in-range prefix |
| Availabilities.Availability.AddOpenings | lib/getAvailabilities.js:159-202 | the opening loop applies exactly the openings before the first one past the cut-off, in order |
| Availabilities.SortedOfKind | lib/getAvailabilities.js:137-144 | the events of one kind come out sorted by start time and as a permutation of the filtered list |
| Availabilities.GetAvailabilities | lib/getAvailabilities.js:131-205 | both sorted lists are permutations of the events of their kind, the object has the 7 horizon keys in order, and its map is Resolve of the sorted lists |
| Scenarios.NineToTen | lib/getAvailabilities.js:171-198 | a 9:00 to 10:00 interval emits 9:00 and 9:30 |
| Scenarios.UnbookedPair | lib/getAvailabilities.js:117-119 | of two labels, exactly the unbooked ones survive, in order |
| Scenarios.ResolveOneOpening | lib/getAvailabilities.js:163-202 | with one opening, its target day lists its unbooked labels and every other horizon day is empty |
| Scenarios.ResolveKeys | lib/getAvailabilities.js:150-154 | the result has the same keys as the seeded object |
| Scenarios.ResolveOneOpeningMap | lib/getAvailabilities.js:163-202 | with one opening landing on horizon day t, the result is the seeded object with t set to the opening's unbooked labels |
| Scenarios.NoneBooked | lib/getAvailabilities.js:72-104 | with no appointments nothing is booked |
| Scenarios.MondayNineBooked | lib/getAvailabilities.js:72-104 | a 9:00 to 9:30 appointment on the Monday books 9:00 on the Monday |
| Scenarios.MondayOpening | lib/getAvailabilities.js:131-205 | a Saturday reference day with one 9:00 to 10:00 opening on the Monday gives 9:00 and 9:30 on the Monday and empty lists elsewhere |
| Scenarios.WeeklyMondayOpening | lib/getAvailabilities.js:175-185 | the same opening, recurring weekly and dated a week earlier, fills the Monday of this horizon |
| Scenarios.MondayOpeningPartlyBooked | lib/getAvailabilities.js:114-124 | adding an appointment at 9:00 on that Monday leaves only 9:30 |
| Scenarios.LastDayMorningSkipped | lib/getAvailabilities.js:166 | an opening at 9:00 on the last horizon day starts after that day's first minute, so the loop stops before it and the result is the seeded object with every list empty |
| Scenarios.LastDayMidnightKept | lib/getAvailabilities.js:166 | an opening starting exactly at the first minute of the last horizon day passes the cut-off and fills that day with 0:00 |
| Scenarios.MidnightHalfHour | lib/getAvailabilities.js:171-198 | a half hour from midnight emits the single label 0:00 |
| Scenarios.UnbookedNone | lib/getAvailabilities.js:117-119 | with nothing booked on a day, every emitted label survives the booked check, in order |

## Left out

- The database: the client, the migration and the fetch of all events (lib/getAvailabilities.js:11-25, 134). The event list is an input parameter, so nothing is asynchronous.
- The date library (`format`, `add`, `getHours`, `getMinutes`, `differenceInMinutes`) and the parsing of date strings. They become arithmetic on whole minutes and day numbers.
- Time zones, daylight saving time and calendar month and year rollover. One linear timeline of minutes stands in for local time. This hides a time-zone effect of the code: at lib/getAvailabilities.js:78, 166 and 180 a `yyyy-MM-dd` day key is read back with `new Date`, which takes it as UTC midnight. West of UTC that instant is the previous local evening, so the cut-off sits on the evening before the last day, and each weekly step at line 180 moves the local date by 6 days rather than 7. `WeeklyDayLands`' "a whole number of weeks" holds only at UTC and east of it. The cut-off of `InRange` holds only at UTC: east of UTC the code's cut-off falls later on the last day, so events between its midnight and that instant pass in the code and are skipped in the model.
- Sub-minute precision. `differenceInMinutes` truncates a millisecond difference; here timestamps are whole minutes.
- Events.SortByStart: the order among events with equal start times is not specified. The source comparator never returns 0, so the engine's sort decides that order.
- Availabilities.GetAvailabilities: the sorted appointment and opening lists are ghost outputs that the method chooses. The contract fixes their contents and order up to ties, not which order of tied events the engine would produce.
- Availabilities.WeeklyDay: for a start day after the horizon it returns the day unchanged, while the source's stepping loop would never end. Only events that pass the cut-off reach the loop (`RecurringDay` requires that), so the difference is never observed.
- Event identifiers and any field other than start, end, kind and the weekly flag.
- Labels are kept as hour and minute pairs rather than as strings; `Render` gives their text, and `RenderInjective` shows that nothing is lost.
