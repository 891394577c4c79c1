/**
  Time-grid utilities: the day a timestamp falls on and the "H:MM" label of
  a slot. A timestamp is a whole number of minutes on one linear timeline;
  day number d covers the minutes [d * 1440, (d + 1) * 1440).
 */
module TimeGrid {

  const MinutesPerHour := 60
  const MinutesPerDay := 1440
  const SlotMinutes := 30
  const DaysPerWeek := 7

  /** The day key of a timestamp (the "yyyy-MM-dd" rendering of its date). */
  function Day(t: int): int
  {
    t / MinutesPerDay
  }

  /** The first minute of day d ("new Date(dayKey)"). */
  function DayStart(d: int): int
  {
    d * MinutesPerDay
  }

  lemma DayOfDayStart(d: int, offset: int)
    requires 0 <= offset < MinutesPerDay
    ensures Day(DayStart(d) + offset) == d
  {
  }

  /** A timestamp at or before the start of day d lies on day d or earlier. */
  lemma DayAtMost(t: int, d: int)
    requires t <= DayStart(d)
    ensures Day(t) <= d
  {
  }

  /** Moving a timestamp by whole days moves its day key by as many days. */
  lemma DayShift(t: int, k: int)
    ensures Day(t + k * MinutesPerDay) == Day(t) + k
  {
    assert t + k * MinutesPerDay == (Day(t) + k) * MinutesPerDay + t % MinutesPerDay;
  }

  /** The label of a timestamp depends only on its offset within its day. */
  lemma SlotAtOffset(d: int, offset: int)
    requires 0 <= offset < MinutesPerDay
    ensures SlotAt(DayStart(d) + offset) == SlotAt(offset)
  {
    assert (DayStart(d) + offset) % MinutesPerDay == offset;
  }

  /** Hour of the day (getHours). */
  function Hours(t: int): (h: nat)
    ensures h < 24
  {
    (t % MinutesPerDay) / MinutesPerHour
  }

  /** Minute of the hour (getMinutes). */
  function Minutes(t: int): (m: nat)
    ensures m < MinutesPerHour
  {
    (t % MinutesPerDay) % MinutesPerHour
  }

  function Digit(d: nat): (c: char)
    requires d < 10
    ensures '0' <= c <= '9'
  {
    ('0' as int + d) as char
  }

  function DigitValue(c: char): nat
  {
    if '0' <= c <= '9' then c as int - '0' as int else 0
  }

  /** The decimal rendering of n, with no leading zero (template-string interpolation of a number). */
  function Decimal(n: nat): (s: string)
    ensures 1 <= |s|
    ensures forall i :: 0 <= i < |s| ==> '0' <= s[i] <= '9'
    ensures n > 0 ==> s[0] != '0'
    ensures n < 10 <==> |s| == 1
    decreases n
  {
    if n < 10 then [Digit(n)] else Decimal(n / 10) + [Digit(n % 10)]
  }

  /** The number a string of decimal digits denotes. */
  function ParseDecimal(s: string): nat
    decreases |s|
  {
    if s == [] then 0 else 10 * ParseDecimal(s[..|s| - 1]) + DigitValue(s[|s| - 1])
  }

  lemma {:induction false} ParseDecimalOfDecimal(n: nat)
    ensures ParseDecimal(Decimal(n)) == n
    decreases n
  {
    if n >= 10 {
      var s := Decimal(n);
      assert s[..|s| - 1] == Decimal(n / 10);
      ParseDecimalOfDecimal(n / 10);
    }
  }

  /** The last k characters of s, or all of s when it is shorter (String.prototype.slice(-k)). */
  function LastChars(s: string, k: nat): string
  {
    if |s| <= k then s else s[|s| - k..]
  }

  /** The minute field of a label: "0" prefixed to the number, then its last two characters. */
  function TwoDigits(m: nat): string
  {
    LastChars("0" + Decimal(m), 2)
  }

  /** For every minute of an hour the minute field is exactly two digits: tens then units. */
  lemma {:induction false} TwoDigitsShape(m: nat)
    requires m < 100
    ensures TwoDigits(m) == [Digit(m / 10), Digit(m % 10)]
  {
    var s := "0" + Decimal(m);
    if m < 10 {
      assert Decimal(m) == [Digit(m)];
      assert s == [Digit(0), Digit(m)];
      assert LastChars(s, 2) == s;
    } else {
      assert Decimal(m / 10) == [Digit(m / 10)];
      assert Decimal(m) == [Digit(m / 10), Digit(m % 10)];
      assert s == ['0', Digit(m / 10), Digit(m % 10)];
      assert LastChars(s, 2) == s[1..];
    }
  }

  /** A slot label: the hour and minute a slot starts at. */
  datatype SlotLabel = SlotLabel(hour: nat, minute: nat)
  {
    /** Hour and minute of a real time of day. */
    predicate Valid()
    {
      hour < 24 && minute < MinutesPerHour
    }
  }

  /** The label of the slot starting at t: its hour and minute, read verbatim. */
  function SlotAt(t: int): (l: SlotLabel)
    ensures l.Valid()
  {
    SlotLabel(Hours(t), Minutes(t))
  }

  /** The text of a label: unpadded hour, ':', two-digit minute. */
  function Render(l: SlotLabel): string
  {
    Decimal(l.hour) + ":" + TwoDigits(l.minute)
  }

  /** The text label of a timestamp (getFormattedTime). */
  function FormatTime(t: int): (s: string)
    ensures 4 <= |s| <= 5 && s[|s| - 3] == ':'
    ensures ParseLabel(s) == (Hours(t), Minutes(t))
  {
    RenderShape(SlotAt(t));
    Render(SlotAt(t))
  }

  /** The label read back as (hour, minute). */
  function ParseLabel(s: string): (nat, nat)
  {
    if |s| < 3 then (0, 0)
    else (ParseDecimal(s[..|s| - 3]), 10 * DigitValue(s[|s| - 2]) + DigitValue(s[|s| - 1]))
  }

  /** An hour of the day has one or two digits. */
  lemma HourDigits(h: nat)
    requires h < 24
    ensures 1 <= |Decimal(h)| <= 2
  {
    if h >= 10 {
      assert Decimal(h / 10) == [Digit(h / 10)];
    }
  }

  /**
    A label has one or two hour digits with no padding, a ':' and exactly two
    minute digits; reading it back gives the hour and minute it was made from.
   */
  lemma {:induction false} RenderShape(l: SlotLabel)
    requires l.Valid()
    ensures var s := Render(l);
      && 4 <= |s| <= 5
      && s[..|s| - 3] == Decimal(l.hour)
      && s[|s| - 3] == ':'
      && s[|s| - 2] == Digit(l.minute / 10)
      && s[|s| - 1] == Digit(l.minute % 10)
      && ParseLabel(s) == (l.hour, l.minute)
  {
    var h, m := l.hour, l.minute;
    var s := Render(l);
    var hs := Decimal(h);
    TwoDigitsShape(m);
    assert s == hs + [':', Digit(m / 10), Digit(m % 10)];
    HourDigits(h);
    assert s[..|s| - 3] == hs;
    ParseDecimalOfDecimal(h);
  }

  /**
    Distinct labels render to distinct texts, so comparing rendered labels
    (as indexOf does) is comparing labels.
   */
  lemma RenderInjective(a: SlotLabel, b: SlotLabel)
    requires a.Valid() && b.Valid()
    ensures Render(a) == Render(b) <==> a == b
  {
    if Render(a) == Render(b) {
      RenderShape(a);
      RenderShape(b);
    }
  }

  /** Two timestamps get the same label exactly when they fall at the same minute of the day. */
  lemma SameLabelIffSameTimeOfDay(t1: int, t2: int)
    ensures FormatTime(t1) == FormatTime(t2) <==> t1 % MinutesPerDay == t2 % MinutesPerDay
  {
    if FormatTime(t1) == FormatTime(t2) {
      RenderInjective(SlotAt(t1), SlotAt(t2));
      assert Hours(t1) == Hours(t2) && Minutes(t1) == Minutes(t2);
      assert t1 % MinutesPerDay == Hours(t1) * MinutesPerHour + Minutes(t1);
      assert t2 % MinutesPerDay == Hours(t2) * MinutesPerHour + Minutes(t2);
    }
  }

  /** The label of h:m, with the hour unpadded and the minute as two digits. */
  lemma FormatTimeAt(h: nat, m: nat)
    requires h < 24 && m < MinutesPerHour
    ensures FormatTime(h * MinutesPerHour + m) == Decimal(h) + ":" + [Digit(m / 10), Digit(m % 10)]
  {
    assert Hours(h * MinutesPerHour + m) == h && Minutes(h * MinutesPerHour + m) == m;
    TwoDigitsShape(m);
  }

  /** A whole hour is labelled with a two-digit zero minute ("9:00"). */
  lemma FormatTimeWholeHour()
    ensures FormatTime(9 * 60) == "9:00"
  {
    FormatTimeAt(9, 0);
    var z := Digit(0);
    assert z == '0';
    assert Decimal(9) == ['9'];
    assert ['9'] + ":" + [z, z] == "9:00";
  }

  /** The minute is read verbatim, not snapped to the half hour ("9:05"). */
  lemma FormatTimeOffGrid()
    ensures FormatTime(9 * 60 + 5) == "9:05"
  {
    FormatTimeAt(9, 5);
    assert Digit(0) == '0' && Digit(5) == '5';
    assert Decimal(9) == ['9'];
    assert ['9'] + ":" + ['0', '5'] == "9:05";
  }

  /** An afternoon hour has two digits ("13:30"). */
  lemma FormatTimeAfternoon()
    ensures FormatTime(13 * 60 + 30) == "13:30"
  {
    FormatTimeAt(13, 30);
    assert Digit(3) == '3' && Digit(0) == '0' && Digit(1) == '1';
    assert Decimal(13) == Decimal(1) + [Digit(3)] == ['1', '3'];
    assert ['1', '3'] + ":" + ['3', '0'] == "13:30";
  }
}
