/** Times of day and weekdays, as the schedule engine sees them once the
    spreadsheet has been parsed. */
module Clock {

  type Hour = h: int | 0 <= h < 24
  type Minute = m: int | 0 <= m < 60

  /** A parsed `%H:%M` cell: always a valid time of day, like the time
      objects the loader produces. */
  datatype TimeOfDay = TimeOfDay(hour: Hour, minute: Minute)

  const MinutesPerDay: int := 24 * 60

  /** Minutes since midnight. */
  function ToMinutes(t: TimeOfDay): (m: int)
    ensures 0 <= m < MinutesPerDay
    ensures m / 60 == t.hour && m % 60 == t.minute
  {
    t.hour * 60 + t.minute
  }

  /** The time of day that lies `m` minutes after midnight. */
  function FromMinutes(m: int): (t: TimeOfDay)
    requires 0 <= m < MinutesPerDay
    ensures ToMinutes(t) == m
  {
    TimeOfDay(m / 60, m % 60)
  }

  /** Converting to minutes loses nothing. */
  lemma {:induction false} MinutesRoundTrip(t: TimeOfDay)
    ensures FromMinutes(ToMinutes(t)) == t
  {
    var m := ToMinutes(t);
    assert m / 60 == t.hour && m % 60 == t.minute;
  }

  /** Comparing minute counts is comparing times of day (hour first,
      then minute). */
  lemma MinutesOrder(a: TimeOfDay, b: TimeOfDay)
    ensures ToMinutes(a) < ToMinutes(b) <==>
              a.hour < b.hour || (a.hour == b.hour && a.minute < b.minute)
  {
    if a.hour < b.hour {
      assert ToMinutes(a) <= a.hour * 60 + 59 < (a.hour + 1) * 60 <= ToMinutes(b);
    } else if a.hour > b.hour {
      assert ToMinutes(b) <= b.hour * 60 + 59 < (b.hour + 1) * 60 <= ToMinutes(a);
    }
  }

  /** The six weekdays a class can meet on. */
  datatype Day = Monday | Tuesday | Wednesday | Thursday | Friday | Saturday

  /** The calendar's column order, Monday first. */
  const Week: seq<Day> := [Monday, Tuesday, Wednesday, Thursday, Friday, Saturday]

  /** The calendar column of a weekday: its position in `Week`. */
  function DayIndex(d: Day): (i: nat)
    ensures i < |Week| && Week[i] == d
  {
    match d
    case Monday => 0
    case Tuesday => 1
    case Wednesday => 2
    case Thursday => 3
    case Friday => 4
    case Saturday => 5
  }

  /** Every column holds exactly one weekday, so the column index
      identifies the day. */
  lemma DayIndexOfColumn(i: nat)
    requires i < |Week|
    ensures DayIndex(Week[i]) == i
  {
  }

  lemma DayIndexInjective(a: Day, b: Day)
    requires DayIndex(a) == DayIndex(b)
    ensures a == b
  {
  }
}

/** The usual optional value. */
module Optional {
  datatype Option<+T> = None | Some(value: T)
}
