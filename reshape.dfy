/** The wide-to-long reshape done when the spreadsheets are loaded: one
    long row per (input row, weekday whose flag column holds `Y`). */
module Reshape {
  import opened Clock
  import opened Optional
  import opened Meetings
  import opened Candidates

  /** The six weekday flag columns `Lun`, `Mar`, `Mier`, `Jue`, `Vier`, `Sab`. */
  datatype WeekFlags = WeekFlags(mon: string, tue: string, wed: string, thu: string, fri: string, sat: string)

  /** One row of the loaded spreadsheet. `course` is empty when the
      `Asignatura` cell is. */
  datatype WideRow = WideRow(
    course: Option<string>,
    section: int,
    start: TimeOfDay,
    finish: TimeOfDay,
    room: Option<string>,
    campus: string,
    enrolled: int,
    capacity: int,
    flags: WeekFlags)

  function Flag(w: WideRow, d: Day): string
  {
    match d
    case Monday => w.flags.mon
    case Tuesday => w.flags.tue
    case Wednesday => w.flags.wed
    case Thursday => w.flags.thu
    case Friday => w.flags.fri
    case Saturday => w.flags.sat
  }

  /** The row survives the `Asignatura` not-null filter and meets on `d`. */
  predicate MeetsOn(w: WideRow, d: Day)
  {
    w.course.Some? && Flag(w, d) == "Y"
  }

  /** The long row for weekday `d`: the identifying columns are kept and
      the flag columns replaced by the day. */
  function Lengthen(w: WideRow, d: Day): (r: Row)
    requires w.course.Some?
  {
    Row(w.course.value, w.section, d, w.start, w.finish, w.room, w.campus, w.enrolled, w.capacity)
  }

  /** The long rows of one weekday column, in input order. */
  function MeltDay(rows: seq<WideRow>, d: Day): (long: seq<Row>)
    ensures forall r :: r in long <==> exists w :: w in rows && MeetsOn(w, d) && r == Lengthen(w, d)
  {
    if rows == [] then []
    else (if MeetsOn(rows[0], d) then [Lengthen(rows[0], d)] else []) + MeltDay(rows[1..], d)
  }

  /** `melt` followed by the `Activo == 'Y'` filter: the weekday columns one
      after another, each in input order. */
  function MeltDays(rows: seq<WideRow>, days: seq<Day>): seq<Row>
  {
    if days == [] then [] else MeltDay(rows, days[0]) + MeltDays(rows, days[1..])
  }

  function Melt(rows: seq<WideRow>): seq<Row>
  {
    MeltDays(rows, Week)
  }

  /** A long row exists exactly for an input row and a weekday it meets on. */
  lemma {:induction false} MeltDaysMembership(rows: seq<WideRow>, days: seq<Day>, r: Row)
    ensures r in MeltDays(rows, days) <==>
              exists w, d :: w in rows && d in days && MeetsOn(w, d) && r == Lengthen(w, d)
  {
    if days != [] {
      MeltDaysMembership(rows, days[1..], r);
      assert forall d :: d in days <==> d == days[0] || d in days[1..];
    }
  }

  lemma MeltMembership(rows: seq<WideRow>, r: Row)
    ensures r in Melt(rows) <==> exists w, d :: w in rows && MeetsOn(w, d) && r == Lengthen(w, d)
  {
    MeltDaysMembership(rows, Week, r);
    forall d: Day ensures d in Week {
      assert Week[DayIndex(d)] == d;
    }
  }

  /** The type the `Salon` column is read as: text as soon as one cell of
      the loaded spreadsheets holds a label (rows without a course
      included), numeric when every cell is blank. */
  function RoomColumnOf(rows: seq<WideRow>): (column: RoomColumn)
    ensures column == TextLabels <==> exists w :: w in rows && w.room.Some?
  {
    if rows == [] then NumericColumn
    else if rows[0].room.Some? then TextLabels
    else RoomColumnOf(rows[1..])
  }

  /** A numeric room column leaves every long row without a label. */
  lemma NumericColumnMeltsToBlankRooms(rows: seq<WideRow>, r: Row)
    requires RoomColumnOf(rows) == NumericColumn
    requires r in Melt(rows)
    ensures r.room.None?
  {
    MeltMembership(rows, r);
  }

  /** The number of weekdays among `days` that the row meets on. */
  function ActiveCount(w: WideRow, days: seq<Day>): nat
  {
    if days == [] then 0 else (if MeetsOn(w, days[0]) then 1 else 0) + ActiveCount(w, days[1..])
  }

  /** The number of (row, weekday) pairs with a `Y` flag. */
  function TotalActive(rows: seq<WideRow>): nat
  {
    if rows == [] then 0 else ActiveCount(rows[0], Week) + TotalActive(rows[1..])
  }

  lemma {:induction false} MeltDaysCons(w: WideRow, rest: seq<WideRow>, days: seq<Day>)
    ensures |MeltDays([w] + rest, days)| == ActiveCount(w, days) + |MeltDays(rest, days)|
  {
    if days != [] {
      MeltDaysCons(w, rest, days[1..]);
      assert ([w] + rest)[1..] == rest;
    }
  }

  /** The reshape produces one long row per `Y` flag, no more and no fewer. */
  lemma {:induction false} MeltSize(rows: seq<WideRow>)
    ensures |Melt(rows)| == TotalActive(rows)
  {
    if rows == [] {
      ZeroRowsMeltToNothing(Week);
    } else {
      assert rows == [rows[0]] + rows[1..];
      MeltDaysCons(rows[0], rows[1..], Week);
      MeltSize(rows[1..]);
    }
  }

  lemma {:induction false} ZeroRowsMeltToNothing(days: seq<Day>)
    ensures MeltDays([], days) == []
  {
    if days != [] {
      ZeroRowsMeltToNothing(days[1..]);
    }
  }
}
