/** Meeting rows, sections, and the overlap test between two meetings. */
module Meetings {
  import opened Clock
  import opened Optional

  /** One row of the long-form offering table: a course section meeting on
      one weekday. `room` is the `Salon` cell, which may be empty. */
  datatype Row = Row(
    course: string,
    section: int,
    day: Day,
    start: TimeOfDay,
    finish: TimeOfDay,
    room: Option<string>,
    campus: string,
    enrolled: int,
    capacity: int)

  function StartMinute(r: Row): int { ToMinutes(r.start) }
  function FinishMinute(r: Row): int { ToMinutes(r.finish) }

  function Max(a: int, b: int): int { if a < b then b else a }
  function Min(a: int, b: int): int { if a < b then a else b }

  /** Do two meetings clash? They must fall on the same weekday and the
      later start must come before the earlier finish. Equivalently: each
      meeting starts before its own finish and before the other's finish,
      which is the intersection test on non-empty half-open intervals. */
  function Clash(a: Row, b: Row): (c: bool)
    ensures c <==> a.day == b.day
                   && StartMinute(a) < FinishMinute(a)
                   && StartMinute(b) < FinishMinute(b)
                   && StartMinute(a) < FinishMinute(b)
                   && StartMinute(b) < FinishMinute(a)
  {
    if a.day != b.day then false
    else Max(StartMinute(a), StartMinute(b)) < Min(FinishMinute(a), FinishMinute(b))
  }

  lemma ClashSymmetric(a: Row, b: Row)
    ensures Clash(a, b) == Clash(b, a)
  {
  }

  /** Meetings on different weekdays never clash. */
  lemma ClashNeedsSameDay(a: Row, b: Row)
    requires a.day != b.day
    ensures !Clash(a, b)
  {
  }

  /** A meeting that ends exactly when another starts does not clash
      with it. */
  lemma TouchingMeetingsDoNotClash(a: Row, b: Row)
    requires FinishMinute(a) == StartMinute(b)
    ensures !Clash(a, b) && !Clash(b, a)
  {
  }

  /** A minute of the day that a meeting occupies: its intervals are
      half-open, start included and finish excluded. */
  predicate Occupies(r: Row, d: Day, minute: int)
  {
    r.day == d && StartMinute(r) <= minute < FinishMinute(r)
  }

  /** Clashing means sharing a minute of the same weekday. */
  lemma ClashIffSharedMinute(a: Row, b: Row)
    ensures Clash(a, b) <==> exists minute :: Occupies(a, a.day, minute) && Occupies(b, a.day, minute)
  {
    if Clash(a, b) {
      var m := Max(StartMinute(a), StartMinute(b));
      assert Occupies(a, a.day, m) && Occupies(b, a.day, m);
    }
  }

  /** A section: the meetings of one course that share a section number
      (`Nº Clase`). */
  datatype Section = Section(number: int, meetings: seq<Row>)

  /** Two sections conflict when some meeting of the first clashes with
      some meeting of the second. Meetings of one section are never
      compared with each other. */
  predicate Conflict(a: Section, b: Section)
  {
    exists x, y :: x in a.meetings && y in b.meetings && Clash(x, y)
  }

  lemma ConflictSymmetric(a: Section, b: Section)
    ensures Conflict(a, b) == Conflict(b, a)
  {
    if Conflict(a, b) {
      var x, y :| x in a.meetings && y in b.meetings && Clash(x, y);
      ClashSymmetric(x, y);
    }
    if Conflict(b, a) {
      var y, x :| y in b.meetings && x in a.meetings && Clash(y, x);
      ClashSymmetric(x, y);
    }
  }
}
