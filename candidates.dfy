/** Candidate preparation inside the "generate" handlers: row selection,
    the campus rule on room labels, and grouping each course's rows into
    sections. */
module Candidates {
  import opened Optional
  import opened Text
  import opened Meetings

  /** The campus radio button. `AnyCampus` stands for `Todas` and for any
      other value, neither of which filters anything. */
  datatype Campus = AnyCampus | Chapinero | Sur | CrisantoLuque

  /** `Salon.str.startswith(p, na=False)`: an empty cell never matches. */
  predicate RoomStartsWith(room: Option<string>, p: string)
  {
    room.Some? && HasPrefix(room.value, p)
  }

  /** `Salon.str.contains(sub, na=False)` for a literal marker. */
  predicate RoomContains(room: Option<string>, sub: string)
  {
    room.Some? && Contains(room.value, sub)
  }

  /** The campus rule: south rooms start with `SUR`, Crisanto Luque rooms
      contain `SLUQ`, Chapinero rooms are all the others. */
  predicate CampusAdmits(campus: Campus, room: Option<string>)
  {
    match campus
    case Sur => RoomStartsWith(room, "SUR")
    case CrisantoLuque => RoomContains(room, "SLUQ")
    case Chapinero => !RoomStartsWith(room, "SUR") && !RoomContains(room, "SLUQ")
    case AnyCampus => true
  }

  /** The type pandas gives the `Salon` column when the spreadsheets are
      read: text labels (an object column), or a numeric column, which is
      what a column without a single text cell becomes. */
  datatype RoomColumn = TextLabels | NumericColumn

  /** The `.str` accessor refuses a numeric column, so every named campus
      raises there; `Todas` never reaches the accessor. */
  predicate CampusFilterRaises(campus: Campus, column: RoomColumn)
  {
    campus != AnyCampus && column == NumericColumn
  }

  /** The three named campuses between them admit every room, and
      Chapinero shares no room with the other two. */
  lemma CampusesCoverEveryRoom(room: Option<string>)
    ensures CampusAdmits(Chapinero, room) || CampusAdmits(Sur, room) || CampusAdmits(CrisantoLuque, room)
    ensures CampusAdmits(Chapinero, room) ==> !CampusAdmits(Sur, room) && !CampusAdmits(CrisantoLuque, room)
  {
  }

  /** The south and Crisanto Luque rules are not exclusive: a room label
      that starts with `SUR` and also holds `SLUQ` passes both. */
  lemma SouthAndLuqueOverlap(room: string)
    requires HasPrefix(room, "SUR") && Contains(room, "SLUQ")
    ensures CampusAdmits(Sur, Some(room))
    ensures CampusAdmits(CrisantoLuque, Some(room))
    ensures !CampusAdmits(Chapinero, Some(room))
  {
  }

  /** Such labels exist: `SUR-SLUQ-101` is one. */
  lemma SouthAndLuqueShareALabel()
    ensures exists room :: HasPrefix(room, "SUR") && Contains(room, "SLUQ")
  {
    var room := "SUR-SLUQ-101";
    assert OccursAt(room, "SLUQ", 4);
    ContainsIffOccurs(room, "SLUQ");
    assert HasPrefix(room, "SUR") && Contains(room, "SLUQ");
  }

  /** The row filter: a selected course, a seat still free, and the
      chosen campus. */
  predicate Admitted(r: Row, selection: seq<string>, campus: Campus)
  {
    r.course in selection && r.enrolled < r.capacity && CampusAdmits(campus, r.room)
  }

  /** The rows that survive selection, capacity and campus filtering, in
      table order. */
  function SelectRows(table: seq<Row>, selection: seq<string>, campus: Campus): (kept: seq<Row>)
    ensures forall r :: r in kept <==> r in table && Admitted(r, selection, campus)
    ensures |kept| <= |table|
  {
    if table == [] then []
    else (if Admitted(table[0], selection, campus) then [table[0]] else [])
         + SelectRows(table[1..], selection, campus)
  }

  /** The rows of one course, in table order. */
  function RowsOfCourse(rows: seq<Row>, course: string): (kept: seq<Row>)
    ensures forall r :: r in kept <==> r in rows && r.course == course
    ensures |kept| <= |rows|
  {
    if rows == [] then []
    else (if rows[0].course == course then [rows[0]] else [])
         + RowsOfCourse(rows[1..], course)
  }

  /** The rows with one section number, in table order. */
  function RowsOfSection(rows: seq<Row>, number: int): (kept: seq<Row>)
    ensures forall r :: r in kept <==> r in rows && r.section == number
    ensures |kept| <= |rows|
  {
    if rows == [] then []
    else (if rows[0].section == number then [rows[0]] else [])
         + RowsOfSection(rows[1..], number)
  }

  predicate Increasing(keys: seq<int>)
  {
    forall i, j :: 0 <= i < j < |keys| ==> keys[i] < keys[j]
  }

  /** Adds `k` to an increasing list of keys, keeping it increasing and
      free of repeats. */
  function InsertKey(keys: seq<int>, k: int): (r: seq<int>)
    requires Increasing(keys)
    ensures Increasing(r)
    ensures forall x :: x in r <==> x in keys || x == k
  {
    if keys == [] then [k]
    else if k < keys[0] then [k] + keys
    else if k == keys[0] then keys
    else
      var rest := InsertKey(keys[1..], k);
      assert forall x :: x in keys[1..] ==> keys[0] < x by {
        forall x | x in keys[1..] ensures keys[0] < x {
          var i :| 0 <= i < |keys[1..]| && keys[1..][i] == x;
          assert keys[i + 1] == x;
        }
      }
      var r := [keys[0]] + rest;
      assert forall j :: 0 < j < |r| ==> r[j] == rest[j - 1] && rest[j - 1] in rest;
      r
  }

  /** The distinct section numbers of `rows` in ascending order, the order
      in which `groupby` visits its groups. */
  function SectionKeys(rows: seq<Row>): (keys: seq<int>)
    ensures Increasing(keys)
    ensures forall k :: k in keys <==> exists r :: r in rows && r.section == k
  {
    if rows == [] then []
    else InsertKey(SectionKeys(rows[1..]), rows[0].section)
  }

  /** `groupby('Nº Clase')`: one non-empty section per distinct section
      number, in ascending order, each holding exactly the rows with that
      number in table order; every row lands in the section of its number. */
  function GroupBySection(rows: seq<Row>): (groups: seq<Section>)
    ensures forall i, j :: 0 <= i < j < |groups| ==> groups[i].number < groups[j].number
    ensures forall g :: g in groups ==> g.meetings != [] && g.meetings == RowsOfSection(rows, g.number)
    ensures forall r :: r in rows ==> exists g :: g in groups && g.number == r.section
    ensures groups == [] <==> rows == []
  {
    var keys := SectionKeys(rows);
    var groups := seq(|keys|, i requires 0 <= i < |keys| => Section(keys[i], RowsOfSection(rows, keys[i])));
    assert forall g :: g in groups ==> g.meetings != [] by {
      forall g | g in groups ensures g.meetings != [] {
        var i :| 0 <= i < |groups| && groups[i] == g;
        assert keys[i] in keys;
        var r :| r in rows && r.section == keys[i];
        assert r in g.meetings;
      }
    }
    assert forall r :: r in rows ==> exists g :: g in groups && g.number == r.section by {
      forall r | r in rows ensures exists g :: g in groups && g.number == r.section {
        assert r.section in keys;
        var i :| 0 <= i < |keys| && keys[i] == r.section;
        assert groups[i] in groups;
      }
    }
    assert rows != [] ==> groups != [] by {
      if rows != [] {
        assert rows[0] in rows;
      }
    }
    groups
  }

  function Last<T>(s: seq<T>): T requires s != [] { s[|s| - 1] }
  function DropLast<T>(s: seq<T>): seq<T> requires s != [] { s[..|s| - 1] }

  /** `opciones_por_materia`: for each selected course in selection order,
      the sections of its surviving rows; a course left without rows
      contributes nothing. */
  function CourseOptions(filtered: seq<Row>, selection: seq<string>): (options: seq<seq<Section>>)
    ensures |options| <= |selection|
    ensures forall f :: f in options ==> f != []
  {
    if selection == [] then []
    else
      var sections := GroupBySection(RowsOfCourse(filtered, Last(selection)));
      CourseOptions(filtered, DropLast(selection)) + (if sections == [] then [] else [sections])
  }

  /** Every factor is the sectioning of one selected course's surviving
      rows, and every selected course with surviving rows has its factor. */
  lemma {:induction false} CourseOptionsShape(filtered: seq<Row>, selection: seq<string>)
    ensures forall f :: f in CourseOptions(filtered, selection) ==>
              exists c :: c in selection && f == GroupBySection(RowsOfCourse(filtered, c))
    ensures forall c :: c in selection && RowsOfCourse(filtered, c) != [] ==>
              GroupBySection(RowsOfCourse(filtered, c)) in CourseOptions(filtered, selection)
  {
    if selection != [] {
      var prefix, course := DropLast(selection), Last(selection);
      CourseOptionsShape(filtered, prefix);
      assert selection == prefix + [course];
      var options, previous := CourseOptions(filtered, selection), CourseOptions(filtered, prefix);
      var sections := GroupBySection(RowsOfCourse(filtered, course));
      assert options == previous + (if sections == [] then [] else [sections]);
      forall f | f in options
        ensures exists c :: c in selection && f == GroupBySection(RowsOfCourse(filtered, c))
      {
        if f in previous {
          var c :| c in prefix && f == GroupBySection(RowsOfCourse(filtered, c));
          assert c in selection;
        } else {
          assert f == sections;
        }
      }
      forall c | c in selection && RowsOfCourse(filtered, c) != []
        ensures GroupBySection(RowsOfCourse(filtered, c)) in options
      {
        if c in prefix {
          assert GroupBySection(RowsOfCourse(filtered, c)) in previous;
        } else {
          assert c == course;
        }
      }
    }
  }

  /** The meetings of every section in every factor are surviving rows of
      a selected course, all of one course per factor, and carry their
      section's number. */
  lemma OptionsComeFromFilteredRows(filtered: seq<Row>, selection: seq<string>, k: int, g: Section, m: Row)
    requires 0 <= k < |CourseOptions(filtered, selection)|
    requires g in CourseOptions(filtered, selection)[k] && m in g.meetings
    ensures m in filtered && m.course in selection && m.section == g.number
    ensures forall g', m' :: g' in CourseOptions(filtered, selection)[k] && m' in g'.meetings ==> m'.course == m.course
  {
    var options := CourseOptions(filtered, selection);
    CourseOptionsShape(filtered, selection);
    assert options[k] in options;
    var c :| c in selection && options[k] == GroupBySection(RowsOfCourse(filtered, c));
  }

  /** Extending the selection by one course adds that course's sections,
      if it has any. */
  lemma CourseOptionsStep(filtered: seq<Row>, selection: seq<string>, i: int)
    requires 0 <= i < |selection|
    ensures CourseOptions(filtered, selection[..i + 1]) ==
              CourseOptions(filtered, selection[..i])
              + (if GroupBySection(RowsOfCourse(filtered, selection[i])) == [] then []
                 else [GroupBySection(RowsOfCourse(filtered, selection[i]))])
  {
    assert DropLast(selection[..i + 1]) == selection[..i];
    assert Last(selection[..i + 1]) == selection[i];
  }

  /** The handler loop that builds `opciones_por_materia`. */
  method CollectOptions(filtered: seq<Row>, selection: seq<string>) returns (options: seq<seq<Section>>)
    ensures options == CourseOptions(filtered, selection)
  {
    options := [];
    for i := 0 to |selection|
      invariant options == CourseOptions(filtered, selection[..i])
    {
      var sections := GroupBySection(RowsOfCourse(filtered, selection[i]));
      if sections != [] {
        options := options + [sections];
      }
      CourseOptionsStep(filtered, selection, i);
    }
    assert selection[..|selection|] == selection;
  }
}
