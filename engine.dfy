/** The whole "generate" computation as one specification, shared by the
    notebook and the web app, and its end-to-end guarantees. */
module Engine {
  import opened Meetings
  import opened Candidates
  import opened Combinations
  import opened Window
  import opened Display

  /** `opciones_por_materia` for a request. */
  function Options(table: seq<Row>, selection: seq<string>, campus: Campus): seq<seq<Section>>
  {
    CourseOptions(SelectRows(table, selection, campus), selection)
  }

  /** The outcome of the computation: either no selected course kept any
      row, so there is nothing to combine (and `pd.concat` of an empty
      tuple raises), or the list of window-compliant clash-free
      combinations. */
  datatype Generation = NothingToCombine | Generated(schedules: seq<seq<Row>>)

  function Generate(table: seq<Row>, selection: seq<string>, shift: Shift, campus: Campus): (g: Generation)
    ensures g.NothingToCombine? <==>
              forall c :: c in selection ==> RowsOfCourse(SelectRows(table, selection, campus), c) == []
  {
    var options := Options(table, selection, campus);
    CourseOptionsShape(SelectRows(table, selection, campus), selection);
    if options == [] then NothingToCombine
    else
      assert options[0] in options;
      Generated(KeepWithin(ClashFreeCombinations(options), WindowFor(shift)))
  }

  /** Everything generated is a schedule the student asked for: one
      section per course that kept rows, no two chosen sections clashing,
      every meeting a surviving row of a selected course with a free seat
      on the chosen campus, and every start and finish inside the shift's
      window. */
  lemma GeneratedSound(table: seq<Row>, selection: seq<string>, shift: Shift, campus: Campus, c: seq<Row>)
    requires Generate(table, selection, shift, campus).Generated?
    requires c in Generate(table, selection, shift, campus).schedules
    ensures Within(c, WindowFor(shift))
    ensures forall r :: r in c ==> r in table && Admitted(r, selection, campus)
    ensures exists t :: && |t| == |Options(table, selection, campus)|
                        && (forall i :: 0 <= i < |t| ==> t[i] in Options(table, selection, campus)[i])
                        && ClashFree(t) && c == Combine(t)
  {
    var options := Options(table, selection, campus);
    var filtered := SelectRows(table, selection, campus);
    assert c in ClashFreeCombinations(options);
    GeneratorExact(options, c);
    var t: seq<Section> :| |t| == |options| && (forall i :: 0 <= i < |t| ==> t[i] in options[i])
             && ClashFree(t) && c == Combine(t);
    forall r | r in c ensures r in table && Admitted(r, selection, campus) {
      var i :| 0 <= i < |t| && r in t[i].meetings;
      OptionsComeFromFilteredRows(filtered, selection, i, t[i], r);
    }
  }

  /** Nothing is lost: every choice of one section per course that has no
      clash and fits the window is generated. */
  lemma GeneratedComplete(table: seq<Row>, selection: seq<string>, shift: Shift, campus: Campus, t: seq<Section>)
    requires Generate(table, selection, shift, campus).Generated?
    requires |t| == |Options(table, selection, campus)|
    requires forall i :: 0 <= i < |t| ==> t[i] in Options(table, selection, campus)[i]
    requires ClashFree(t) && Within(Combine(t), WindowFor(shift))
    ensures Combine(t) in Generate(table, selection, shift, campus).schedules
  {
    GeneratorExact(Options(table, selection, campus), Combine(t));
  }

  /** What a "generate" press reports. */
  datatype Outcome =
    | AskForSelection   // "select at least one course"
    | Raised            // the handler raises before touching the session
    | NoCombinations    // "no combinations found"
    | Shown(view: View) // the first combination is displayed
}
