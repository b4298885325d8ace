/** The web front end: its early-exit generator, its window loop, its
    "generate" handler and its navigation buttons, over a session that
    plays the part of `global_state`. */
module App {
  import opened Optional
  import opened Meetings
  import opened Candidates
  import opened Combinations
  import opened Window
  import opened Display
  import opened Browser
  import opened Engine

  /** The pair scan of one product tuple: sections i < j are compared
      meeting by meeting, and the scan stops at the first clash. */
  method HasOverlap(t: seq<Section>) returns (overlap: bool)
    ensures overlap <==> !ClashFree(t)
  {
    overlap := false;
    var i := 0;
    while i < |t|
      invariant 0 <= i <= |t|
      invariant !overlap
      invariant forall a, b :: 0 <= a < i && a < b < |t| ==> !Conflict(t[a], t[b])
    {
      var j := i + 1;
      while j < |t|
        invariant i + 1 <= j <= |t|
        invariant !overlap
        invariant forall b :: i < b < j ==> !Conflict(t[i], t[b])
      {
        if Conflict(t[i], t[j]) {
          overlap := true;
          break;
        }
        j := j + 1;
      }
      if overlap {
        break;
      }
      i := i + 1;
    }
  }

  /** `combinaciones_validas` of the web app: every product tuple in
      order, kept when the pair scan finds no clash. */
  method ValidCombinations(options: seq<seq<Section>>) returns (combos: seq<seq<Row>>)
    requires options != []
    ensures combos == ClashFreeCombinations(options)
  {
    var tuples := Product(options);
    combos := [];
    for k := 0 to |tuples|
      invariant combos == KeepClashFree(tuples[..k])
    {
      var overlap := HasOverlap(tuples[k]);
      if !overlap {
        combos := combos + [Combine(tuples[k])];
      }
      assert tuples[..k + 1][..k] == tuples[..k];
    }
    assert tuples[..|tuples|] == tuples;
  }

  /** The loop that keeps the combinations whose starts and finishes all
      lie in the window. */
  method KeepWithinWindow(combos: seq<seq<Row>>, w: Bounds) returns (kept: seq<seq<Row>>)
    ensures kept == KeepWithin(combos, w)
  {
    kept := [];
    for k := 0 to |combos|
      invariant kept == KeepWithin(combos[..k], w)
    {
      if forall r | r in combos[k] :: InBounds(w, StartMinute(r)) && InBounds(w, FinishMinute(r)) {
        kept := kept + [combos[k]];
      }
      assert combos[..k + 1][..k] == combos[..k];
    }
    assert combos[..|combos|] == combos;
  }

  /** `generar_combinaciones`. Generating before any file was loaded
      fails on the missing table, a named campus fails on a numeric room
      column, and an unset shift radio fails when its label is searched
      for `Mañana`. There is no guard on the selection,
      so an empty one, like one whose courses all lose their rows, raises
      in the generator. An empty result leaves the session as it was; a
      non-empty one replaces the list and shows its first entry. */
  method GenerateCombinations(s: Session, table: Option<seq<Row>>, column: RoomColumn, selection: seq<string>,
                              shift: Option<Shift>, campus: Campus)
    returns (outcome: Outcome)
    requires s.Valid()
    modifies s
    ensures s.Valid()
    ensures table.None? || shift.None? || CampusFilterRaises(campus, column) ==> outcome == Raised && unchanged(s)
    ensures table.Some? && shift.Some? && !CampusFilterRaises(campus, column) ==>
              var g := Generate(table.value, selection, shift.value, campus);
              && (g.NothingToCombine? ==> outcome == Raised && unchanged(s))
              && (g.Generated? && g.schedules == [] ==> outcome == NoCombinations && unchanged(s))
              && (g.Generated? && g.schedules != [] ==>
                    s.combinations == g.schedules && s.index == 0 && outcome == Shown(s.Current()))
  {
    if table.None? {
      return Raised;
    }
    if CampusFilterRaises(campus, column) {
      // `.str` on a numeric `Salon` column
      return Raised;
    }
    var filtered := SelectRows(table.value, selection, campus);
    if shift.None? {
      return Raised;
    }
    var window := WindowFor(shift.value);
    var options := CollectOptions(filtered, selection);
    if options == [] {
      return Raised;
    }
    var combos := ValidCombinations(options);
    var found := KeepWithinWindow(combos, window);
    if found == [] {
      return NoCombinations;
    }
    s.Reset(found);
    outcome := Shown(s.Current());
  }

  /** `siguiente`: step forward when there is a list, then redisplay. */
  method NextPressed(s: Session) returns (v: View)
    requires s.Valid()
    modifies s`index
    ensures s.Valid()
    ensures s.index == if s.combinations == [] then old(s.index) else NextIndex(old(s.index), |s.combinations|)
    ensures v == s.Current()
  {
    s.Next();
    v := s.Current();
  }

  /** `anterior`: step back when there is a list, then redisplay. */
  method PreviousPressed(s: Session) returns (v: View)
    requires s.Valid()
    modifies s`index
    ensures s.Valid()
    ensures s.index == if s.combinations == [] then old(s.index) else PreviousIndex(old(s.index), |s.combinations|)
    ensures v == s.Current()
  {
    s.Previous();
    v := s.Current();
  }
}
