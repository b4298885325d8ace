/** The notebook front end: its generator, its "generate" handler and its
    navigation buttons, over a session that plays the part of the globals
    `combinaciones_filtradas` and `indice_actual`. */
module Notebook {
  import opened Optional
  import opened Clock
  import opened Meetings
  import opened Candidates
  import opened Combinations
  import opened Window
  import opened Display
  import opened Browser
  import opened Engine

  /** What the notebook's generator does: raise, or return its list. */
  datatype Attempt = Raises | Returns(combos: seq<seq<Row>>)

  /** The notebook's generator as written. Its pair test hands two whole
      section frames to the clash test, and comparing their weekday
      columns raises in pandas (the columns carry different row labels,
      and a column has no single truth value). So the first tuple that
      holds two sections raises. With one course no pair is tested and
      every section is listed on its own; with no course at all the
      empty concatenation raises. */
  function FrameCombinations(options: seq<seq<Section>>): (r: Attempt)
    ensures |options| == 1 ==>
              r.Returns? && forall c :: c in r.combos <==> exists g :: g in options[0] && c == g.meetings
    ensures (forall f :: f in options ==> f != []) ==> (r.Returns? <==> |options| == 1)
  {
    ProductNotEmpty(options);
    if |options| == 1 then
      SingleCourseCombinations(options);
      Returns(ClashFreeCombinations(options))
    else if options == [] || Product(options) != [] then Raises
    else Returns(ClashFreeCombinations(options))
  }

  /** With every factor non-empty, the product has a tuple. */
  lemma ProductNotEmpty(options: seq<seq<Section>>)
    ensures (forall f :: f in options ==> f != []) ==> Product(options) != []
  {
    if forall f :: f in options ==> f != [] {
      assert forall i :: 0 <= i < |options| ==> options[i] in options;
      var t := seq(|options|, i requires 0 <= i < |options| => options[i][0]);
      ProductMembership(options, t);
    }
  }

  /** A single chosen section never meets a pair test, so for one course
      the clash-free combinations are its sections, one by one. */
  lemma SingleCourseCombinations(options: seq<seq<Section>>)
    requires |options| == 1
    ensures forall c :: c in ClashFreeCombinations(options) <==> exists g :: g in options[0] && c == g.meetings
  {
    forall c ensures c in ClashFreeCombinations(options) <==> exists g :: g in options[0] && c == g.meetings {
      GeneratorExact(options, c);
      if c in ClashFreeCombinations(options) {
        var t: seq<Section> :| |t| == |options| && (forall i :: 0 <= i < |t| ==> t[i] in options[i])
                 && ClashFree(t) && c == Combine(t);
        assert t == [t[0]] && Combine([t[0]]) == t[0].meetings;
      }
      if exists g :: g in options[0] && c == g.meetings {
        var g :| g in options[0] && c == g.meetings;
        assert Combine([g]) == g.meetings;
        assert ClashFree([g]);
      }
    }
  }

  /** The defect on a small input: two courses with one section each, on
      different weekdays, cannot clash, yet the notebook raises on them. */
  lemma TwoCoursesRaise()
    ensures var a := Row("A", 1, Monday, TimeOfDay(9, 0), TimeOfDay(10, 0), None, "", 0, 10);
            var b := Row("B", 1, Tuesday, TimeOfDay(9, 0), TimeOfDay(10, 0), None, "", 0, 10);
            var options := [[Section(1, [a])], [Section(1, [b])]];
            FrameCombinations(options) == Raises && [a, b] in ClashFreeCombinations(options)
  {
    var a := Row("A", 1, Monday, TimeOfDay(9, 0), TimeOfDay(10, 0), None, "", 0, 10);
    var b := Row("B", 1, Tuesday, TimeOfDay(9, 0), TimeOfDay(10, 0), None, "", 0, 10);
    var options := [[Section(1, [a])], [Section(1, [b])]];
    var t := [Section(1, [a]), Section(1, [b])];
    ProductMembership(options, t);
    assert !Conflict(t[0], t[1]) by {
      ClashNeedsSameDay(a, b);
    }
    assert Combine(t) == [a, b] by {
      assert t[1..] == [Section(1, [b])];
      assert Combine(t[1..]) == [b];
    }
    GeneratorExact(options, [a, b]);
  }

  /** `combinaciones_validas` of the notebook, as written: the loop over
      the product stops with an exception at the first tuple whose pair
      test runs, or at the concatenation of an empty tuple. */
  method ValidCombinations(options: seq<seq<Section>>) returns (r: Attempt)
    ensures r == FrameCombinations(options)
  {
    var tuples := Product(options);
    var combos := [];
    for k := 0 to |tuples|
      invariant k > 0 ==> |options| == 1
      invariant combos == KeepClashFree(tuples[..k])
    {
      var t := tuples[k];
      ProductMembership(options, t);
      if |t| >= 2 {
        // clases_se_solan(t[0], t[1]) compares two frames' weekday columns
        return Raises;
      }
      if t == [] {
        // pd.concat of an empty tuple
        return Raises;
      }
      assert ClashFree(t);
      combos := combos + [Combine(t)];
      assert tuples[..k + 1][..k] == tuples[..k];
    }
    assert tuples[..|tuples|] == tuples;
    return Returns(combos);
  }

  /** The generator as evidently intended: the same all-pairs test without
      an early exit, but comparing the two sections meeting by meeting. */
  method ValidCombinationsIntended(options: seq<seq<Section>>) returns (combos: seq<seq<Row>>)
    requires options != []
    ensures combos == ClashFreeCombinations(options)
  {
    var tuples := Product(options);
    combos := [];
    for k := 0 to |tuples|
      invariant combos == KeepClashFree(tuples[..k])
    {
      var t := tuples[k];
      if !exists i, j | 0 <= i < j < |t| :: Conflict(t[i], t[j]) {
        combos := combos + [Combine(t)];
      }
      assert tuples[..k + 1][..k] == tuples[..k];
    }
    assert tuples[..|tuples|] == tuples;
  }

  /** `on_boton_generar_clicked` as written: an empty selection stops at
      once; a named campus on a numeric room column raises, and so does
      the generator unless exactly one selected course kept rows, both
      before the globals are touched; otherwise the result list is
      overwritten with that course's sections that fit the window, and
      only a non-empty list moves the cursor back to the first entry. */
  method GenerateClicked(s: Session, table: seq<Row>, column: RoomColumn, selection: seq<string>, shift: Shift, campus: Campus)
    returns (outcome: Outcome)
    requires s.Valid()
    modifies s
    ensures s.Valid()
    ensures selection == [] ==> outcome == AskForSelection && unchanged(s)
    ensures selection != [] && CampusFilterRaises(campus, column) ==> outcome == Raised && unchanged(s)
    ensures selection != [] && !CampusFilterRaises(campus, column) && |Options(table, selection, campus)| != 1 ==>
              outcome == Raised && unchanged(s)
    ensures selection != [] && !CampusFilterRaises(campus, column) && |Options(table, selection, campus)| == 1 ==>
              && s.combinations == Generate(table, selection, shift, campus).schedules
              && (forall c :: c in s.combinations <==>
                    (exists g :: g in Options(table, selection, campus)[0] && c == g.meetings)
                    && Within(c, WindowFor(shift)))
              && (s.combinations == [] ==> outcome == NoCombinations && s.index == old(s.index))
              && (s.combinations != [] ==> s.index == 0 && outcome == Shown(s.Current()))
  {
    if selection == [] {
      return AskForSelection;
    }
    if CampusFilterRaises(campus, column) {
      // `.str` on a numeric `Salon` column
      return Raised;
    }
    var filtered := SelectRows(table, selection, campus);
    var window := WindowFor(shift);
    var options := CollectOptions(filtered, selection);
    var attempt := ValidCombinations(options);
    if attempt.Raises? {
      return Raised;
    }
    s.combinations := KeepWithin(attempt.combos, window);
    if s.combinations == [] {
      return NoCombinations;
    }
    s.index := 0;
    outcome := Shown(s.Current());
  }

  /** The handler with the intended generator: the result list becomes the
      whole generation, as specified once for both front ends. */
  method GenerateClickedIntended(s: Session, table: seq<Row>, column: RoomColumn, selection: seq<string>, shift: Shift, campus: Campus)
    returns (outcome: Outcome)
    requires s.Valid()
    modifies s
    ensures s.Valid()
    ensures selection == [] ==> outcome == AskForSelection && unchanged(s)
    ensures selection != [] && CampusFilterRaises(campus, column) ==> outcome == Raised && unchanged(s)
    ensures selection != [] && !CampusFilterRaises(campus, column) && Generate(table, selection, shift, campus).NothingToCombine? ==>
              outcome == Raised && unchanged(s)
    ensures selection != [] && !CampusFilterRaises(campus, column) && Generate(table, selection, shift, campus).Generated? ==>
              && s.combinations == Generate(table, selection, shift, campus).schedules
              && (s.combinations == [] ==> outcome == NoCombinations && s.index == old(s.index))
              && (s.combinations != [] ==> s.index == 0 && outcome == Shown(s.Current()))
  {
    if selection == [] {
      return AskForSelection;
    }
    if CampusFilterRaises(campus, column) {
      // `.str` on a numeric `Salon` column
      return Raised;
    }
    var filtered := SelectRows(table, selection, campus);
    var window := WindowFor(shift);
    var options := CollectOptions(filtered, selection);
    if options == [] {
      return Raised;
    }
    var combos := ValidCombinationsIntended(options);
    s.combinations := KeepWithin(combos, window);
    if s.combinations == [] {
      return NoCombinations;
    }
    s.index := 0;
    outcome := Shown(s.Current());
  }

  /** `on_boton_anterior_clicked`: step back and redisplay, only when there
      is something to show. */
  method PreviousClicked(s: Session) returns (shown: Option<View>)
    requires s.Valid()
    modifies s`index
    ensures s.Valid()
    ensures old(s.combinations) == [] ==> shown == None && s.index == old(s.index)
    ensures old(s.combinations) != [] ==>
              s.index == PreviousIndex(old(s.index), |s.combinations|) && shown == Some(s.Current())
  {
    shown := None;
    if s.combinations != [] {
      s.Previous();
      shown := Some(s.Current());
    }
  }

  /** `on_boton_siguiente_clicked`: step forward and redisplay, only when
      there is something to show. */
  method NextClicked(s: Session) returns (shown: Option<View>)
    requires s.Valid()
    modifies s`index
    ensures s.Valid()
    ensures old(s.combinations) == [] ==> shown == None && s.index == old(s.index)
    ensures old(s.combinations) != [] ==>
              s.index == NextIndex(old(s.index), |s.combinations|) && shown == Some(s.Current())
  {
    shown := None;
    if s.combinations != [] {
      s.Next();
      shown := Some(s.Current());
    }
  }
}
