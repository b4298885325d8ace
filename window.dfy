/** The daytime-window post-filter applied to generated combinations. */
module Window {
  import opened Meetings

  /** The shift radio button: a label mentioning `Mañana` is the morning,
      one mentioning `Noche` the evening, anything else mixed. */
  datatype Shift = Morning | Evening | Mixed

  /** An inclusive range of minutes since midnight. */
  datatype Bounds = Bounds(low: int, high: int)

  /** The limits the handlers choose for each shift. */
  function WindowFor(shift: Shift): (w: Bounds)
    ensures 6 * 60 <= w.low < w.high <= 22 * 60
    ensures shift == Morning ==> w == Bounds(6 * 60, 14 * 60)
    ensures shift == Evening ==> w == Bounds(18 * 60, 22 * 60)
    ensures shift == Mixed ==> w == Bounds(6 * 60, 22 * 60)
  {
    match shift
    case Morning => Bounds(360, 840)
    case Evening => Bounds(1080, 1320)
    case Mixed => Bounds(360, 1320)
  }

  predicate InBounds(w: Bounds, minute: int)
  {
    w.low <= minute <= w.high
  }

  /** Every start and every finish of the combination lies in the window. */
  predicate Within(combo: seq<Row>, w: Bounds)
  {
    forall r :: r in combo ==> InBounds(w, StartMinute(r)) && InBounds(w, FinishMinute(r))
  }

  /** The combinations that lie within the window, in their original order. */
  function KeepWithin(combos: seq<seq<Row>>, w: Bounds): (kept: seq<seq<Row>>)
    ensures |kept| <= |combos|
    ensures forall c :: c in kept <==> c in combos && Within(c, w)
  {
    if combos == [] then []
    else
      var last := combos[|combos| - 1];
      assert combos == combos[..|combos| - 1] + [last];
      KeepWithin(combos[..|combos| - 1], w) + (if Within(last, w) then [last] else [])
  }

  /** A list whose combinations all fit the window passes unchanged. */
  lemma {:induction false} KeepWithinAllFit(combos: seq<seq<Row>>, w: Bounds)
    requires forall c :: c in combos ==> Within(c, w)
    ensures KeepWithin(combos, w) == combos
  {
    if combos != [] {
      var prefix := combos[..|combos| - 1];
      var last := combos[|combos| - 1];
      assert combos == prefix + [last];
      forall c | c in prefix ensures Within(c, w) {
        assert c in combos;
      }
      KeepWithinAllFit(prefix, w);
      assert last in combos && Within(last, w);
      assert KeepWithin(combos, w) == KeepWithin(prefix, w) + [last];
    }
  }

  /** Filtering twice by the same window changes nothing. */
  lemma KeepWithinIdempotent(combos: seq<seq<Row>>, w: Bounds)
    ensures KeepWithin(KeepWithin(combos, w), w) == KeepWithin(combos, w)
  {
    KeepWithinAllFit(KeepWithin(combos, w), w);
  }

  /** The morning and evening windows lie inside the mixed one, so a
      combination kept for either is kept for the mixed shift too. */
  lemma ShiftWindowsNest(combo: seq<Row>, shift: Shift)
    requires Within(combo, WindowFor(shift))
    ensures Within(combo, WindowFor(Mixed))
  {
  }

  /** No combination with a meeting fits both the morning and the evening
      windows. */
  lemma MorningAndEveningDisjoint(combo: seq<Row>)
    requires combo != []
    ensures !(Within(combo, WindowFor(Morning)) && Within(combo, WindowFor(Evening)))
  {
    assert combo[0] in combo;
  }
}
