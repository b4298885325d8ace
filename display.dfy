/** What the result browser hands to the presentation layer: the table
    projection of a combination and one calendar block per meeting. */
module Display {
  import opened Clock
  import opened Optional
  import opened Meetings
  import opened Combinations

  datatype Color = Green | Gold | Red

  function Rank(c: Color): nat
  {
    match c
    case Green => 0
    case Gold => 1
    case Red => 2
  }

  /** The occupancy colour bucket: below 50 % green, up to 90 % gold,
      above that red. */
  function ColorFor(pct: real): (c: Color)
    ensures c == Green <==> pct < 50.0
    ensures c == Red <==> 90.0 < pct
  {
    if pct < 50.0 then Green
    else if pct <= 90.0 then Gold
    else Red
  }

  /** A fuller section never gets a calmer colour. */
  lemma ColorMonotone(p: real, q: real)
    requires p <= q
    ensures Rank(ColorFor(p)) <= Rank(ColorFor(q))
  {
  }

  /** `% Ocupación`, computed exactly. */
  function Occupancy(enrolled: int, capacity: int): real
    requires capacity > 0
  {
    (enrolled as real / capacity as real) * 100.0
  }

  /** Multiplying by a positive number keeps the order. */
  lemma ScaleKeepsOrder(a: real, b: real, c: real)
    requires c > 0.0
    ensures a < b <==> a * c < b * c
    ensures a <= b <==> a * c <= b * c
  {
    assert b * c - a * c == (b - a) * c;
  }

  /** Comparing a percentage `e / c * 100` with a threshold `k` is
      comparing `100 e` with `k c`. */
  lemma PercentVersusThreshold(e: real, c: real, k: real)
    requires c > 0.0
    ensures (e / c) * 100.0 < k <==> 100.0 * e < k * c
    ensures k < (e / c) * 100.0 <==> k * c < 100.0 * e
  {
    var q := e / c;
    assert q * c == e;
    assert (q * 100.0) * c == 100.0 * e;
    ScaleKeepsOrder(q * 100.0, k, c);
    ScaleKeepsOrder(k, q * 100.0, c);
  }

  /** The buckets in whole numbers: green while fewer than half the seats
      are taken, red once more than nine tenths are. */
  lemma ColorOfCounts(enrolled: int, capacity: int)
    requires capacity > 0
    ensures ColorFor(Occupancy(enrolled, capacity)) == Green <==> 2 * enrolled < capacity
    ensures ColorFor(Occupancy(enrolled, capacity)) == Red <==> 9 * capacity < 10 * enrolled
  {
    PercentVersusThreshold(enrolled as real, capacity as real, 50.0);
    PercentVersusThreshold(enrolled as real, capacity as real, 90.0);
  }

  /** The colour of a meeting's section. Rows without seats have no exact
      occupancy and get no colour here. */
  function RowColor(r: Row): Option<Color>
  {
    if r.capacity > 0 then Some(ColorFor(Occupancy(r.enrolled, r.capacity))) else None
  }

  /** One calendar rectangle: weekday column, top at the start minute,
      height the duration in minutes. */
  datatype Block = Block(column: nat, top: int, height: int, color: Option<Color>)

  function BlockOf(r: Row): (b: Block)
    ensures b.column < |Week| && Week[b.column] == r.day
    ensures b.top == StartMinute(r) && b.top + b.height == FinishMinute(r)
    ensures b.color == RowColor(r)
  {
    Block(DayIndex(r.day), StartMinute(r), FinishMinute(r) - StartMinute(r), RowColor(r))
  }

  function Blocks(combo: seq<Row>): (blocks: seq<Block>)
    ensures |blocks| == |combo|
    ensures forall i :: 0 <= i < |combo| ==> blocks[i] == BlockOf(combo[i])
  {
    seq(|combo|, i requires 0 <= i < |combo| => BlockOf(combo[i]))
  }

  /** Blocks of meetings that do not clash never overlap on the calendar:
      in one column, one ends at or above the other's top. */
  lemma NonClashingBlocksApart(x: Row, y: Row)
    requires !Clash(x, y) && BlockOf(x).column == BlockOf(y).column
    requires StartMinute(x) < FinishMinute(x) && StartMinute(y) < FinishMinute(y)
    ensures BlockOf(x).top + BlockOf(x).height <= BlockOf(y).top
         || BlockOf(y).top + BlockOf(y).height <= BlockOf(x).top
  {
    DayIndexInjective(x.day, y.day);
  }

  /** In a generated combination, blocks of meetings from two different
      chosen sections never overlap. */
  lemma CombinationBlocksApart(t: seq<Section>, i: int, j: int, x: Row, y: Row)
    requires ClashFree(t)
    requires 0 <= i < |t| && 0 <= j < |t| && i != j
    requires x in t[i].meetings && y in t[j].meetings
    requires StartMinute(x) < FinishMinute(x) && StartMinute(y) < FinishMinute(y)
    requires BlockOf(x).column == BlockOf(y).column
    ensures BlockOf(x).top + BlockOf(x).height <= BlockOf(y).top
         || BlockOf(y).top + BlockOf(y).height <= BlockOf(x).top
  {
    ClashFreeMeetings(t, i, j, x, y);
    NonClashingBlocksApart(x, y);
  }

  /** On the calendar of a generated combination, the blocks of two
      meetings from different chosen sections never overlap. */
  lemma CalendarBlocksApart(t: seq<Section>, i: int, j: int, k: int, l: int)
    requires ClashFree(t)
    requires 0 <= i < |t| && 0 <= j < |t| && i != j
    requires 0 <= k < |Combine(t)| && 0 <= l < |Combine(t)|
    requires Combine(t)[k] in t[i].meetings && Combine(t)[l] in t[j].meetings
    requires StartMinute(Combine(t)[k]) < FinishMinute(Combine(t)[k])
    requires StartMinute(Combine(t)[l]) < FinishMinute(Combine(t)[l])
    requires Blocks(Combine(t))[k].column == Blocks(Combine(t))[l].column
    ensures var bk, bl := Blocks(Combine(t))[k], Blocks(Combine(t))[l];
            bk.top + bk.height <= bl.top || bl.top + bl.height <= bk.top
  {
    CombinationBlocksApart(t, i, j, Combine(t)[k], Combine(t)[l]);
  }

  /** The columns of the displayed table. */
  datatype TableRow = TableRow(course: string, section: int, day: Day, start: TimeOfDay, finish: TimeOfDay, room: Option<string>)

  function TableOf(combo: seq<Row>): (table: seq<TableRow>)
    ensures |table| == |combo|
    ensures forall i :: 0 <= i < |combo| ==>
              table[i] == TableRow(combo[i].course, combo[i].section, combo[i].day, combo[i].start, combo[i].finish, combo[i].room)
  {
    seq(|combo|, i requires 0 <= i < |combo| =>
      TableRow(combo[i].course, combo[i].section, combo[i].day, combo[i].start, combo[i].finish, combo[i].room))
  }

  /** The table and the calendar describe the same meetings, entry by
      entry: the calendar column is the table's weekday, and the block
      spans the table's start and finish times. */
  lemma TableMatchesCalendar(combo: seq<Row>)
    ensures |TableOf(combo)| == |Blocks(combo)|
    ensures forall i :: 0 <= i < |combo| ==>
              && Week[Blocks(combo)[i].column] == TableOf(combo)[i].day
              && Blocks(combo)[i].top == ToMinutes(TableOf(combo)[i].start)
              && Blocks(combo)[i].top + Blocks(combo)[i].height == ToMinutes(TableOf(combo)[i].finish)
  {
  }

  /** What the browser shows: nothing generated yet, or combination
      `position` of `total` with its table and calendar. */
  datatype View =
    | NothingToShow
    | Showing(position: nat, total: nat, table: seq<TableRow>, blocks: seq<Block>)
}
