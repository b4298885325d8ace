/** The result browser: the generated combinations and a cyclic cursor. */
module Browser {
  import opened Meetings
  import opened Display

  /** `(i + 1) % n`: the following position, wrapping to the first. */
  function NextIndex(i: nat, n: nat): (j: nat)
    requires i < n
    ensures j < n
    ensures j == if i == n - 1 then 0 else i + 1
  {
    (i + 1) % n
  }

  /** `(i - 1) % n` with a floored remainder: the preceding position,
      wrapping to the last. */
  function PreviousIndex(i: nat, n: nat): (j: nat)
    requires i < n
    ensures j < n
    ensures j == if i == 0 then n - 1 else i - 1
  {
    (i - 1) % n
  }

  /** Going back undoes going forward, and the other way round. */
  lemma PreviousUndoesNext(i: nat, n: nat)
    requires i < n
    ensures PreviousIndex(NextIndex(i, n), n) == i
    ensures NextIndex(PreviousIndex(i, n), n) == i
  {
  }

  /** The cursor after `k` presses of "next". */
  function NextTimes(i: nat, n: nat, k: nat): (j: nat)
    requires i < n
    ensures j < n
  {
    if k == 0 then i else NextIndex(NextTimes(i, n, k - 1), n)
  }

  /** Up to one full round, `k` presses move the cursor `k` places on,
      wrapping at most once. */
  lemma {:induction false} NextTimesIsShift(i: nat, n: nat, k: nat)
    requires i < n && k <= n
    ensures NextTimes(i, n, k) == if i + k < n then i + k else i + k - n
  {
    if k > 0 {
      NextTimesIsShift(i, n, k - 1);
    }
  }

  /** Pressing "next" as many times as there are combinations comes back
      to where it started. */
  lemma NextCyclesBack(i: nat, n: nat)
    requires i < n
    ensures NextTimes(i, n, n) == i
  {
    NextTimesIsShift(i, n, n);
  }

  /** The browsing session: the result list and the cursor into it. */
  class Session {
    var combinations: seq<seq<Row>>
    var index: nat

    /** The cursor points into the list whenever there is a list. After a
        generation that found nothing the notebook may leave an old cursor
        beside an empty list. */
    ghost predicate Valid()
      reads this
    {
      combinations != [] ==> index < |combinations|
    }

    constructor ()
      ensures Valid() && combinations == [] && index == 0
    {
      combinations := [];
      index := 0;
    }

    /** Move to the next combination, cyclically; nothing happens when
        there are none. */
    method Next()
      requires Valid()
      modifies this`index
      ensures Valid()
      ensures index == if combinations == [] then old(index) else NextIndex(old(index), |combinations|)
    {
      if combinations != [] {
        index := (index + 1) % |combinations|;
      }
    }

    /** Move to the previous combination, cyclically; nothing happens when
        there are none. */
    method Previous()
      requires Valid()
      modifies this`index
      ensures Valid()
      ensures index == if combinations == [] then old(index) else PreviousIndex(old(index), |combinations|)
    {
      if combinations != [] {
        index := (index - 1) % |combinations|;
      }
    }

    /** Replace the result list wholesale and go back to its first entry. */
    method Reset(found: seq<seq<Row>>)
      modifies this
      ensures Valid() && combinations == found && index == 0
    {
      combinations := found;
      index := 0;
    }

    /** The current combination as a table and calendar blocks, or the
        "no combinations generated" state. */
    function Current(): (v: View)
      reads this
      requires Valid()
      ensures v.NothingToShow? <==> combinations == []
      ensures v.Showing? ==>
                && v.position == index + 1 && v.total == |combinations|
                && v.table == TableOf(combinations[index])
                && v.blocks == Blocks(combinations[index])
    {
      if combinations == [] then NothingToShow
      else
        var combo := combinations[index];
        Showing(index + 1, |combinations|, TableOf(combo), Blocks(combo))
    }
  }
}
