/** The combination generator: the Cartesian product of the per-course
    section lists, keeping the tuples in which no two sections conflict. */
module Combinations {
  import opened Meetings

  /** Each choice, in order, followed by each tail, in order. */
  function Spread<T>(choices: seq<T>, tails: seq<seq<T>>): (tuples: seq<seq<T>>)
    ensures |tuples| == |choices| * |tails|
  {
    if choices == [] then []
    else seq(|tails|, i requires 0 <= i < |tails| => [choices[0]] + tails[i]) + Spread(choices[1..], tails)
  }

  /** `itertools.product(*factors)`: one element per factor, the first
      factor varying slowest. The product of no factors is the single
      empty tuple. */
  function Product<T>(factors: seq<seq<T>>): seq<seq<T>>
  {
    if factors == [] then [[]] else Spread(factors[0], Product(factors[1..]))
  }

  lemma {:induction false} SpreadMembership<T>(choices: seq<T>, tails: seq<seq<T>>, t: seq<T>)
    ensures t in Spread(choices, tails) <==> |t| > 0 && t[0] in choices && t[1..] in tails
  {
    if choices != [] {
      var head := seq(|tails|, i requires 0 <= i < |tails| => [choices[0]] + tails[i]);
      SpreadMembership(choices[1..], tails, t);
      assert Spread(choices, tails) == head + Spread(choices[1..], tails);
      if t in head {
        var i :| 0 <= i < |head| && head[i] == t;
        assert t[1..] == tails[i];
      }
      if |t| > 0 && t[0] == choices[0] && t[1..] in tails {
        var i :| 0 <= i < |tails| && tails[i] == t[1..];
        assert head[i] == [t[0]] + t[1..] == t;
      }
      assert choices == [choices[0]] + choices[1..];
    }
  }

  /** The product holds exactly the tuples that pick one element from each
      factor. */
  lemma {:induction false} ProductMembership<T>(factors: seq<seq<T>>, t: seq<T>)
    ensures t in Product(factors) <==>
              |t| == |factors| && forall i :: 0 <= i < |t| ==> t[i] in factors[i]
  {
    if factors != [] {
      SpreadMembership(factors[0], Product(factors[1..]), t);
      if |t| > 0 {
        ProductMembership(factors[1..], t[1..]);
        assert forall i :: 0 < i < |t| ==> t[1..][i - 1] == t[i];
      }
    }
  }

  /** The number of tuples: the product of the factor sizes. */
  function TupleCount<T>(factors: seq<seq<T>>): nat
  {
    if factors == [] then 1 else |factors[0]| * TupleCount(factors[1..])
  }

  lemma {:induction false} ProductSize<T>(factors: seq<seq<T>>)
    ensures |Product(factors)| == TupleCount(factors)
  {
    if factors != [] {
      ProductSize(factors[1..]);
    }
  }

  /** The generator's test: no section conflicts with a later one. */
  predicate ClashFree(t: seq<Section>)
  {
    forall i, j :: 0 <= i < j < |t| ==> !Conflict(t[i], t[j])
  }

  /** Since the conflict test is symmetric, checking only the pairs i < j
      leaves no clash between meetings of any two chosen sections. */
  lemma ClashFreeMeetings(t: seq<Section>, i: int, j: int, x: Row, y: Row)
    requires ClashFree(t)
    requires 0 <= i < |t| && 0 <= j < |t| && i != j
    requires x in t[i].meetings && y in t[j].meetings
    ensures !Clash(x, y)
  {
    if i < j {
      assert !Conflict(t[i], t[j]);
    } else {
      assert !Conflict(t[j], t[i]);
      ClashSymmetric(x, y);
    }
  }

  /** `pd.concat(combinacion)`: the meetings of the chosen sections, one
      section after another. */
  function Combine(t: seq<Section>): (rows: seq<Row>)
    ensures forall r :: r in rows <==> exists i :: 0 <= i < |t| && r in t[i].meetings
  {
    if t == [] then []
    else
      var rest := Combine(t[1..]);
      assert forall i :: 0 < i < |t| ==> t[1..][i - 1] == t[i];
      t[0].meetings + rest
  }

  /** The combined tuples of `ts` that are clash-free, in the order of `ts`. */
  function KeepClashFree(ts: seq<seq<Section>>): (combos: seq<seq<Row>>)
    ensures |combos| <= |ts|
    ensures forall c :: c in combos <==> exists t :: t in ts && ClashFree(t) && c == Combine(t)
  {
    if ts == [] then []
    else
      var previous := KeepClashFree(ts[..|ts| - 1]);
      var t := ts[|ts| - 1];
      assert ts == ts[..|ts| - 1] + [t];
      previous + (if ClashFree(t) then [Combine(t)] else [])
  }

  /** `combinaciones_validas`: the clash-free product tuples, combined, in
      product order. */
  function ClashFreeCombinations(factors: seq<seq<Section>>): seq<seq<Row>>
  {
    KeepClashFree(Product(factors))
  }

  /** Soundness and completeness of the generator: a combination is
      produced exactly when it combines one section per factor with no
      conflicting pair, and there are never more combinations than
      product tuples. */
  lemma GeneratorExact(factors: seq<seq<Section>>, c: seq<Row>)
    ensures c in ClashFreeCombinations(factors) <==>
              exists t :: |t| == |factors| && (forall i :: 0 <= i < |t| ==> t[i] in factors[i])
                          && ClashFree(t) && c == Combine(t)
    ensures |ClashFreeCombinations(factors)| <= TupleCount(factors)
  {
    ProductSize(factors);
    if c in ClashFreeCombinations(factors) {
      var t :| t in Product(factors) && ClashFree(t) && c == Combine(t);
      ProductMembership(factors, t);
    }
    if exists t :: |t| == |factors| && (forall i :: 0 <= i < |t| ==> t[i] in factors[i])
                   && ClashFree(t) && c == Combine(t) {
      var t :| |t| == |factors| && (forall i :: 0 <= i < |t| ==> t[i] in factors[i])
               && ClashFree(t) && c == Combine(t);
      ProductMembership(factors, t);
    }
  }

  /** A single section is never rejected, whatever its own meetings do:
      meetings of one section are not compared with each other. */
  lemma SectionAloneIsClashFree(s: Section)
    ensures ClashFree([s])
  {
  }
}
