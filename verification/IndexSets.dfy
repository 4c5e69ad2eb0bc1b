/**
 `realm::IndexSet`: the index arithmetic of change sets,
 Realm/ObjectStore/src/index_set.cpp.

 A set of indices both removes positions (`Unshift`: where a surviving position
 ends up once the set's positions are gone) and inserts them (`Shift`: where a
 position ends up once the set's positions are put in).
 */
module IndexSets {

  /** `count(0, end)`: how many indices lie below `end`. */
  function Count(indices: set<nat>, end: nat): (count: nat)
    ensures count <= end
  {
    if end == 0 then 0
    else Count(indices, end - 1) + if (end - 1) in indices then 1 else 0
  }

  /** `unshift`: the position of `index` after deleting each of the indices. */
  function Unshift(indices: set<nat>, index: nat): nat {
    index - Count(indices, index)
  }

  /** `shift`: the position of `index` after inserting each of the indices. */
  function Shift(indices: set<nat>, index: nat): (shifted: nat)
    ensures shifted !in indices && Unshift(indices, shifted) == index
  {
    ShiftFrom(indices, index, 0)
  }

  function ShiftFrom(indices: set<nat>, index: nat, from: nat): (shifted: nat)
    requires Unshift(indices, from) <= index
    ensures shifted !in indices && Unshift(indices, shifted) == index
    decreases index + |indices| + 1 - from
  {
    CountBounded(indices, from);
    CountBounded(indices, from + 1);
    if from !in indices && Unshift(indices, from) == index then from else ShiftFrom(indices, index, from + 1)
  }

  lemma {:induction false} CountBounded(indices: set<nat>, end: nat)
    ensures Count(indices, end) <= |indices|
    decreases end
  {
    if end > 0 {
      if (end - 1) in indices {
        CountWithout(indices, end - 1);
        CountBounded(indices - {end - 1}, end - 1);
      } else {
        CountBounded(indices, end - 1);
      }
    }
  }

  lemma {:induction false} CountWithout(indices: set<nat>, end: nat)
    ensures Count(indices, end) == Count(indices - {end}, end)
  {
    CountSame(indices, indices - {end}, end);
  }

  lemma {:induction false} CountSame(s: set<nat>, t: set<nat>, end: nat)
    requires forall i :: 0 <= i < end ==> (i in s <==> i in t)
    ensures Count(s, end) == Count(t, end)
  {
    if end > 0 {
      CountSame(s, t, end - 1);
    }
  }

  /** `Unshift` is monotone, strictly so from a surviving position. */
  lemma {:induction false} UnshiftMonotone(indices: set<nat>, i: nat, j: nat)
    requires i <= j
    ensures Unshift(indices, i) <= Unshift(indices, j)
    ensures i < j && i !in indices ==> Unshift(indices, i) < Unshift(indices, j)
    decreases j
  {
    if i < j {
      UnshiftMonotone(indices, i, j - 1);
    }
  }

  /** Surviving positions are told apart, and ordered, by where they end up. */
  lemma {:induction false} UnshiftInjective(indices: set<nat>, i: nat, j: nat)
    requires i !in indices && j !in indices
    ensures Unshift(indices, i) == Unshift(indices, j) <==> i == j
    ensures Unshift(indices, i) < Unshift(indices, j) <==> i < j
  {
    if i < j {
      UnshiftMonotone(indices, i, j);
    } else if j < i {
      UnshiftMonotone(indices, j, i);
    }
  }

  /** `Shift` undoes `Unshift` on surviving positions. */
  lemma {:induction false} ShiftUnshift(indices: set<nat>, i: nat)
    requires i !in indices
    ensures Shift(indices, Unshift(indices, i)) == i
  {
    UnshiftInjective(indices, i, Shift(indices, Unshift(indices, i)));
  }

  /** `erase_at(positions)`: indices at deleted positions disappear, the others move up. */
  function Erased(indices: set<nat>, positions: set<nat>): set<nat> {
    set i | i in indices && i !in positions :: Unshift(positions, i)
  }

  /** `shift_for_insert_at(positions)`: indices make room. */
  function Shifted(indices: set<nat>, positions: set<nat>): set<nat> {
    set i | i in indices :: Shift(positions, i)
  }

  /** `insert_at(positions)`: indices make room and the new positions are added. */
  function Inserted(indices: set<nat>, positions: set<nat>): set<nat> {
    positions + Shifted(indices, positions)
  }

  lemma {:induction false} InErased(indices: set<nat>, positions: set<nat>, x: nat)
    ensures x in Erased(indices, positions) <==> Shift(positions, x) in indices
  {
    if x in Erased(indices, positions) {
      var i :| i in indices && i !in positions && x == Unshift(positions, i);
      ShiftUnshift(positions, i);
    }
    if Shift(positions, x) in indices {
      assert x == Unshift(positions, Shift(positions, x));
    }
  }

  lemma {:induction false} InShifted(indices: set<nat>, positions: set<nat>, x: nat)
    ensures x in Shifted(indices, positions) <==> x !in positions && Unshift(positions, x) in indices
  {
    if x !in positions && Unshift(positions, x) in indices {
      ShiftUnshift(positions, x);
    }
  }

  /** Counting a set made of `positions` and of survivors picked by where they end up. */
  lemma {:induction false} CountLayered(positions: set<nat>, ranks: set<nat>, all: set<nat>, end: nat)
    requires forall x {:trigger x in all} :: x in all <==> x in positions || Unshift(positions, x) in ranks
    ensures Count(all, end) == Count(positions, end) + Count(ranks, Unshift(positions, end))
    decreases end
  {
    if end > 0 {
      var x := end - 1;
      CountLayered(positions, ranks, all, x);
      assert x in all <==> x in positions || Unshift(positions, x) in ranks;
      if x !in positions {
        assert Unshift(positions, end) == Unshift(positions, x) + 1;
      }
    }
  }

  /** Removing an inserted set is removing the inserted positions and then the old indices. */
  lemma {:induction false} UnshiftInserted(indices: set<nat>, positions: set<nat>, x: nat)
    ensures Unshift(Inserted(indices, positions), x) == Unshift(indices, Unshift(positions, x))
  {
    forall y
      ensures y in Inserted(indices, positions) <==> y in positions || Unshift(positions, y) in indices
    {
      InShifted(indices, positions, y);
    }
    CountLayered(positions, indices, Inserted(indices, positions), x);
  }

  /** Removing `positions` and then what is left of `indices` is removing both at once. */
  lemma {:induction false} UnshiftErased(indices: set<nat>, positions: set<nat>, x: nat)
    ensures Unshift(Erased(indices, positions), Unshift(positions, x)) == Unshift(indices + positions, x)
  {
    forall y
      ensures y in indices + positions <==> y in positions || Unshift(positions, y) in Erased(indices, positions)
    {
      if y !in positions {
        ShiftUnshift(positions, y);
        InErased(indices, positions, Unshift(positions, y));
      }
    }
    CountLayered(positions, Erased(indices, positions), indices + positions, x);
  }
}
