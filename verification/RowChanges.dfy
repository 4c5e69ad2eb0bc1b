/**
 Single changes of a list, the change sets that describe them, and whole runs:
 whatever sequence of changes is recorded, the record describes the difference
 between the first and the last version of the list.
 */
module RowChanges {
  import opened Selections
  import opened IndexSets
  import opened ChangeSets

  // ----- shifting by nothing, by one position, by a run of positions -----

  lemma {:induction false} CountNone(end: nat)
    ensures Count({}, end) == 0
  {
    if end > 0 {
      CountNone(end - 1);
    }
  }

  lemma {:induction false} ByNothing(indices: set<nat>)
    ensures Erased(indices, {}) == indices && Shifted(indices, {}) == indices && Inserted(indices, {}) == indices
    ensures Erased({}, indices) == {} && Shifted({}, indices) == {}
  {
    forall x
      ensures Unshift({}, x) == x && Shift({}, x) == x
    {
      CountNone(x);
      CountNone(Shift({}, x));
    }
    assert forall x :: x in indices ==> Unshift({}, x) == x && Shift({}, x) == x;
    forall x
      ensures x in Erased(indices, {}) <==> x in indices
      ensures x in Shifted(indices, {}) <==> x in indices
    {
      InErased(indices, {}, x);
      InShifted(indices, {}, x);
    }
  }

  lemma {:induction false} ForwardByNothing(x: nat)
    ensures Unshift({}, x) == x && Shift({}, x) == x
  {
    CountNone(x);
    CountNone(Shift({}, x));
  }

  lemma {:induction false} CountRun(lo: nat, hi: nat, end: nat)
    requires lo <= hi
    ensures Count(Interval(lo, hi), end) == if end <= lo then 0 else if end <= hi then end - lo else hi - lo
  {
    if end > 0 {
      CountRun(lo, hi, end - 1);
    }
  }

  lemma {:induction false} UnshiftRun(lo: nat, hi: nat, x: nat)
    requires lo <= hi
    ensures x !in Interval(lo, hi) ==> Unshift(Interval(lo, hi), x) == if x < lo then x else x - (hi - lo)
    ensures hi <= x || x <= lo ==> Unshift(Interval(lo, hi), x) == if x <= lo then x else x - (hi - lo)
  {
    CountRun(lo, hi, x);
  }

  lemma {:induction false} ShiftRun(lo: nat, hi: nat, x: nat)
    requires lo <= hi
    ensures Shift(Interval(lo, hi), x) == if x < lo then x else x + (hi - lo)
  {
    var y := if x < lo then x else x + (hi - lo);
    UnshiftRun(lo, hi, y);
    ShiftUnshift(Interval(lo, hi), y);
  }

  lemma OneIsRun(p: nat)
    ensures {p} == Interval(p, p + 1)
  {
  }

  // ----- single changes -----

  datatype RowChange =
    | Insert(index: nat, rows: seq<Row>)
    | Erase(index: nat)
    | Relocate(from: nat, to: nat)
    | Modify(index: nat, contents: int)
    | Clear

  predicate Applicable(change: RowChange, rows: seq<Row>) {
    match change
    case Insert(index, new_) => index <= |rows|
    case Erase(index) => index < |rows|
    case Relocate(from, to) => from < |rows| && to < |rows| && from != to
    case Modify(index, _) => index < |rows|
    case Clear => true
  }

  function Apply(change: RowChange, rows: seq<Row>): seq<Row>
    requires Applicable(change, rows)
  {
    match change
    case Insert(index, new_) => rows[..index] + new_ + rows[index..]
    case Erase(index) => rows[..index] + rows[index + 1..]
    case Relocate(from, to) =>
      var rest := rows[..from] + rows[from + 1..];
      rest[..to] + [rows[from]] + rest[to..]
    case Modify(index, contents) => rows[index := Row(rows[index].key, contents)]
    case Clear => []
  }

  /** The change set of a single change to a list of `size` rows. */
  function Single(change: RowChange, size: nat): ChangeSet {
    match change
    case Insert(index, new_) => ChangeSet({}, Interval(index, index + |new_|), {}, {})
    case Erase(index) => ChangeSet({index}, {}, {}, {})
    case Relocate(from, to) => ChangeSet({from}, {to}, {}, {Move(from, to)})
    case Modify(index, _) => ChangeSet({}, {}, {index}, {})
    case Clear => ChangeSet(Interval(0, size), {}, {}, {})
  }

  lemma {:induction false} SingleDescribes(change: RowChange, rows: seq<Row>)
    requires Applicable(change, rows)
    ensures Describes(Single(change, |rows|), rows, Apply(change, rows))
  {
    var c, after := Single(change, |rows|), Apply(change, rows);
    SingleFits(change, rows);
    forall i, j | 0 <= i < |rows| && 0 <= j < |after| && c.Keeps(i, j)
      ensures Matches(rows[i], after[j], j in c.modifications)
    {
      SingleKeeps(change, rows, after, i, j);
    }
  }

  /** For instance, a row put into an empty collection. */
  lemma {:induction false} OneRowDescribes(row: Row)
    ensures Describes(ChangeSet({}, {0}, {}, {}), [], [row])
  {
    var change := Insert(0, [row]);
    SingleDescribes(change, []);
    assert Apply(change, []) == [row];
    assert Interval(0, 1) == {0};
  }

  lemma {:induction false} SingleFits(change: RowChange, rows: seq<Row>)
    requires Applicable(change, rows)
    ensures Fits(Single(change, |rows|), |rows|, |Apply(change, rows)|)
  {
    var n, m := |rows|, |Apply(change, rows)|;
    ForwardByNothing(n);
    ForwardByNothing(m);
    match change
    case Insert(index, new_) => UnshiftRun(index, index + |new_|, m);
    case Erase(index) => OneIsRun(index); UnshiftRun(index, index + 1, n);
    case Relocate(from, to) =>
      OneIsRun(from);
      OneIsRun(to);
      UnshiftRun(from, from + 1, n);
      UnshiftRun(to, to + 1, m);
    case Modify(_, _) =>
    case Clear => CountRun(0, n, n);
  }

  lemma {:induction false} SingleKeeps(change: RowChange, rows: seq<Row>, after: seq<Row>, i: nat, j: nat)
    requires Applicable(change, rows) && after == Apply(change, rows) && i < |rows| && j < |after|
    requires Single(change, |rows|).Keeps(i, j)
    ensures Matches(rows[i], after[j], j in Single(change, |rows|).modifications)
  {
    ForwardByNothing(i);
    ForwardByNothing(j);
    match change
    case Insert(index, new_) => UnshiftRun(index, index + |new_|, j);
    case Erase(index) => OneIsRun(index); UnshiftRun(index, index + 1, i);
    case Relocate(from, to) =>
      OneIsRun(from);
      OneIsRun(to);
      UnshiftRun(from, from + 1, i);
      UnshiftRun(to, to + 1, j);
      RelocatedAt(rows, from, to, i, j);
    case Modify(_, _) =>
    case Clear =>
  }

  lemma {:induction false} RelocatedAt(rows: seq<Row>, from: nat, to: nat, i: nat, j: nat)
    requires from < |rows| && to < |rows| && from != to && i < |rows| && j < |rows| && i != from && j != to
    requires (if i < from then i else i - 1) == (if j < to then j else j - 1)
    ensures |Apply(Relocate(from, to), rows)| == |rows| && Apply(Relocate(from, to), rows)[j] == rows[i]
  {
    var rest := rows[..from] + rows[from + 1..];
    var rank := if i < from then i else i - 1;
    assert rest[rank] == rows[i];
  }

  // ----- recording -----

  /** What the builder holds after recording one more change. */
  function Recorded(c: ChangeSet, change: RowChange, size: nat): ChangeSet {
    var combined := Combine(c, Single(change, size));
    if change.Relocate? && change.from in c.modifications
    then combined.(modifications := combined.modifications + {change.to})
    else combined
  }

  /** Recording a move carries the mark of a modified row along, and marks no other row. */
  lemma {:induction false} MoveCarriesMark(c: ChangeSet, from: nat, to: nat, size: nat, k: nat)
    ensures var d := Single(Relocate(from, to), size);
      k in Recorded(c, Relocate(from, to), size).modifications <==>
        (k == to && from in c.modifications) || (exists j :: d.Keeps(j, k) && j in c.modifications)
  {
    CombinedModifiedIff(c, Single(Relocate(from, to), size), k);
  }

  /** Reporting more rows as modified is still a true account. */
  lemma MoreModified(c: ChangeSet, extra: set<nat>, a: seq<Row>, b: seq<Row>)
    requires Describes(c, a, b) && forall j :: j in extra ==> j < |b|
    ensures Describes(c.(modifications := c.modifications + extra), a, b)
  {
  }

  const NOTHING := ChangeSet({}, {}, {}, {})

  lemma {:induction false} NothingDescribes(rows: seq<Row>)
    ensures Describes(NOTHING, rows, rows)
  {
    forall i
      ensures Unshift({}, i) == i
    {
      ForwardByNothing(i);
    }
  }

  /** A sequence of changes, each applicable where it comes. */
  predicate AllApplicable(changes: seq<RowChange>, rows: seq<Row>)
    decreases |changes|
  {
    changes != [] ==>
      Applicable(changes[0], rows) && AllApplicable(changes[1..], Apply(changes[0], rows))
  }

  function ApplyAll(changes: seq<RowChange>, rows: seq<Row>): seq<Row>
    requires AllApplicable(changes, rows)
    decreases |changes|
  {
    if changes == [] then rows else ApplyAll(changes[1..], Apply(changes[0], rows))
  }

  function RecordAll(c: ChangeSet, changes: seq<RowChange>, rows: seq<Row>): ChangeSet
    requires AllApplicable(changes, rows)
    decreases |changes|
  {
    if changes == [] then c
    else RecordAll(Recorded(c, changes[0], |rows|), changes[1..], Apply(changes[0], rows))
  }

  /** Every run: the record of any sequence of changes describes their joint effect. */
  lemma {:induction false} RunDescribes(c: ChangeSet, changes: seq<RowChange>, first: seq<Row>, rows: seq<Row>)
    requires Describes(c, first, rows) && AllApplicable(changes, rows)
    ensures Describes(RecordAll(c, changes, rows), first, ApplyAll(changes, rows))
    decreases |changes|
  {
    if changes != [] {
      RecordDescribes(c, changes[0], first, rows);
      RunDescribes(Recorded(c, changes[0], |rows|), changes[1..], first, Apply(changes[0], rows));
    }
  }

  lemma {:induction false} RecordDescribes(c: ChangeSet, change: RowChange, first: seq<Row>, rows: seq<Row>)
    requires Describes(c, first, rows) && Applicable(change, rows)
    ensures Describes(Recorded(c, change, |rows|), first, Apply(change, rows))
  {
    SingleDescribes(change, rows);
    var combined := Combine(c, Single(change, |rows|));
    CombineDescribes(c, Single(change, |rows|), first, rows, Apply(change, rows));
    if change.Relocate? {
      MoreModified(combined, {change.to}, first, Apply(change, rows));
    }
  }

  /** From scratch: the rows that the record neither deletes nor inserts are the common part of both versions. */
  lemma {:induction false} FreshRunDescribes(changes: seq<RowChange>, rows: seq<Row>)
    requires AllApplicable(changes, rows)
    ensures Describes(RecordAll(NOTHING, changes, rows), rows, ApplyAll(changes, rows))
  {
    NothingDescribes(rows);
    RunDescribes(NOTHING, changes, rows, rows);
  }
}
