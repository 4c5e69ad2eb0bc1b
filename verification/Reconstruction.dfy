/**
 What a change set is for: applied to the old version it produces the new one
 (`verify_changeset` in Realm/ObjectStore/src/impl/collection_change_builder.cpp,
 and the batch updates of a table view).
 */
module Reconstruction {
  import opened Selections
  import opened Lists
  import opened IndexSets
  import opened IndexSetOperations
  import opened ChangeSets
  import opened Reports
  import opened StoredChanges

  /** The rows of the old version that are not deleted. */
  function Survivors(c: ChangeSet, before: seq<Row>): seq<Row> {
    Select(before, c.deletions, 0, |before|, false)
  }

  /** A row of the new version that was not inserted is the survivor of its rank. */
  lemma {:induction false} SurvivorAt(c: ChangeSet, a: seq<Row>, b: seq<Row>, j: nat)
    requires Describes(c, a, b) && j < |b| && j !in c.insertions
    ensures Unshift(c.insertions, j) < |Survivors(c, a)|
    ensures Matches(Survivors(c, a)[Unshift(c.insertions, j)], b[j], j in ModifiedNew(c))
  {
    var r := Unshift(c.insertions, j);
    UnshiftMonotone(c.insertions, j, |b|);
    SurvivorsAgree(c, a, b, r);
    ShiftUnshift(c.insertions, j);
    SelectLength(b, c.insertions, 0, |b|, false);
    SelectAt(b, c.insertions, 0, |b|, false, j);
    UnshiftCountsOthers(c.insertions, j);
  }

  /** The first `k` insertions are done: everything up to the last of them is in place, the other survivors follow. */
  ghost predicate Rebuilding(c: ChangeSet, insertions: IndexSet, a: seq<Row>, b: seq<Row>, k: nat, done: nat,
                             rows: seq<Row>) {
    && k <= |insertions| && done == (if k == 0 then 0 else insertions[k - 1] + 1)
    && k <= done <= |rows| && |rows| == |Survivors(c, a)| + k && done <= |b|
    && (forall j :: 0 <= j < done ==> Matches(rows[j], b[j], j in ModifiedNew(c)))
    && (forall j :: done <= j < |rows| ==> rows[j] == Survivors(c, a)[j - k])
  }

  /** Up to the next insertion the survivors are in place already. */
  lemma {:induction false} GapInPlace(c: ChangeSet, insertions: IndexSet, a: seq<Row>, b: seq<Row>, k: nat, done: nat,
                                      rows: seq<Row>, j: nat)
    requires Describes(c, a, b) && Members(insertions) == c.insertions
    requires Rebuilding(c, insertions, a, b, k, done, rows)
    requires done <= j < |rows| && j < |b| && (k < |insertions| ==> j < insertions[k])
    ensures Matches(rows[j], b[j], j in ModifiedNew(c))
  {
    NotIn(insertions, k, j);
    CountAt(insertions, k, j);
    SurvivorAt(c, a, b, j);
  }

  /** There are as many rows in the end as the new version has. */
  lemma {:induction false} RebuiltLength(c: ChangeSet, insertions: IndexSet, a: seq<Row>, b: seq<Row>)
    requires Describes(c, a, b) && Members(insertions) == c.insertions
    ensures |Survivors(c, a)| + |insertions| == |b|
  {
    SurvivorsAgree(c, a, b, 0);
    forall x | x in insertions
      ensures x < |b|
    {
      assert x in Members(insertions);
    }
    LengthIsCount(insertions, |b|);
  }

  lemma {:induction false} RoomForNext(insertions: IndexSet, k: nat, size: nat)
    requires k < |insertions| && forall x :: x in insertions ==> x < size
    ensures insertions[k] + (|insertions| - k) <= size
    decreases |insertions| - k
  {
    if k + 1 < |insertions| {
      RoomForNext(insertions, k + 1, size);
    } else {
      assert insertions[k] in insertions;
    }
  }

  lemma {:induction false} RebuildStep(c: ChangeSet, insertions: IndexSet, a: seq<Row>, b: seq<Row>, k: nat,
                                       done: nat, rows: seq<Row>, rows': seq<Row>)
    requires Describes(c, a, b) && Members(insertions) == c.insertions && k < |insertions|
    requires Rebuilding(c, insertions, a, b, k, done, rows)
    requires insertions[k] <= |rows| && insertions[k] < |b|
    requires rows' == Lists.InsertAt(rows, insertions[k], b[insertions[k]])
    ensures Rebuilding(c, insertions, a, b, k + 1, insertions[k] + 1, rows')
  {
    var i := insertions[k];
    assert k > 0 ==> insertions[k - 1] < insertions[k];
    forall j | 0 <= j < i
      ensures Matches(rows[j], b[j], j in ModifiedNew(c))
    {
      if j >= done {
        GapInPlace(c, insertions, a, b, k, done, rows, j);
      }
    }
    InsertedAt(rows, i, b[i], rows');
  }

  lemma InsertedAt(rows: seq<Row>, i: nat, x: Row, rows': seq<Row>)
    requires i <= |rows| && rows' == Lists.InsertAt(rows, i, x)
    ensures |rows'| == |rows| + 1 && rows'[i] == x
    ensures forall j :: 0 <= j < i ==> rows'[j] == rows[j]
    ensures forall j :: i < j < |rows'| ==> rows'[j] == rows[j - 1]
  {
  }

  /** The rows of the new version at these positions. */
  ghost predicate Fetched(positions: set<nat>, fetched: map<nat, Row>, after: seq<Row>) {
    forall j :: j in positions && j < |after| ==> j in fetched && fetched[j] == after[j]
  }

  /**
   Removing the deletions back to front and then inserting the new rows front to back
   turns the old version into the new one; rows that differ in contents are those
   reported as modified. Of the new version only the inserted rows are looked at.
   */
  method ApplyChange(before: seq<Row>, deletions: IndexSet, insertions: IndexSet, fetched: map<nat, Row>,
                     ghost c: ChangeSet, ghost after: seq<Row>)
    returns (rows: seq<Row>)
    requires Describes(c, before, after) && Members(deletions) == c.deletions && Members(insertions) == c.insertions
    requires Fetched(c.insertions, fetched, after)
    ensures |rows| == |after|
    ensures forall j :: 0 <= j < |after| ==> Matches(rows[j], after[j], j in ModifiedNew(c))
  {
    rows := RemoveRows(before, deletions, after, c);
    RebuiltLength(c, insertions, before, after);
    ghost var done := 0;
    for k := 0 to |insertions|
      invariant Rebuilding(c, insertions, before, after, k, done, rows)
    {
      var i := insertions[k];
      assert forall x :: x in insertions ==> x in c.insertions;
      RoomForNext(insertions, k, |after|);
      RebuildStep(c, insertions, before, after, k, done, rows, Lists.InsertAt(rows, i, after[i]));
      rows := rows[..i] + [fetched[i]] + rows[i..];
      done := i + 1;
    }
    forall j | 0 <= j < |after|
      ensures Matches(rows[j], after[j], j in ModifiedNew(c))
    {
      if j >= done {
        GapInPlace(c, insertions, before, after, |insertions|, done, rows, j);
      }
    }
  }

  method RemoveRows(before: seq<Row>, deletions: IndexSet, ghost after: seq<Row>, ghost c: ChangeSet)
    returns (rows: seq<Row>)
    requires Describes(c, before, after) && Members(deletions) == c.deletions
    ensures rows == Survivors(c, before)
  {
    var store := new RlmArray<Row>();
    store.backing := before;
    var list := new List(store);
    assert forall x :: x in deletions ==> x in Members(deletions);
    var outcome := list.RemoveAtOffsets(deletions);
    rows := store.backing;
  }

  // ----- the batch update of a table -----

  /** Where a reported modification is in the new version. */
  lemma {:induction false} ModifiedLands(c: ChangeSet, a: seq<Row>, b: seq<Row>, i: nat)
    requires Describes(c, a, b) && i in ModifiedOld(c)
    ensures c.Forward(i) < |b| && c.Forward(i) in ModifiedNew(c) && c.Backward(c.Forward(i)) == i
  {
    ModifiedSurvives(c, i);
    ModifiedPairs(c, i, c.Forward(i));
    KeepsIsForward(c, i, c.Forward(i));
  }

  /** Row `j` is as it should be, or is still to be reloaded. */
  ghost predicate Settled(c: ChangeSet, todo: seq<nat>, row: Row, after: seq<Row>, j: nat)
    requires j < |after|
  {
    row == after[j] || (j in ModifiedNew(c) && c.Backward(j) in todo)
  }

  /**
   The batch update of a table, given what an observer is told: apply the deletions and insertions, then reload
   the rows that were at the modified positions of the old version where they are now. Looking only at inserted
   and modified rows, it ends with the new version exactly.
   */
  method UpdateTable(table: seq<Row>, deletions: IndexSet, insertions: IndexSet, modifications: IndexSet,
                     fetched: map<nat, Row>, ghost c: ChangeSet, ghost after: seq<Row>)
    returns (rows: seq<Row>)
    requires Describes(c, table, after)
    requires Report(Members(deletions), Members(insertions), Members(modifications)) == Reported(c)
    requires Fetched(c.insertions + ModifiedNew(c), fetched, after)
    ensures rows == after
  {
    rows := ApplyChange(table, deletions, insertions, fetched, c, after);
    forall j | 0 <= j < |after|
      ensures Settled(c, modifications[0..], rows[j], after, j)
    {
      ToReload(c, modifications, j);
    }
    for k := 0 to |modifications|
      invariant |rows| == |after|
      invariant forall j :: 0 <= j < |after| ==> Settled(c, modifications[k..], rows[j], after, j)
    {
      var i := modifications[k];
      assert i in Members(modifications);
      ModifiedLands(c, table, after, i);
      var rank := UnshiftIndex(deletions, i);
      var at := ShiftIndex(insertions, rank);
      rows := rows[at := fetched[at]];
      StillToReload(c, modifications, k, at);
    }
    assert modifications[|modifications|..] == [];
  }

  lemma {:induction false} ToReload(c: ChangeSet, modifications: IndexSet, j: nat)
    requires Members(modifications) == ModifiedOld(c)
    ensures j in ModifiedNew(c) ==> c.Backward(j) in modifications[0..]
  {
    ModifiedBackward(c, c.Backward(j));
    assert modifications[0..] == modifications;
  }

  /** Only the row just reloaded leaves the list. */
  lemma {:induction false} StillToReload(c: ChangeSet, modifications: IndexSet, k: nat, at: nat)
    requires k < |modifications| && at == c.Forward(modifications[k]) && c.Backward(at) == modifications[k]
    ensures forall j :: j in ModifiedNew(c) && c.Backward(j) in modifications[k..] && j != at ==>
      c.Backward(j) in modifications[k + 1..]
  {
    forall j | j in ModifiedNew(c) && c.Backward(j) in modifications[k..] && j != at
      ensures c.Backward(j) in modifications[k + 1..]
    {
      KeepsIsForward(c, c.Backward(j), j);
    }
  }

  /** What the batch update makes of a table, position by position. */
  function Batched(r: Report, table: seq<Row>, rows: seq<Row>): seq<Row> {
    var kept := Select(table, r.deletions, 0, |table|, false);
    seq(|rows|, j requires 0 <= j < |rows| =>
      var rank := Unshift(r.insertions, j);
      if j in r.insertions || Shift(r.deletions, rank) in r.modifications || rank >= |kept| then rows[j]
      else kept[rank])
  }

  /** A table that shows the old version shows the new one after a true report. */
  lemma {:induction false} BatchedIsNew(c: ChangeSet, before: seq<Row>, after: seq<Row>)
    requires Describes(c, before, after)
    ensures Batched(Reported(c), before, after) == after
  {
    forall j | 0 <= j < |after|
      ensures Batched(Reported(c), before, after)[j] == after[j]
    {
      if j !in c.insertions {
        SurvivorAt(c, before, after, j);
        KeepsIsForward(c, c.Backward(j), j);
        ModifiedPairs(c, c.Backward(j), j);
      }
    }
  }
}
