/**
 `CollectionChangeBuilder`: records single changes in place and merges whole
 change sets. Only the row-level `modifications` are modelled; the per-column
 sets undergo the same operations.
 */
module ChangeBuilders {
  import opened Selections
  import opened IndexSets
  import opened IndexSetOperations
  import opened ChangeSets
  import opened Reports
  import opened RowChanges
  import opened StoredChanges
  import opened ChangeMerging

  class CollectionChangeBuilder {
    var deletions: IndexSet
    var insertions: IndexSet
    var modifications: IndexSet
    var moves: seq<Move>

    constructor ()
      ensures View() == NOTHING && Valid()
    {
      deletions, insertions, modifications, moves := [], [], [], [];
    }

    function View(): ChangeSet
      reads this
    {
      Stored(deletions, insertions, modifications, moves).View()
    }

    ghost predicate Valid()
      reads this
    {
      Stored(deletions, insertions, modifications, moves).Valid()
    }

    /** Without tracking of moves only the modified rows make room; no insertion is recorded. */
    method Insert(index: nat, count: nat, trackMoves: bool)
      requires Valid() && count != 0
      modifies this
      ensures Valid()
      ensures View() ==
        if trackMoves then Combine(old(View()), ChangeSet({}, Interval(index, index + count), {}, {}))
        else old(View()).(modifications := Shifted(old(View()).modifications, Interval(index, index + count)))
    {
      if !trackMoves {
        modifications := ShiftForInsertAt(modifications, StoredChanges.Run(index, count));
        return;
      }
      var after := InsertRows(Stored(deletions, insertions, modifications, moves), index, count);
      deletions, insertions, modifications, moves :=
        after.deletions, after.insertions, after.modifications, after.moves;
    }

    method Modify(index: nat)
      requires Valid()
      modifies this
      ensures Valid()
      ensures View() == Combine(old(View()), ChangeSet({}, {}, {index}, {}))
    {
      ghost var c, d := View(), ChangeSet({}, {}, {index}, {});
      CombineModification(c, index, d);
      modifications := Add(modifications, index);
    }

    method Erase(index: nat)
      requires Valid()
      modifies this
      ensures Valid()
      ensures View() == Combine(old(View()), ChangeSet({index}, {}, {}, {}))
    {
      var after := EraseRow(Stored(deletions, insertions, modifications, moves), index);
      deletions, insertions, modifications, moves :=
        after.deletions, after.insertions, after.modifications, after.moves;
    }

    method Move(from: nat, to: nat)
      requires Valid() && from != to
      modifies this
      ensures Valid()
      ensures View() == Recorded(old(View()), Relocate(from, to), 0)
    {
      var after := RelocateRow(Stored(deletions, insertions, modifications, moves), from, to);
      deletions, insertions, modifications, moves :=
        after.deletions, after.insertions, after.modifications, after.moves;
    }

    /** `first` is how many rows there were before anything was recorded; the source computes it. */
    method Clear(oldSize: nat, ghost first: nat)
      requires Valid() && Fits(View(), first, oldSize)
      requires forall j :: j in modifications ==> j < oldSize
      modifies this
      ensures Valid()
      ensures View() == Combine(old(View()), ChangeSet(Interval(0, oldSize), {}, {}, {}))
    {
      CombineClearing(View(), first, oldSize);
      LengthIsCount(deletions, first);
      LengthIsCount(insertions, oldSize);
      var size := oldSize + |deletions| - |insertions|;
      deletions, insertions, modifications, moves := Run(0, size), [], [], [];
    }

    /** `order` is the order in which the stale moves are looked for. */
    method Merge(c: Stored) returns (ghost order: seq<ChangeSets.Move>)
      requires Valid() && c.Valid()
      modifies this
      ensures Valid() && MergesTo(old(View()), c.View(), View(), order)
      ensures !old(View()).Empty() && !c.View().Empty() ==> AllMove(View())
    {
      EmptyViews(Stored(deletions, insertions, modifications, moves));
      EmptyViews(c);
      var merged;
      merged, order := MergeStored(Stored(deletions, insertions, modifications, moves), c);
      deletions, insertions, modifications, moves :=
        merged.deletions, merged.insertions, merged.modifications, merged.moves;
    }

    method Finalize() returns (f: StoredFinal)
      ensures f.View() == Finalized(View())
    {
      f := FinalizeStored(Stored(deletions, insertions, modifications, moves));
    }
  }
}
