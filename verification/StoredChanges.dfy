/**
 Change sets as `CollectionChangeBuilder` stores them, and how recording a single
 change transforms the parts.
 */
module StoredChanges {
  import opened Outcomes
  import opened Selections
  import opened IndexSets
  import opened IndexSetOperations
  import opened ChangeSets
  import opened Reports
  import opened RowChanges

  function MoveSet(moves: seq<Move>): set<Move> {
    set m | m in moves
  }

  /** No two entries start at the same row. */
  predicate DistinctSources(moves: seq<Move>) {
    forall p, q :: 0 <= p < q < |moves| ==> moves[p].from != moves[q].from
  }

  /** A change set as the builder stores it. */
  datatype Stored = Stored(deletions: IndexSet, insertions: IndexSet, modifications: IndexSet, moves: seq<Move>) {
    function View(): ChangeSet {
      ChangeSet(Members(deletions), Members(insertions), Members(modifications), MoveSet(moves))
    }

    ghost predicate Valid() {
      MovesValid(View()) && DistinctSources(moves)
    }

    predicate Empty() {
      deletions == [] && insertions == [] && modifications == [] && moves == []
    }
  }

  /** A change set ready for delivery, as it is stored. */
  datatype StoredFinal = StoredFinal(
    deletions: IndexSet, insertions: IndexSet, modifications: IndexSet, modificationsNew: IndexSet, moves: seq<Move>)
  {
    function View(): Final {
      Final(Members(deletions), Members(insertions), Members(modifications), Members(modificationsNew), MoveSet(moves))
    }

    predicate Empty() {
      deletions == [] && insertions == [] && modifications == [] && modificationsNew == [] && moves == []
    }
  }

  lemma {:induction false} FinalEmptyViews(f: StoredFinal)
    ensures f.Empty() <==> f.View().Empty()
  {
    assert f.deletions != [] ==> f.deletions[0] in Members(f.deletions);
    assert f.insertions != [] ==> f.insertions[0] in Members(f.insertions);
    assert f.modifications != [] ==> f.modifications[0] in Members(f.modifications);
    assert f.modificationsNew != [] ==> f.modificationsNew[0] in Members(f.modificationsNew);
    assert f.moves != [] ==> f.moves[0] in MoveSet(f.moves);
  }

  /** `finalize`: the modified survivors by old and by new position. */
  method FinalizeStored(s: Stored) returns (f: StoredFinal)
    ensures f.View() == Finalized(s.View())
  {
    var modificationsInOld := EraseAt(s.modifications, s.insertions);
    modificationsInOld := ShiftForInsertAt(modificationsInOld, s.deletions);
    var modifications := RemoveAll(s.modifications, s.insertions);
    f := StoredFinal(s.deletions, s.insertions, modificationsInOld, modifications, s.moves);
  }

  /** The ascending indices `index ..< index + count`. */
  function Run(index: nat, count: nat): (run: IndexSet)
    ensures Members(run) == Interval(index, index + count)
  {
    if count == 0 then []
    else
      var shorter := Run(index, count - 1);
      assert forall x :: x in shorter ==> x in Members(shorter);
      PushAscending(shorter, index + count - 1);
      shorter + [index + count - 1]
  }

  // ----- moves carried across a change -----

  /** The moves whose row survives `d`, with their new destinations. */
  function Retargeted(moves: set<Move>, d: ChangeSet): set<Move> {
    set m | m in moves && m.to !in d.deletions :: Move(m.from, d.Forward(m.to))
  }

  /** The same on the stored sequence. */
  ghost function Retarget(moves: seq<Move>, d: ChangeSet): seq<Move> {
    if moves == [] then []
    else
      var m := moves[|moves| - 1];
      Retarget(moves[..|moves| - 1], d) + if m.to in d.deletions then [] else [Move(m.from, d.Forward(m.to))]
  }

  lemma {:induction false} RetargetIs(moves: seq<Move>, d: ChangeSet)
    requires DistinctSources(moves)
    ensures MoveSet(Retarget(moves, d)) == Retargeted(MoveSet(moves), d)
    ensures DistinctSources(Retarget(moves, d)) && Sources(Retarget(moves, d)) <= Sources(moves)
  {
    if moves != [] {
      var shorter, m := moves[..|moves| - 1], moves[|moves| - 1];
      RetargetIs(shorter, d);
      SplitLast(moves);
      var m' := Move(m.from, d.Forward(m.to));
      PushMove(Retarget(shorter, d), m');
      assert Retargeted(MoveSet(shorter) + {m}, d)
          == Retargeted(MoveSet(shorter), d) + if m.to in d.deletions then {} else {m'};
    }
  }

  function Sources(moves: seq<Move>): set<nat> {
    set m | m in moves :: m.from
  }

  lemma PushMove(moves: seq<Move>, m: Move)
    ensures MoveSet(moves + [m]) == MoveSet(moves) + {m} && Sources(moves + [m]) == Sources(moves) + {m.from}
    ensures DistinctSources(moves) && m.from !in Sources(moves) ==> DistinctSources(moves + [m])
    ensures moves + [] == moves
  {
  }

  /** The last of the stored moves starts where no other does. */
  lemma SplitLast(moves: seq<Move>)
    requires moves != [] && DistinctSources(moves)
    ensures var shorter, m := moves[..|moves| - 1], moves[|moves| - 1];
            && DistinctSources(shorter)
            && m.from !in Sources(shorter)
            && MoveSet(moves) == MoveSet(shorter) + {m}
            && Sources(moves) == Sources(shorter) + {m.from}
  {
  }

  // ----- closed forms of combining with a single change -----

  lemma {:induction false} CombineInsertion(c: ChangeSet, index: nat, count: nat, d: ChangeSet)
    requires d == ChangeSet({}, Interval(index, index + count), {}, {})
    ensures Combine(c, d) == ChangeSet(
              c.deletions, Inserted(c.insertions, d.insertions), Shifted(c.modifications, d.insertions),
              Retargeted(c.moves, d))
  {
    ByNothing(c.insertions);
    ByNothing(c.deletions);
    ByNothing(c.modifications);
    assert CombinedMoves(c, d) == Retargeted(c.moves, d);
    assert Carried(c, d) == {};
  }

  lemma {:induction false} CombineErasure(c: ChangeSet, index: nat, d: ChangeSet)
    requires d == ChangeSet({index}, {}, {}, {})
    ensures Combine(c, d) == ChangeSet(
              DeletedToo(c, index), Erased(c.insertions, {index}), Erased(c.modifications, {index}),
              Retargeted(c.moves, d))
  {
    ByNothing(Erased(c.insertions, {index}));
    ByNothing(Erased(c.modifications, {index}));
    CombineDeletion(c, index);
    assert CombinedMoves(c, d) == Retargeted(c.moves, d);
    assert Carried(c, d) == {};
  }

  /** The deletions once the row now at `index` is deleted too; a row inserted before leaves no trace. */
  function DeletedToo(c: ChangeSet, index: nat): set<nat> {
    if index in c.insertions then c.deletions else c.deletions + {c.Backward(index)}
  }

  lemma CombineDeletion(c: ChangeSet, index: nat)
    ensures Inserted(Erased({index}, c.insertions), c.deletions) == DeletedToo(c, index)
  {
  }

  lemma {:induction false} CombineRelocation(c: ChangeSet, from: nat, to: nat, d: ChangeSet)
    requires MovesValid(c) && d == ChangeSet({from}, {to}, {}, {Move(from, to)})
    ensures Recorded(c, Relocate(from, to), 0) == ChangeSet(
              DeletedToo(c, from),
              Inserted(Erased(c.insertions, {from}), {to}),
              Shifted(Erased(c.modifications, {from}), {to}) + (if from in c.modifications then {to} else {}),
              Retargeted(c.moves, d) + (set m | m in c.moves && m.to == from :: Move(m.from, to))
              + (if from in c.insertions then {} else {Move(c.Backward(from), to)}))
  {
    CombineDeletion(c, from);
    assert Carried(c, d) <= {to};
    assert from !in c.modifications ==> Carried(c, d) == {};
    assert (set n | n in d.moves && n.from !in c.insertions :: Move(c.Backward(n.from), n.to))
        == if from in c.insertions then {} else {Move(c.Backward(from), to)};
    assert (set m, n | m in c.moves && n in d.moves && n.from == m.to :: Move(m.from, n.to))
        == (set m | m in c.moves && m.to == from :: Move(m.from, to));
  }

  // ----- recording a single change -----

  lemma {:induction false} RetargetStep(moves: seq<Move>, k: nat, d: ChangeSet)
    requires k < |moves|
    ensures Retarget(moves[..k + 1], d)
         == Retarget(moves[..k], d)
            + if moves[k].to in d.deletions then [] else [Move(moves[k].from, d.Forward(moves[k].to))]
  {
    assert moves[..k + 1][..k] == moves[..k];
  }

  method MakeRoom(moves: seq<Move>, index: nat, count: nat) returns (out: seq<Move>)
    ensures out == Retarget(moves, ChangeSet({}, Interval(index, index + count), {}, {}))
  {
    ghost var d := ChangeSet({}, Interval(index, index + count), {}, {});
    out := [];
    for k := 0 to |moves|
      invariant out == Retarget(moves[..k], d)
    {
      var to := moves[k].to;
      RetargetStep(moves, k, d);
      ForwardByNothing(to);
      ShiftRun(index, index + count, to);
      out := out + [Move(moves[k].from, if to >= index then to + count else to)];
    }
    assert moves[..|moves|] == moves;
  }

  method CloseGap(moves: seq<Move>, index: nat) returns (out: seq<Move>)
    ensures out == Retarget(moves, ChangeSet({index}, {}, {}, {}))
  {
    ghost var d := ChangeSet({index}, {}, {}, {});
    out := [];
    for k := 0 to |moves|
      invariant out == Retarget(moves[..k], d)
    {
      var to := moves[k].to;
      RetargetStep(moves, k, d);
      OneIsRun(index);
      UnshiftRun(index, index + 1, to);
      ForwardByNothing(Unshift({index}, to));
      if to != index {
        out := out + [Move(moves[k].from, if to > index then to - 1 else to)];
      }
    }
    assert moves[..|moves|] == moves;
  }

  lemma {:induction false} LengthIsCount(s: IndexSet, end: nat)
    requires forall x :: x in Members(s) ==> x < end
    ensures |s| == Count(Members(s), end)
  {
    assert s != [] ==> s[|s| - 1] in Members(s);
    CountAt(s, |s|, end);
  }

  lemma {:induction false} CombineClearing(c: ChangeSet, first: nat, size: nat)
    requires MovesValid(c) && Fits(c, first, size)
    requires forall j :: j in c.modifications ==> j < size
    ensures Combine(c, ChangeSet(Interval(0, size), {}, {}, {})) == ChangeSet(Interval(0, first), {}, {}, {})
  {
    var d := ChangeSet(Interval(0, size), {}, {}, {});
    forall i
      ensures i in Combine(c, d).deletions <==> i in Interval(0, first)
    {
      InCombinedDeletions(c, d, i);
      if i !in c.deletions {
        KeepsIsForward(c, i, c.Forward(i));
        KeptInside(c, first, size, i, c.Forward(i));
      }
    }
    assert Erased(c.insertions, d.deletions) == {} && Erased(c.modifications, d.deletions) == {};
    ByNothing({});
    assert Carried(c, d) == {} && CombinedMoves(c, d) == {};
  }

  method InsertRows(s: Stored, index: nat, count: nat) returns (r: Stored)
    requires s.Valid()
    ensures r.Valid() && r.View() == Combine(s.View(), ChangeSet({}, Interval(index, index + count), {}, {}))
  {
    ghost var c, d := s.View(), ChangeSet({}, Interval(index, index + count), {}, {});
    var modifications := ShiftForInsertAt(s.modifications, Run(index, count));
    var insertions := InsertAt(s.insertions, Run(index, count));
    var moves := MakeRoom(s.moves, index, count);
    r := Stored(s.deletions, insertions, modifications, moves);
    RetargetIs(s.moves, d);
    CombineMovesValid(c, d);
    CombineInsertion(c, index, count, d);
    Assemble(r, Combine(c, d));
  }

  method EraseRow(s: Stored, index: nat) returns (r: Stored)
    requires s.Valid()
    ensures r.Valid() && r.View() == Combine(s.View(), ChangeSet({index}, {}, {}, {}))
  {
    ghost var c, d := s.View(), ChangeSet({index}, {}, {}, {});
    assert Members([index]) == {index};
    var modifications := EraseAt(s.modifications, [index]);
    var deletions, insertions, source := DeleteRow(s.deletions, s.insertions, index, c);
    var moves := CloseGap(s.moves, index);
    r := Stored(deletions, insertions, modifications, moves);
    RetargetIs(s.moves, d);
    CombineMovesValid(c, d);
    CombineErasure(c, index, d);
    Assemble(r, Combine(c, d));
  }

  method RelocateRow(s: Stored, from: nat, to: nat) returns (r: Stored)
    requires s.Valid()
    ensures r.Valid() && r.View() == Recorded(s.View(), Relocate(from, to), 0)
  {
    ghost var c, d := s.View(), ChangeSet({from}, {to}, {}, {Move(from, to)});
    ghost var after := Recorded(c, Relocate(from, to), 0);
    assert Members([from]) == {from} && Members([to]) == {to};
    var deleted, erased, source := DeleteRow(s.deletions, s.insertions, from, c);
    var inserted := InsertAt(erased, [to]);
    FreshSource(c, s.moves, from);
    var relocated := RelocateMoves(s.moves, from, to, source);
    var modified := RelocateModified(s.modifications, from, to);
    r := Stored(deleted, inserted, modified, relocated);
    RecordedMovesValid(c, from, to);
    CombineRelocation(c, from, to, d);
    Assemble(r, after);
  }

  lemma {:induction false} RecordedMovesValid(c: ChangeSet, from: nat, to: nat)
    requires MovesValid(c)
    ensures MovesValid(Recorded(c, Relocate(from, to), 0))
  {
    CombineMovesValid(c, Single(Relocate(from, to), 0));
  }

  /** Where a recorded move leads once its row is moved on, or another row is moved past it. */
  function Relocated(m: Move, from: nat, to: nat): Move {
    if m.to == from then Move(m.from, to)
    else if to <= m.to < from then Move(m.from, m.to + 1)
    else if from < m.to <= to then Move(m.from, m.to - 1)
    else m
  }

  lemma {:induction false} RelocatedIsForward(m: Move, from: nat, to: nat, d: ChangeSet)
    requires d == ChangeSet({from}, {to}, {}, {Move(from, to)})
    ensures m.to != from ==> Relocated(m, from, to) == Move(m.from, d.Forward(m.to))
  {
    OneIsRun(from);
    OneIsRun(to);
    UnshiftRun(from, from + 1, m.to);
    ShiftRun(to, to + 1, Unshift({from}, m.to));
  }

  /** A row that was not inserted is no target of a recorded move, and comes from where no move starts. */
  lemma FreshSource(c: ChangeSet, moves: seq<Move>, from: nat)
    requires MovesValid(c) && c.moves == MoveSet(moves)
    ensures from !in c.insertions ==> c.Backward(from) !in Sources(moves)
    ensures from !in c.insertions ==> forall m :: m in moves ==> m.to != from
  {
  }

  /** Updates the recorded moves; a row moved for the first time, coming from `source`, gets an entry of its own. */
  method RelocateMoves(moves: seq<Move>, from: nat, to: nat, source: Option<nat>) returns (out: seq<Move>)
    requires DistinctSources(moves)
    requires source.Some? ==> source.value !in Sources(moves) && forall m :: m in moves ==> m.to != from
    ensures DistinctSources(out)
    ensures var d := ChangeSet({from}, {to}, {}, {Move(from, to)});
            MoveSet(out) == Retargeted(MoveSet(moves), d)
                            + (set m | m in MoveSet(moves) && m.to == from :: Move(m.from, to))
                            + (if source.None? then {} else {Move(source.value, to)})
  {
    var updated := false;
    out := [];
    for k := 0 to |moves|
      invariant |out| == k
      invariant forall p :: 0 <= p < k ==> out[p] == Relocated(moves[p], from, to)
      invariant source.Some? ==> !updated
    {
      if moves[k].to == from {
        updated := true;
      }
      out := out + [Relocated(moves[k], from, to)];
    }
    RelocatedSet(moves, from, to, out);
    if !updated && source.Some? {
      PushMove(out, Move(source.value, to));
      out := out + [Move(source.value, to)];
    }
  }

  lemma {:induction false} RelocatedSet(moves: seq<Move>, from: nat, to: nat, out: seq<Move>)
    requires |out| == |moves| && forall p :: 0 <= p < |moves| ==> out[p] == Relocated(moves[p], from, to)
    ensures Sources(out) == Sources(moves)
    ensures var d := ChangeSet({from}, {to}, {}, {Move(from, to)});
            MoveSet(out)
              == Retargeted(MoveSet(moves), d) + set m | m in MoveSet(moves) && m.to == from :: Move(m.from, to)
  {
    var d := ChangeSet({from}, {to}, {}, {Move(from, to)});
    var target := Retargeted(MoveSet(moves), d) + set m | m in MoveSet(moves) && m.to == from :: Move(m.from, to);
    forall p | 0 <= p < |moves|
      ensures out[p] in target && out[p].from in Sources(moves) && moves[p].from in Sources(out)
    {
      RelocatedIsForward(moves[p], from, to, d);
      assert moves[p] in moves && out[p] in out;
    }
    forall m | m in moves
      ensures Relocated(m, from, to) in out && m.from in Sources(out)
    {
      var p :| 0 <= p < |moves| && moves[p] == m;
      assert out[p] in out;
    }
    forall n | n in target
      ensures n in out
    {
      if m :| m in moves && m.to == from && n == Move(m.from, to) {
      } else {
        var m :| m in MoveSet(moves) && m.to !in d.deletions && n == Move(m.from, d.Forward(m.to));
        RelocatedIsForward(m, from, to, d);
      }
    }
  }

  method RelocateModified(modifications: IndexSet, from: nat, to: nat) returns (r: IndexSet)
    ensures Members(r) == Shifted(Erased(Members(modifications), {from}), {to})
                          + if from in Members(modifications) then {to} else {}
  {
    assert Members([from]) == {from} && Members([to]) == {to};
    var modified := Contains(modifications, from);
    var rest := EraseAt(modifications, [from]);
    if modified {
      r := InsertAt(rest, [to]);
    } else {
      r := ShiftForInsertAt(rest, [to]);
    }
  }

  /** Erases the row at `index` from the insertions, or else adds it to the deletions; returns where it came from. */
  method DeleteRow(deletions: IndexSet, insertions: IndexSet, index: nat, ghost c: ChangeSet)
    returns (deletions': IndexSet, insertions': IndexSet, source: Option<nat>)
    requires c.deletions == Members(deletions) && c.insertions == Members(insertions)
    ensures Members(deletions') == DeletedToo(c, index)
    ensures Members(insertions') == Erased(c.insertions, {index})
    ensures source == if index in c.insertions then None else Some(c.Backward(index))
  {
    var unshifted;
    insertions', unshifted := EraseOrUnshift(insertions, index);
    if unshifted.None? {
      return deletions, insertions', None;
    }
    var shifted;
    deletions', shifted := AddShifted(deletions, unshifted.value);
    return deletions', insertions', Some(shifted);
  }

  lemma Assemble(s: Stored, c: ChangeSet)
    requires Members(s.deletions) == c.deletions && Members(s.insertions) == c.insertions
    requires Members(s.modifications) == c.modifications && MoveSet(s.moves) == c.moves
    requires MovesValid(c) && DistinctSources(s.moves)
    ensures s.View() == c && s.Valid()
  {
  }

  lemma {:induction false} CombineModification(c: ChangeSet, index: nat, d: ChangeSet)
    requires d == ChangeSet({}, {}, {index}, {})
    ensures Combine(c, d) == c.(modifications := c.modifications + {index})
  {
    assert Combine(c, d).deletions == c.deletions by {
      ByNothing(c.insertions);
      ByNothing(c.deletions);
    }
    assert Combine(c, d).insertions == c.insertions by {
      ByNothing(c.insertions);
    }
    assert Combine(c, d).modifications == c.modifications + {index} by {
      ByNothing(c.modifications);
      assert Carried(c, d) == {};
    }
    MovesUntouched(c, d);
  }

  lemma {:induction false} MovesUntouched(c: ChangeSet, d: ChangeSet)
    requires d.deletions == {} && d.insertions == {} && d.moves == {}
    ensures CombinedMoves(c, d) == c.moves
  {
    forall m
      ensures m in CombinedMoves(c, d) <==> m in c.moves
    {
      if m in c.moves {
        ForwardByNothing(m.to);
        assert m == Move(m.from, d.Forward(m.to));
      }
      if m in CombinedMoves(c, d) {
        var n :| n in c.moves && n.to !in d.deletions && m == Move(n.from, d.Forward(n.to));
        ForwardByNothing(n.to);
      }
    }
  }
}
