/**
 What a change set tells those it is delivered to: `finalize` in
 Realm/ObjectStore/src/impl/collection_change_builder.cpp, and the three lists of
 indices a Swift observer receives.
 */
module Reports {
  import opened IndexSets
  import opened ChangeSets

  /** `finalize`: the modified survivors, by their positions in the old and in the new version. */
  function ModifiedOld(c: ChangeSet): set<nat> {
    Shifted(Erased(c.modifications, c.insertions), c.deletions)
  }

  function ModifiedNew(c: ChangeSet): set<nat> {
    c.modifications - c.insertions
  }

  /** A `CollectionChangeSet` ready for delivery. */
  datatype Final = Final(
    deletions: set<nat>, insertions: set<nat>, modifications: set<nat>, modificationsNew: set<nat>, moves: set<Move>)
  {
    predicate Empty() {
      deletions == {} && insertions == {} && modifications == {} && modificationsNew == {} && moves == {}
    }

    /** What it says without its moves, as an account. */
    function Told(): ChangeSet {
      ChangeSet(deletions, insertions, modificationsNew, {})
    }
  }

  function Finalized(c: ChangeSet): Final {
    Final(c.deletions, c.insertions, ModifiedOld(c), ModifiedNew(c), c.moves)
  }

  lemma {:induction false} FinalEmptyIff(c: ChangeSet)
    ensures Finalized(c).Empty() <==> c.Empty()
  {
    forall i | i in ModifiedOld(c)
      ensures exists j :: j in ModifiedNew(c)
    {
      ModifiedSurvives(c, i);
      ModifiedPairs(c, i, c.Forward(i));
    }
    assert c.insertions == {} ==> ModifiedNew(c) == c.modifications;
  }

  /** Finalizing forgets that moved rows were modified; the rest of the account stays true. */
  lemma {:induction false} ToldDescribes(c: ChangeSet, a: seq<Row>, b: seq<Row>)
    requires Describes(c, a, b)
    ensures Describes(Finalized(c).Told(), a, b)
  {
    var told := Finalized(c).Told();
    forall i, j | 0 <= i < |a| && 0 <= j < |b| && told.Keeps(i, j)
      ensures Matches(a[i], b[j], j in told.modifications)
    {
      assert c.Keeps(i, j);
    }
  }

  /** What an observer is told: deletions and modifications by old position, insertions by new position. */
  datatype Report = Report(deletions: set<nat>, insertions: set<nat>, modifications: set<nat>)

  function ReportOf(f: Final): Report {
    Report(f.deletions, f.insertions, f.modifications)
  }

  function Reported(c: ChangeSet): Report {
    ReportOf(Finalized(c))
  }

  /** The report is that of a true account. */
  ghost predicate Accounts(r: Report, before: seq<Row>, after: seq<Row>) {
    exists c :: Reported(c) == r && Describes(c, before, after)
  }

  /** The two lists name the same rows: exactly the modified ones among those that kept their place. */
  lemma {:induction false} ModifiedPairs(c: ChangeSet, i: nat, j: nat)
    requires c.Keeps(i, j)
    ensures i in ModifiedOld(c) <==> j in c.modifications
    ensures j in ModifiedNew(c) <==> j in c.modifications
  {
    InShifted(Erased(c.modifications, c.insertions), c.deletions, i);
    InErased(c.modifications, c.insertions, Unshift(c.deletions, i));
    KeepsIsForward(c, i, j);
  }

  /** Each modified row survived. */
  lemma ModifiedSurvives(c: ChangeSet, x: nat)
    ensures x in ModifiedOld(c) ==> c.Keeps(x, c.Forward(x))
    ensures x in ModifiedNew(c) ==> c.Keeps(c.Backward(x), x)
  {
  }

  // ----- old and new positions of modified rows -----

  /** As many rows deleted as inserted in front of `j`, and `j` itself untouched. */
  predicate StaysPut(c: ChangeSet, j: nat) {
    j !in c.deletions && Count(c.deletions, j) == Count(c.insertions, j)
  }

  lemma {:induction false} StaysPutIff(c: ChangeSet, j: nat)
    requires j !in c.insertions
    ensures StaysPut(c, j) <==> c.Backward(j) == j
  {
    KeepsIsForward(c, c.Backward(j), j);
    KeepsIsForward(c, j, j);
  }

  lemma {:induction false} BackwardMonotone(c: ChangeSet, j: nat, k: nat)
    requires j < k && j !in c.insertions && k !in c.insertions
    ensures c.Backward(j) < c.Backward(k)
  {
    UnshiftMonotone(c.insertions, j, k);
    KeepsIsForward(c, c.Backward(j), j);
    KeepsIsForward(c, c.Backward(k), k);
    if c.Backward(k) <= c.Backward(j) {
      UnshiftMonotone(c.deletions, c.Backward(k), c.Backward(j));
    }
  }

  /** What `finalize` reports as modified are the old positions of the modified survivors. */
  lemma {:induction false} ModifiedBackward(c: ChangeSet, i: nat)
    ensures i in ModifiedOld(c) <==> exists j :: j in ModifiedNew(c) && c.Backward(j) == i
  {
    if i in ModifiedOld(c) {
      ModifiedSurvives(c, i);
      ModifiedPairs(c, i, c.Forward(i));
      KeepsIsForward(c, i, c.Forward(i));
    } else if j :| j in ModifiedNew(c) && c.Backward(j) == i {
      ModifiedSurvives(c, j);
      ModifiedPairs(c, i, j);
    }
  }

  lemma {:induction false} ModifiedNothing(c: ChangeSet)
    requires c.modifications == {}
    ensures ModifiedOld(c) == {}
  {
    forall i
      ensures i !in ModifiedOld(c)
    {
      ModifiedBackward(c, i);
    }
  }

  lemma {:induction false} EqualMeansPut(c: ChangeSet, j: nat)
    requires ModifiedOld(c) == ModifiedNew(c) && j in ModifiedNew(c)
    ensures c.Backward(j) == j
  {
    ModifiedBackward(c, c.Backward(j));
    ModifiedBackward(c, j);
    var k :| k in ModifiedNew(c) && c.Backward(k) == j;
    if c.Backward(j) < j {
      EqualMeansPut(c, c.Backward(j));
      BackwardMonotone(c, c.Backward(j), j);
    } else if c.Backward(j) > j {
      if k < j {
        EqualMeansPut(c, k);
      } else if k > j {
        BackwardMonotone(c, j, k);
      }
    }
  }

  /**
   The reported modifications are the positions in the new version exactly when in front of each modified row
   as many rows were deleted as inserted.
   */
  lemma {:induction false} ModifiedAgreeIff(c: ChangeSet)
    ensures ModifiedOld(c) == ModifiedNew(c) <==> forall j :: j in ModifiedNew(c) ==> StaysPut(c, j)
  {
    forall j | j in ModifiedNew(c)
      ensures StaysPut(c, j) <==> c.Backward(j) == j
      ensures ModifiedOld(c) == ModifiedNew(c) ==> c.Backward(j) == j
    {
      StaysPutIff(c, j);
      if ModifiedOld(c) == ModifiedNew(c) {
        EqualMeansPut(c, j);
      }
    }
    if forall j :: j in ModifiedNew(c) ==> StaysPut(c, j) {
      forall i
        ensures i in ModifiedOld(c) <==> i in ModifiedNew(c)
      {
        ModifiedBackward(c, i);
      }
    }
  }

  /** A row inserted in front of a modified one: row 1 is modified, row 0 is reported. */
  lemma {:induction false} ModifiedMayDiffer()
    ensures var c := ChangeSet({}, {0}, {1}, {}); ModifiedOld(c) == {0} && ModifiedNew(c) == {1}
  {
    var c := ChangeSet({}, {0}, {1}, {});
    assert ModifiedNew(c) == {1};
    forall i
      ensures i in ModifiedOld(c) <==> i == 0
    {
      ModifiedBackward(c, i);
      BackOne(c);
    }
  }

  lemma {:induction false} BackOne(c: ChangeSet)
    requires c == ChangeSet({}, {0}, {1}, {})
    ensures c.Backward(1) == 0
  {
    assert Count({0}, 1) == 1 && Unshift({0}, 1) == 0;
    KeepsIsForward(c, 0, 1);
    assert Count({}, 0) == 0;
  }
}
