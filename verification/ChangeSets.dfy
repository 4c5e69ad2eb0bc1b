/**
 Collection change sets and how they are composed,
 Realm/ObjectStore/src/impl/collection_change_builder.cpp.

 A change set relates an old and a new version of a collection: `deletions` are
 positions of the old one, `insertions` and `modifications` positions of the new
 one, and the rows that are neither deleted nor inserted keep their order.
 */
module ChangeSets {
  import opened Selections
  import opened IndexSets

  /** A row of a collection: which object it is, and what it holds. */
  datatype Row = Row(key: int, contents: int)

  datatype Move = Move(from: nat, to: nat)

  datatype ChangeSet = ChangeSet(
    deletions: set<nat>, insertions: set<nat>, modifications: set<nat>, moves: set<Move>)
  {
    predicate Empty() {
      deletions == {} && insertions == {} && modifications == {} && moves == {}
    }

    /** Where a row that was not deleted ends up. */
    function Forward(i: nat): nat {
      Shift(insertions, Unshift(deletions, i))
    }

    /** Where a row that was not inserted comes from. */
    function Backward(j: nat): nat {
      Shift(deletions, Unshift(insertions, j))
    }

    /** The surviving row at `i` of the old version is the row at `j` of the new one. */
    predicate Keeps(i: nat, j: nat) {
      i !in deletions && j !in insertions && Unshift(deletions, i) == Unshift(insertions, j)
    }
  }

  /** The same object, and with the same contents unless it is reported as modified. */
  predicate Matches(before: Row, after: Row, modified: bool) {
    before.key == after.key && (!modified ==> before == after)
  }

  /** `verify()`: every move is a deletion and an insertion, and no two moves share an end. */
  ghost predicate MovesValid(c: ChangeSet) {
    && (forall m :: m in c.moves ==> m.from in c.deletions && m.to in c.insertions)
    && (forall m, m' :: m in c.moves && m' in c.moves && (m.from == m'.from || m.to == m'.to) ==> m == m')
  }

  /** The indices are positions of the two versions, and as many rows survive on either side. */
  ghost predicate Fits(c: ChangeSet, old_: nat, new_: nat) {
    && (forall i :: i in c.deletions ==> i < old_)
    && (forall j :: j in c.insertions ==> j < new_)
    && Unshift(c.deletions, old_) == Unshift(c.insertions, new_)
  }

  /** `c` is a true account of the change from `before` to `after`. */
  ghost predicate Describes(c: ChangeSet, before: seq<Row>, after: seq<Row>) {
    && MovesValid(c)
    && Fits(c, |before|, |after|)
    && (forall j :: j in c.modifications ==> j < |after|)
    && (forall i, j :: 0 <= i < |before| && 0 <= j < |after| && c.Keeps(i, j) ==>
          Matches(before[i], after[j], j in c.modifications))
    && (forall m :: m in c.moves ==> Matches(before[m.from], after[m.to], m.to in c.modifications))
  }

  /** The account of two changes in a row. */
  function Combine(c: ChangeSet, d: ChangeSet): ChangeSet {
    ChangeSet(
      Inserted(Erased(d.deletions, c.insertions), c.deletions),
      Inserted(Erased(c.insertions, d.deletions), d.insertions),
      Shifted(Erased(c.modifications, d.deletions), d.insertions) + d.modifications + Carried(c, d),
      CombinedMoves(c, d))
  }

  /** Rows modified by the first change and moved by the second. */
  function Carried(c: ChangeSet, d: ChangeSet): set<nat> {
    set m | m in d.moves && m.from in c.modifications && (m.from !in c.insertions || MovedTo(c, m.from)) :: m.to
  }

  predicate MovedTo(c: ChangeSet, j: nat) {
    exists m :: m in c.moves && m.to == j
  }

  /** Moves of moved rows are joined, moves of surviving rows adjusted, moves of inserted or deleted rows dropped. */
  function CombinedMoves(c: ChangeSet, d: ChangeSet): set<Move> {
    (set m, n | m in c.moves && n in d.moves && n.from == m.to :: Move(m.from, n.to))
    + (set m | m in c.moves && m.to !in d.deletions :: Move(m.from, d.Forward(m.to)))
    + (set n | n in d.moves && n.from !in c.insertions :: Move(c.Backward(n.from), n.to))
  }

  // ----- survivors compose -----

  /** A position reached through both changes ends up at the same rank on either side. */
  lemma {:induction false} RanksCompose(c: ChangeSet, d: ChangeSet, i: nat, j: nat, k: nat)
    requires Unshift(c.deletions, i) == Unshift(c.insertions, j)
    requires Unshift(d.deletions, j) == Unshift(d.insertions, k)
    ensures Unshift(Combine(c, d).deletions, i) == Unshift(Combine(c, d).insertions, k)
  {
    UnshiftInserted(Erased(d.deletions, c.insertions), c.deletions, i);
    UnshiftErased(d.deletions, c.insertions, j);
    UnshiftInserted(Erased(c.insertions, d.deletions), d.insertions, k);
    UnshiftErased(c.insertions, d.deletions, j);
    assert d.deletions + c.insertions == c.insertions + d.deletions;
  }

  lemma {:induction false} InCombinedDeletions(c: ChangeSet, d: ChangeSet, i: nat)
    ensures i in Combine(c, d).deletions <==>
            i in c.deletions || c.Forward(i) in d.deletions
  {
    InShifted(Erased(d.deletions, c.insertions), c.deletions, i);
    InErased(d.deletions, c.insertions, Unshift(c.deletions, i));
  }

  lemma {:induction false} InCombinedInsertions(c: ChangeSet, d: ChangeSet, k: nat)
    ensures k in Combine(c, d).insertions <==>
            k in d.insertions || d.Backward(k) in c.insertions
  {
    InShifted(Erased(c.insertions, d.deletions), d.insertions, k);
    InErased(c.insertions, d.deletions, Unshift(d.insertions, k));
  }

  /** `Forward` and `Backward` are the two readings of `Keeps`. */
  lemma {:induction false} KeepsIsForward(c: ChangeSet, i: nat, j: nat)
    ensures c.Keeps(i, j) ==> c.Forward(i) == j && c.Backward(j) == i
    ensures i !in c.deletions ==> c.Keeps(i, c.Forward(i))
    ensures j !in c.insertions ==> c.Keeps(c.Backward(j), j)
  {
    if c.Keeps(i, j) {
      ShiftUnshift(c.insertions, j);
      ShiftUnshift(c.deletions, i);
    }
  }

  /** The survivors of both changes are exactly the survivors of each. */
  lemma {:induction false} KeepsComposes(c: ChangeSet, d: ChangeSet, i: nat, k: nat)
    ensures Combine(c, d).Keeps(i, k) <==> c.Keeps(i, d.Backward(k)) && d.Keeps(d.Backward(k), k)
  {
    var j := d.Backward(k);
    InCombinedDeletions(c, d, i);
    InCombinedInsertions(c, d, k);
    KeepsIsForward(d, j, k);
    if c.Keeps(i, j) && d.Keeps(j, k) {
      KeepsIsForward(c, i, j);
      RanksCompose(c, d, i, j, k);
    } else if Combine(c, d).Keeps(i, k) {
      var i' := c.Backward(j);
      KeepsIsForward(c, i', j);
      RanksCompose(c, d, i', j, k);
      InCombinedDeletions(c, d, i');
      UnshiftInjective(Combine(c, d).deletions, i, i');
    }
  }

  /** A kept row is a row of both versions or of neither. */
  lemma {:induction false} KeptInside(c: ChangeSet, old_: nat, new_: nat, i: nat, j: nat)
    requires Fits(c, old_, new_) && c.Keeps(i, j)
    ensures i < old_ <==> j < new_
  {
    if i < old_ {
      UnshiftMonotone(c.deletions, i, old_);
    } else {
      UnshiftMonotone(c.deletions, old_, i);
    }
    if j < new_ {
      UnshiftMonotone(c.insertions, j, new_);
    } else {
      UnshiftMonotone(c.insertions, new_, j);
    }
  }

  lemma {:induction false} CombineFits(c: ChangeSet, d: ChangeSet, old_: nat, mid: nat, new_: nat)
    requires Fits(c, old_, mid) && Fits(d, mid, new_)
    ensures Fits(Combine(c, d), old_, new_)
  {
    RanksCompose(c, d, old_, mid, new_);
    forall i | i in Combine(c, d).deletions
      ensures i < old_
    {
      InCombinedDeletions(c, d, i);
      if i !in c.deletions {
        KeepsIsForward(c, i, c.Forward(i));
        KeptInside(c, old_, mid, i, c.Forward(i));
      }
    }
    forall k | k in Combine(c, d).insertions
      ensures k < new_
    {
      InCombinedInsertions(c, d, k);
      if k !in d.insertions {
        KeepsIsForward(d, d.Backward(k), k);
        KeptInside(d, mid, new_, d.Backward(k), k);
      }
    }
  }

  /** Where a combined move comes from: through which row `j` of the middle version it passes. */
  ghost predicate Passes(c: ChangeSet, d: ChangeSet, m: Move, j: nat) {
    || (Move(m.from, j) in c.moves && Move(j, m.to) in d.moves)
    || (Move(m.from, j) in c.moves && d.Keeps(j, m.to))
    || (c.Keeps(m.from, j) && Move(j, m.to) in d.moves)
  }

  lemma {:induction false} CombinedMovePasses(c: ChangeSet, d: ChangeSet, m: Move) returns (j: nat)
    requires m in CombinedMoves(c, d)
    ensures Passes(c, d, m, j)
  {
    if p, n :| p in c.moves && n in d.moves && n.from == p.to && m == Move(p.from, n.to) {
      j := p.to;
      assert p == Move(m.from, j) && n == Move(j, m.to);
    } else if p :| p in c.moves && p.to !in d.deletions && m == Move(p.from, d.Forward(p.to)) {
      j := p.to;
      assert p == Move(m.from, j);
      KeepsIsForward(d, j, m.to);
    } else {
      var n :| n in d.moves && n.from !in c.insertions && m == Move(c.Backward(n.from), n.to);
      j := n.from;
      assert n == Move(j, m.to);
      KeepsIsForward(c, m.from, j);
    }
  }

  /** A row is reported as moved by both changes together exactly if one of them moved it and neither deleted it. */
  lemma {:induction false} CombinedMoveIff(c: ChangeSet, d: ChangeSet, m: Move)
    ensures m in Combine(c, d).moves <==> exists j :: Passes(c, d, m, j)
  {
    if m in Combine(c, d).moves {
      var j := CombinedMovePasses(c, d, m);
    }
    if j :| Passes(c, d, m, j) {
      KeepsIsForward(d, j, m.to);
      KeepsIsForward(c, m.from, j);
      if Move(m.from, j) in c.moves && Move(j, m.to) in d.moves {
        var p, n := Move(m.from, j), Move(j, m.to);
        assert m == Move(p.from, n.to);
      } else if Move(m.from, j) in c.moves {
        var p := Move(m.from, j);
        assert m == Move(p.from, d.Forward(p.to));
      } else {
        var n := Move(j, m.to);
        assert m == Move(c.Backward(n.from), n.to);
      }
    }
  }

  lemma {:induction false} CombineMovesValid(c: ChangeSet, d: ChangeSet)
    requires MovesValid(c) && MovesValid(d)
    ensures MovesValid(Combine(c, d))
  {
    forall m | m in CombinedMoves(c, d)
      ensures m.from in Combine(c, d).deletions && m.to in Combine(c, d).insertions
    {
      var j := CombinedMovePasses(c, d, m);
      InCombinedDeletions(c, d, m.from);
      InCombinedInsertions(c, d, m.to);
      KeepsIsForward(c, m.from, j);
      KeepsIsForward(d, j, m.to);
    }
    forall m, m' | m in CombinedMoves(c, d) && m' in CombinedMoves(c, d) && (m.from == m'.from || m.to == m'.to)
      ensures m == m'
    {
      var j := CombinedMovePasses(c, d, m);
      var j' := CombinedMovePasses(c, d, m');
      PassesOnce(c, d, m, j, m', j');
    }
  }

  /** Two rows that agree on one end of their way agree on all of it. */
  lemma {:induction false} PassesOnce(c: ChangeSet, d: ChangeSet, m: Move, j: nat, m': Move, j': nat)
    requires MovesValid(c) && MovesValid(d)
    requires Passes(c, d, m, j) && Passes(c, d, m', j')
    requires m.from == m'.from || m.to == m'.to
    ensures m == m' && j == j'
  {
    KeepsIsForward(c, m.from, j);
    KeepsIsForward(c, m'.from, j');
    KeepsIsForward(d, j, m.to);
    KeepsIsForward(d, j', m'.to);
  }

  lemma {:induction false} InCombinedModifications(c: ChangeSet, d: ChangeSet, j: nat, k: nat)
    requires d.Keeps(j, k)
    ensures j in c.modifications || k in d.modifications ==> k in Combine(c, d).modifications
  {
    InShifted(Erased(c.modifications, d.deletions), d.insertions, k);
    InErased(c.modifications, d.deletions, Unshift(d.insertions, k));
    KeepsIsForward(d, j, k);
  }

  lemma {:induction false} CombineKept(c: ChangeSet, d: ChangeSet, a: seq<Row>, b: seq<Row>, e: seq<Row>, i: nat,
                                       k: nat)
    requires Describes(c, a, b) && Describes(d, b, e)
    requires i < |a| && k < |e| && Combine(c, d).Keeps(i, k)
    ensures Matches(a[i], e[k], k in Combine(c, d).modifications)
  {
    var j := d.Backward(k);
    KeepsComposes(c, d, i, k);
    KeptInside(c, |a|, |b|, i, j);
    InCombinedModifications(c, d, j, k);
  }

  lemma {:induction false} CombineMoved(c: ChangeSet, d: ChangeSet, a: seq<Row>, b: seq<Row>, e: seq<Row>, m: Move)
    requires Describes(c, a, b) && Describes(d, b, e) && m in CombinedMoves(c, d)
    ensures m.from < |a| && m.to < |e|
    ensures Matches(a[m.from], e[m.to], m.to in Combine(c, d).modifications)
  {
    CombineFits(c, d, |a|, |b|, |e|);
    CombineMovesValid(c, d);
    assert m in Combine(c, d).moves;
    var j := CombinedMovePasses(c, d, m);
    if d.Keeps(j, m.to) {
      assert Move(m.from, j) in c.moves;
      KeptInside(d, |b|, |e|, j, m.to);
      InCombinedModifications(c, d, j, m.to);
    } else {
      assert Move(j, m.to) in d.moves;
      if c.Keeps(m.from, j) {
        KeptInside(c, |a|, |b|, m.from, j);
      }
      assert j in c.modifications ==> m.to in Carried(c, d);
    }
  }

  /**
   A row is reported as modified by both changes together exactly if the second modified it, or it was modified by
   the first and then kept its place or was moved (unless the first change had put it in as new).
   */
  lemma {:induction false} CombinedModifiedIff(c: ChangeSet, d: ChangeSet, k: nat)
    ensures k in Combine(c, d).modifications <==>
      || k in d.modifications
      || (exists j :: d.Keeps(j, k) && j in c.modifications)
      || (exists j :: Move(j, k) in d.moves && j in c.modifications && (j !in c.insertions || MovedTo(c, j)))
  {
    InShifted(Erased(c.modifications, d.deletions), d.insertions, k);
    InErased(c.modifications, d.deletions, Unshift(d.insertions, k));
    KeepsIsForward(d, d.Backward(k), k);
    if j :| d.Keeps(j, k) {
      KeepsIsForward(d, j, k);
    }
    if m :| m in d.moves && m.from in c.modifications && (m.from !in c.insertions || MovedTo(c, m.from)) && m.to == k {
      assert m == Move(m.from, k);
    }
  }

  lemma {:induction false} CombineModified(c: ChangeSet, d: ChangeSet, a: seq<Row>, b: seq<Row>, e: seq<Row>)
    requires Describes(c, a, b) && Describes(d, b, e)
    ensures forall k :: k in Combine(c, d).modifications ==> k < |e|
  {
    forall k | k in Shifted(Erased(c.modifications, d.deletions), d.insertions)
      ensures k < |e|
    {
      InShifted(Erased(c.modifications, d.deletions), d.insertions, k);
      InErased(c.modifications, d.deletions, Unshift(d.insertions, k));
      KeepsIsForward(d, d.Backward(k), k);
      KeptInside(d, |b|, |e|, d.Backward(k), k);
    }
  }

  /** Combining change sets composes the changes they describe. */
  lemma {:induction false} CombineDescribes(c: ChangeSet, d: ChangeSet, a: seq<Row>, b: seq<Row>, e: seq<Row>)
    requires Describes(c, a, b) && Describes(d, b, e)
    ensures Describes(Combine(c, d), a, e)
  {
    CombineFits(c, d, |a|, |b|, |e|);
    CombineMovesValid(c, d);
    CombineModified(c, d, a, b, e);
    forall i, k | 0 <= i < |a| && 0 <= k < |e| && Combine(c, d).Keeps(i, k)
      ensures Matches(a[i], e[k], k in Combine(c, d).modifications)
    {
      CombineKept(c, d, a, b, e, i, k);
    }
    forall m | m in Combine(c, d).moves
      ensures Matches(a[m.from], e[m.to], m.to in Combine(c, d).modifications)
    {
      CombineMoved(c, d, a, b, e, m);
    }
  }

  // ----- moves that turn out to be none -----

  /** The row would be at `to` without being moved. */
  predicate Stale(c: ChangeSet, m: Move) {
    Unshift(c.deletions, m.from) == Unshift(c.insertions, m.to)
  }

  function DropMove(c: ChangeSet, m: Move): ChangeSet {
    ChangeSet(c.deletions - {m.from}, c.insertions - {m.to}, c.modifications, c.moves - {m})
  }

  lemma {:induction false} CountDropped(s: set<nat>, x: nat, end: nat)
    requires x in s
    ensures Count(s, end) == Count(s - {x}, end) + if x < end then 1 else 0
    decreases end
  {
    if end > 0 {
      CountDropped(s, x, end - 1);
    }
  }

  /** Dropping a stale move keeps the row in place and every other survivor where it was. */
  lemma {:induction false} DropKeeps(c: ChangeSet, m: Move, i: nat, j: nat)
    requires m.from in c.deletions && m.to in c.insertions && Stale(c, m)
    ensures DropMove(c, m).Keeps(i, j) <==> c.Keeps(i, j) || (i == m.from && j == m.to)
  {
    CountDropped(c.deletions, m.from, i);
    CountDropped(c.insertions, m.to, j);
    if i != m.from {
      UnshiftMonotone(c.deletions, if i < m.from then i else m.from, if i < m.from then m.from else i);
    }
    if j != m.to {
      UnshiftMonotone(c.insertions, if j < m.to then j else m.to, if j < m.to then m.to else j);
    }
  }

  lemma {:induction false} DropDescribes(c: ChangeSet, m: Move, a: seq<Row>, b: seq<Row>)
    requires Describes(c, a, b) && m in c.moves && Stale(c, m)
    ensures Describes(DropMove(c, m), a, b)
  {
    CountDropped(c.deletions, m.from, |a|);
    CountDropped(c.insertions, m.to, |b|);
    var c' := DropMove(c, m);
    forall i, j | 0 <= i < |a| && 0 <= j < |b| && c'.Keeps(i, j)
      ensures Matches(a[i], b[j], j in c'.modifications)
    {
      DropKeeps(c, m, i, j);
    }
  }

  lemma DropMovesValid(c: ChangeSet, m: Move)
    requires MovesValid(c) && m in c.moves
    ensures MovesValid(DropMove(c, m))
  {
  }

  /** `clean_up_stale_moves`: the moves are looked at in order, each against what the earlier ones left. */
  function CleanUp(c: ChangeSet, order: seq<Move>): ChangeSet
    decreases |order|
  {
    if order == [] then c
    else CleanUp(if Stale(c, order[0]) then DropMove(c, order[0]) else c, order[1..])
  }

  /** An enumeration of moves, none twice. */
  ghost predicate Enumerates(order: seq<Move>, moves: set<Move>) {
    && (forall m :: m in order ==> m in moves)
    && (forall p, q :: 0 <= p < q < |order| ==> order[p] != order[q])
  }

  lemma {:induction false} CleanUpDescribes(c: ChangeSet, order: seq<Move>, a: seq<Row>, b: seq<Row>)
    requires Describes(c, a, b) && Enumerates(order, c.moves)
    ensures Describes(CleanUp(c, order), a, b)
    decreases |order|
  {
    if order != [] {
      var m, rest := order[0], order[1..];
      assert m in order;
      forall n | n in rest
        ensures n in order && n != m
      {
      }
      if Stale(c, m) {
        DropDescribes(c, m, a, b);
        CleanUpDescribes(DropMove(c, m), rest, a, b);
      } else {
        CleanUpDescribes(c, rest, a, b);
      }
    }
  }

  /** No move is a no-op: each row has another rank among the rows that stay than it would have without moving. */
  ghost predicate AllMove(c: ChangeSet) {
    forall m :: m in c.moves ==> Unshift(c.deletions, m.from) != Unshift(c.insertions, m.to)
  }

  /** Dropping a stale move makes no other move stale. */
  lemma {:induction false} DropUnstales(c: ChangeSet, m: Move, n: Move)
    requires MovesValid(c) && m in c.moves && n in c.moves && m != n && Stale(c, m)
    requires Unshift(c.deletions, n.from) != Unshift(c.insertions, n.to)
    ensures Unshift(c.deletions - {m.from}, n.from) != Unshift(c.insertions - {m.to}, n.to)
  {
    CountDropped(c.deletions, m.from, n.from);
    CountDropped(c.insertions, m.to, n.to);
    if m.from < n.from {
      UnshiftMonotone(c.deletions, m.from, n.from);
    } else {
      UnshiftMonotone(c.deletions, n.from, m.from);
    }
    if m.to < n.to {
      UnshiftMonotone(c.insertions, m.to, n.to);
    } else {
      UnshiftMonotone(c.insertions, n.to, m.to);
    }
  }

  /** After the clean-up no stale move is left among those looked at. */
  lemma {:induction false} CleanUpLeavesNone(c: ChangeSet, order: seq<Move>)
    requires MovesValid(c) && Enumerates(order, c.moves)
    requires forall m :: m in c.moves && m !in order ==> Unshift(c.deletions, m.from) != Unshift(c.insertions, m.to)
    ensures AllMove(CleanUp(c, order))
    decreases |order|
  {
    if order != [] {
      var m, rest := order[0], order[1..];
      assert m in order;
      forall n | n in rest
        ensures n in order && n != m
      {
      }
      var c' := if Stale(c, m) then DropMove(c, m) else c;
      DropMovesValid(c, m);
      forall n | n in c'.moves && n !in rest
        ensures Unshift(c'.deletions, n.from) != Unshift(c'.insertions, n.to)
      {
        if Stale(c, m) {
          DropUnstales(c, m, n);
        }
      }
      CleanUpLeavesNone(c', rest);
    }
  }

  /** The clean-up keeps a move exactly if it is not a no-op; it drops nothing else. */
  lemma {:induction false} CleanUpOnlyDrops(c: ChangeSet, order: seq<Move>)
    requires MovesValid(c) && Enumerates(order, c.moves)
    ensures var r := CleanUp(c, order);
      && r.moves <= c.moves && r.modifications == c.modifications
      && r.deletions == c.deletions - (set m | m in c.moves - r.moves :: m.from)
      && r.insertions == c.insertions - (set m | m in c.moves - r.moves :: m.to)
    decreases |order|
  {
    if order != [] {
      var m, rest := order[0], order[1..];
      assert m in order;
      forall n | n in rest
        ensures n in order && n != m
      {
      }
      if Stale(c, m) {
        DropMovesValid(c, m);
        CleanUpOnlyDrops(DropMove(c, m), rest);
        var r := CleanUp(c, order);
        assert c.moves - r.moves == (DropMove(c, m).moves - r.moves) + {m};
      } else {
        CleanUpOnlyDrops(c, rest);
      }
    }
  }

  // ----- what a true account is worth -----

  lemma {:induction false} UnshiftCountsOthers(indices: set<nat>, end: nat)
    ensures CountIn(indices, 0, end, false) == Unshift(indices, end)
  {
    if end > 0 {
      UnshiftCountsOthers(indices, end - 1);
    }
  }

  /** Deleting the deletions from the old version and the insertions from the new one leaves the same rows, in order. */
  lemma {:induction false} SurvivorsAgree(c: ChangeSet, a: seq<Row>, b: seq<Row>, r: nat)
    requires Describes(c, a, b)
    ensures |Select(a, c.deletions, 0, |a|, false)| == Unshift(c.deletions, |a|)
    ensures |Select(b, c.insertions, 0, |b|, false)| == Unshift(c.deletions, |a|)
    ensures r < Unshift(c.deletions, |a|) ==>
              Matches(Select(a, c.deletions, 0, |a|, false)[r], Select(b, c.insertions, 0, |b|, false)[r],
                      Shift(c.insertions, r) in c.modifications)
  {
    SelectLength(a, c.deletions, 0, |a|, false);
    SelectLength(b, c.insertions, 0, |b|, false);
    UnshiftCountsOthers(c.deletions, |a|);
    UnshiftCountsOthers(c.insertions, |b|);
    if r < Unshift(c.deletions, |a|) {
      var i, j := Shift(c.deletions, r), Shift(c.insertions, r);
      assert i < |a| && j < |b| by {
        if i >= |a| {
          UnshiftMonotone(c.deletions, |a|, i);
        }
        if j >= |b| {
          UnshiftMonotone(c.insertions, |b|, j);
        }
      }
      UnshiftCountsOthers(c.deletions, i);
      UnshiftCountsOthers(c.insertions, j);
      SelectAt(a, c.deletions, 0, |a|, false, i);
      SelectAt(b, c.insertions, 0, |b|, false, j);
      assert c.Keeps(i, j);
    }
  }
}
