/** `CollectionChangeBuilder::merge`, its treatment of recorded moves first. */
module ChangeMerging {
  import opened Outcomes
  import opened Selections
  import opened IndexSetOperations
  import opened ChangeSets
  import opened RowChanges
  import opened StoredChanges

  // ----- moves of the first change set, seen through the second -----

  function Joined(moves: set<Move>, later: set<Move>): set<Move> {
    set m, n | m in moves && n in later && n.from == m.to :: Move(m.from, n.to)
  }

  function Targets(moves: seq<Move>): set<nat> {
    set m | m in moves :: m.to
  }

  /** The entry that starts at `from`, if any. */
  method FindSource(moves: seq<Move>, from: nat) returns (at: Option<nat>)
    requires DistinctSources(moves)
    ensures at.None? ==> forall m :: m in moves ==> m.from != from
    ensures at.Some? ==> at.value < |moves| && moves[at.value].from == from
  {
    var k := 0;
    while k < |moves|
      invariant k <= |moves|
      invariant forall m :: m in moves[..k] ==> m.from != from
    {
      if moves[k].from == from {
        return Some(k);
      }
      assert moves[..k + 1] == moves[..k] + [moves[k]];
      k := k + 1;
    }
    assert moves[..k] == moves;
    return None;
  }

  /** Overwrites the entry with the last one and drops that. */
  method SwapRemove(moves: seq<Move>, at: nat) returns (out: seq<Move>)
    requires DistinctSources(moves) && at < |moves|
    ensures DistinctSources(out) && MoveSet(out) == MoveSet(moves) - {moves[at]}
  {
    var last := |moves| - 1;
    out := moves[at := moves[last]][..last];
    forall m
      ensures m in out <==> m in moves && m != moves[at]
    {
      if m in moves && m != moves[at] {
        var p :| 0 <= p < |moves| && moves[p] == m;
        assert out[if p == last then at else p] == m;
      }
      if m in out {
        var p :| 0 <= p < |out| && out[p] == m;
        assert m == moves[if p == at then last else p];
      }
    }
  }

  /** The state after the moves `done` of the first change set were looked at: what became of them, */
  ghost predicate Kept(done: seq<Move>, d: ChangeSet, kept: seq<Move>) {
    && DistinctSources(kept) && Sources(kept) <= Sources(done)
    && MoveSet(kept) == Joined(MoveSet(done), d.moves) + Retargeted(MoveSet(done), d)
  }

  /** ... and which moves of the second are not joined to one of them, and what the joined ones carry along. */
  ghost predicate LeftOver(
    done: seq<Move>, d: ChangeSet, modified: set<nat>, rest: seq<Move>, modifications: set<nat>)
  {
    && DistinctSources(rest)
    && MoveSet(rest) == (set n | n in d.moves && n.from !in Targets(done))
    && modifications
       == d.modifications + (set n | n in d.moves && n.from in Targets(done) && n.from in modified :: n.to)
  }

  lemma {:induction false} KeepJoined(done: seq<Move>, m: Move, n: Move, d: ChangeSet, kept: seq<Move>)
    requires MovesValid(d) && Kept(done, d, kept)
    requires m.from !in Sources(done) && n in d.moves && n.from == m.to
    ensures Kept(done + [m], d, kept + [Move(m.from, n.to)])
  {
    var m' := Move(m.from, n.to);
    PushMove(done, m);
    PushMove(kept, m');
    assert forall k :: k in d.moves && k.from == m.to ==> k == n;
    assert Joined(MoveSet(done) + {m}, d.moves) == Joined(MoveSet(done), d.moves) + {m'};
    assert Retargeted(MoveSet(done) + {m}, d) == Retargeted(MoveSet(done), d);
  }

  lemma {:induction false} LeaveJoined(done: seq<Move>, m: Move, n: Move, d: ChangeSet, modified: set<nat>,
                                       rest: seq<Move>, rest': seq<Move>, modifications: set<nat>)
    requires MovesValid(d) && LeftOver(done, d, modified, rest, modifications)
    requires n in MoveSet(rest) && n.from == m.to
    requires DistinctSources(rest') && MoveSet(rest') == MoveSet(rest) - {n}
    ensures LeftOver(done + [m], d, modified, rest', modifications + if n.from in modified then {n.to} else {})
  {
    TargetsGrow(done, m);
    assert forall k :: k in d.moves && k.from == m.to ==> k == n;
  }

  lemma {:induction false} KeepUnjoined(done: seq<Move>, m: Move, d: ChangeSet, kept: seq<Move>)
    requires Kept(done, d, kept) && m.from !in Sources(done)
    requires forall n :: n in d.moves ==> n.from != m.to
    ensures m.to in d.deletions ==> Kept(done + [m], d, kept)
    ensures m.to !in d.deletions ==> Kept(done + [m], d, kept + [Move(m.from, d.Forward(m.to))])
  {
    var m' := Move(m.from, d.Forward(m.to));
    PushMove(done, m);
    PushMove(kept, m');
    assert Joined(MoveSet(done) + {m}, d.moves) == Joined(MoveSet(done), d.moves);
    assert Retargeted(MoveSet(done) + {m}, d)
        == Retargeted(MoveSet(done), d) + if m.to in d.deletions then {} else {m'};
  }

  lemma {:induction false} LeaveUnjoined(done: seq<Move>, m: Move, d: ChangeSet, modified: set<nat>, rest: seq<Move>,
                                         modifications: set<nat>)
    requires LeftOver(done, d, modified, rest, modifications) && m.to !in Targets(done)
    requires forall n :: n in rest ==> n.from != m.to
    ensures LeftOver(done + [m], d, modified, rest, modifications)
    ensures forall n :: n in d.moves ==> n.from != m.to
  {
    TargetsGrow(done, m);
    forall n | n in d.moves
      ensures n.from != m.to
    {
      assert n in MoveSet(rest) <==> n.from !in Targets(done);
    }
  }

  lemma TargetsGrow(done: seq<Move>, m: Move)
    ensures Targets(done + [m]) == Targets(done) + {m.to}
  {
  }

  /** One move recorded so far: it is joined to a later move of the same row, dropped with its row, or retargeted. */
  method UpdateMove(m: Move, modifications: IndexSet, c: Stored, kept: seq<Move>, rest: seq<Move>, modified: IndexSet,
                    ghost done: seq<Move>, ghost d: ChangeSet)
    returns (kept': seq<Move>, rest': seq<Move>, modified': IndexSet)
    requires c.Valid() && d == c.View() && m.from !in Sources(done) && m.to !in Targets(done)
    requires Kept(done, d, kept) && LeftOver(done, d, Members(modifications), rest, Members(modified))
    ensures Kept(done + [m], d, kept') && LeftOver(done + [m], d, Members(modifications), rest', Members(modified'))
  {
    kept', rest', modified' := kept, rest, modified;
    var at := FindSource(rest, m.to);
    if at.Some? {
      var n := rest[at.value];
      assert n in MoveSet(rest) && n in d.moves;
      rest' := SwapRemove(rest, at.value);
      KeepJoined(done, m, n, d, kept);
      LeaveJoined(done, m, n, d, Members(modifications), rest, rest', Members(modified));
      var wasModified := Contains(modifications, n.from);
      if wasModified {
        modified' := Add(modified, n.to);
      }
      kept' := kept + [Move(m.from, n.to)];
    } else {
      LeaveUnjoined(done, m, d, Members(modifications), rest, Members(modified));
      KeepUnjoined(done, m, d, kept);
      var deleted := Contains(c.deletions, m.to);
      if !deleted {
        var unshifted := UnshiftIndex(c.deletions, m.to);
        var shifted := ShiftIndex(c.insertions, unshifted);
        kept' := kept + [Move(m.from, shifted)];
      }
    }
  }

  /** All moves recorded so far; what the second change set's moves add is left over. */
  method UpdateMoves(moves: seq<Move>, modifications: IndexSet, c: Stored)
    returns (kept: seq<Move>, rest: seq<Move>, modified: IndexSet)
    requires DistinctSources(moves) && c.Valid()
    requires forall p, q :: 0 <= p < q < |moves| ==> moves[p].to != moves[q].to
    ensures Kept(moves, c.View(), kept)
    ensures LeftOver(moves, c.View(), Members(modifications), rest, Members(modified))
  {
    ghost var d := c.View();
    kept, rest, modified := [], c.moves, c.modifications;
    assert MoveSet(rest) == (set n | n in d.moves && n.from !in Targets([]));
    for k := 0 to |moves|
      invariant Kept(moves[..k], d, kept)
      invariant LeftOver(moves[..k], d, Members(modifications), rest, Members(modified))
    {
      Unvisited(moves, k);
      assert moves[..k + 1] == moves[..k] + [moves[k]];
      kept, rest, modified := UpdateMove(moves[k], modifications, c, kept, rest, modified, moves[..k], d);
    }
    assert moves[..|moves|] == moves;
  }

  lemma Unvisited(moves: seq<Move>, k: nat)
    requires k < |moves| && DistinctSources(moves)
    requires forall p, q :: 0 <= p < q < |moves| ==> moves[p].to != moves[q].to
    ensures moves[k].from !in Sources(moves[..k]) && moves[k].to !in Targets(moves[..k])
  {
  }

  // ----- moves of the second change set, seen from before the first -----

  /** The moves of rows that were not inserted, with their old positions, and the modifications they carry along. */
  ghost predicate Rebased(
    done: seq<Move>, c: ChangeSet, rebased: seq<Move>, before: set<nat>, modifications: set<nat>)
  {
    && DistinctSources(rebased)
    && MoveSet(rebased) == (set n | n in done && n.from !in c.insertions :: Move(c.Backward(n.from), n.to))
    && modifications
       == before + (set n | n in done && n.from !in c.insertions && n.from in c.modifications :: n.to)
  }

  lemma {:induction false} RebaseStep(done: seq<Move>, n: Move, c: ChangeSet, rebased: seq<Move>, before: set<nat>,
                                      modifications: set<nat>)
    requires Rebased(done, c, rebased, before, modifications) && n.from !in Sources(done)
    ensures n.from in c.insertions ==> Rebased(done + [n], c, rebased, before, modifications)
    ensures n.from !in c.insertions ==>
              Rebased(done + [n], c, rebased + [Move(c.Backward(n.from), n.to)], before,
                      modifications + if n.from in c.modifications then {n.to} else {})
  {
    var n' := Move(c.Backward(n.from), n.to);
    assert forall m :: m in done + [n] <==> m in done || m == n;
    PushMove(rebased, n');
    if n.from !in c.insertions {
      forall m' | m' in rebased
        ensures m'.from != n'.from
      {
        assert m' in MoveSet(rebased);
        var m :| m in done && m.from !in c.insertions && m' == Move(c.Backward(m.from), m.to);
        assert m.from in Sources(done);
        KeepsIsForward(c, c.Backward(m.from), m.from);
        KeepsIsForward(c, c.Backward(n.from), n.from);
      }
    }
  }

  method RebaseMoves(s: Stored, rest: seq<Move>, modified: IndexSet) returns (rebased: seq<Move>, modified': IndexSet)
    requires DistinctSources(rest)
    ensures Rebased(rest, s.View(), rebased, Members(modified), Members(modified'))
  {
    ghost var c := s.View();
    rebased, modified' := [], modified;
    for k := 0 to |rest|
      invariant Rebased(rest[..k], c, rebased, Members(modified), Members(modified'))
    {
      var n := rest[k];
      assert n.from !in Sources(rest[..k]) by {
        forall m | m in rest[..k]
          ensures m.from != n.from
        {
          var p :| 0 <= p < k && rest[p] == m;
        }
      }
      RebaseStep(rest[..k], n, c, rebased, Members(modified), Members(modified'));
      assert rest[..k + 1] == rest[..k] + [n];
      var inserted := Contains(s.insertions, n.from);
      if !inserted {
        var wasModified := Contains(s.modifications, n.from);
        if wasModified {
          modified' := Add(modified', n.to);
        }
        var unshifted := UnshiftIndex(s.insertions, n.from);
        var shifted := ShiftIndex(s.deletions, unshifted);
        rebased := rebased + [Move(shifted, n.to)];
      }
    }
    assert rest[..|rest|] == rest;
  }

  // ----- stale moves -----

  /** One pass over the moves; a stale one is removed together with its deletion and its insertion. */
  method CleanUpStaleMoves(s: Stored) returns (r: Stored)
    requires s.Valid()
    ensures r.Valid() && r.View() == CleanUp(s.View(), s.moves) && AllMove(r.View())
  {
    AllLookedAt(s);
    r := s;
    ghost var done: seq<Move> := [];
    assert s.moves[0..] == s.moves == done + s.moves[0..];
    for k := 0 to |s.moves|
      invariant r.moves == done + s.moves[k..] && Cleaning(r, s, k)
    {
      done, r := CleanUpMove(r, s, k, done);
    }
  }

  lemma {:induction false} AllLookedAt(s: Stored)
    requires s.Valid()
    ensures AllMove(CleanUp(s.View(), s.moves))
  {
    forall p, q | 0 <= p < q < |s.moves|
      ensures s.moves[p] != s.moves[q]
    {
      assert s.moves[p].from != s.moves[q].from;
    }
    CleanUpLeavesNone(s.View(), s.moves);
  }

  method CleanUpMove(now: Stored, s: Stored, k: nat, ghost done: seq<Move>) returns (ghost done': seq<Move>, r: Stored)
    requires k < |s.moves| && now.moves == done + s.moves[k..] && Cleaning(now, s, k)
    ensures r.moves == done' + s.moves[k + 1..] && Cleaning(r, s, k + 1)
  {
    var move := s.moves[k];
    var before := UnshiftIndex(now.deletions, move.from);
    var after := UnshiftIndex(now.insertions, move.to);
    assert now.moves == done + [move] + s.moves[k + 1..];
    if before != after {
      CleanKept(now, s, k);
      return done + [move], now;
    }
    var deletions := Remove(now.deletions, move.from);
    var insertions := Remove(now.insertions, move.to);
    var at := |now.moves| - (|s.moves| - k);
    assert now.moves[..at] == done && now.moves[at + 1..] == s.moves[k + 1..];
    r := Stored(deletions, insertions, now.modifications, now.moves[..at] + now.moves[at + 1..]);
    CleanDropped(now, s, k, done, r);
    return done, r;
  }

  /** Cleaning up from here, move `k` on, gives what cleaning up from the start gives. */
  ghost predicate Cleaning(now: Stored, s: Stored, k: nat) {
    now.Valid() && k <= |s.moves| && CleanUp(now.View(), s.moves[k..]) == CleanUp(s.View(), s.moves)
  }

  lemma CleanKept(now: Stored, s: Stored, k: nat)
    requires Cleaning(now, s, k) && k < |s.moves| && !Stale(now.View(), s.moves[k])
    ensures Cleaning(now, s, k + 1)
  {
  }

  lemma {:induction false} CleanDropped(now: Stored, s: Stored, k: nat, out: seq<Move>, next: Stored)
    requires Cleaning(now, s, k) && k < |s.moves| && now.moves == out + [s.moves[k]] + s.moves[k + 1..]
    requires Stale(now.View(), s.moves[k])
    requires next.moves == out + s.moves[k + 1..] && next.modifications == now.modifications
    requires Members(next.deletions) == Members(now.deletions) - {s.moves[k].from}
    requires Members(next.insertions) == Members(now.insertions) - {s.moves[k].to}
    ensures Cleaning(next, s, k + 1)
  {
    var m := s.moves[k];
    assert m in now.moves;
    DropMovesValid(now.View(), m);
    RemoveEntry(out, m, s.moves[k + 1..], now.moves, next.moves);
    assert next.View() == DropMove(now.View(), m);
    assert s.moves[k..][0] == m && s.moves[k..][1..] == s.moves[k + 1..];
  }

  lemma {:induction false} RemoveEntry(head: seq<Move>, m: Move, tail: seq<Move>, all: seq<Move>, others: seq<Move>)
    requires all == head + [m] + tail && others == head + tail && DistinctSources(all)
    ensures DistinctSources(others) && MoveSet(others) == MoveSet(all) - {m}
  {
    assert forall p :: 0 <= p < |others| ==> others[p] == all[if p < |head| then p else p + 1];
    assert all[|head|] == m;
    forall n | n in others
      ensures n != m
    {
      var p :| 0 <= p < |others| && others[p] == n;
      assert n == all[if p < |head| then p else p + 1];
    }
  }

  // ----- the merge -----

  /** Nothing recorded, or nothing to add: the other one; else the combined account, cleaned up in some order. */
  ghost predicate MergesTo(c: ChangeSet, d: ChangeSet, r: ChangeSet, order: seq<Move>) {
    if d.Empty() then r == c
    else if c.Empty() then r == d
    else
      && Enumerates(order, Combine(c, d).moves)
      && (forall m :: m in Combine(c, d).moves ==> m in order)
      && r == CleanUp(Combine(c, d), order)
  }

  /** Merging composes: a change from `a` to `b` and one from `b` to `e` become one from `a` to `e`. */
  lemma {:induction false} MergeDescribes(c: ChangeSet, d: ChangeSet, r: ChangeSet, order: seq<Move>, a: seq<Row>,
                                          b: seq<Row>, e: seq<Row>)
    requires Describes(c, a, b) && Describes(d, b, e) && MergesTo(c, d, r, order)
    ensures Describes(r, a, e)
  {
    if d.Empty() {
      EmptyMeansSame(d, b, e);
    } else if c.Empty() {
      EmptyMeansSame(c, a, b);
    } else {
      CombineDescribes(c, d, a, b, e);
      CleanUpDescribes(Combine(c, d), order, a, e);
    }
  }

  lemma {:induction false} EmptyMeansSame(c: ChangeSet, a: seq<Row>, b: seq<Row>)
    requires c.Empty() && Describes(c, a, b)
    ensures a == b
  {
    ForwardByNothing(|a|);
    ForwardByNothing(|b|);
    forall i | 0 <= i < |a|
      ensures a[i] == b[i]
    {
      assert c.Keeps(i, i);
    }
  }

  lemma {:induction false} CombinedEntries(s: Stored, c: Stored, kept: seq<Move>, rest: seq<Move>, rebased: seq<Move>,
                                           modified: set<nat>, modified': set<nat>)
    requires s.Valid() && c.Valid()
    requires Kept(s.moves, c.View(), kept)
    requires LeftOver(s.moves, c.View(), Members(s.modifications), rest, modified)
    requires Rebased(rest, s.View(), rebased, modified, modified')
    ensures MoveSet(kept + rebased) == CombinedMoves(s.View(), c.View()) && DistinctSources(kept + rebased)
  {
    TargetsAreInsertions(s);
    forall m
      ensures m in kept + rebased <==> m in CombinedMoves(s.View(), c.View())
    {
      assert m in kept <==> m in MoveSet(kept);
      assert m in rebased <==> m in MoveSet(rebased);
      assert forall n :: n in rest <==> n in MoveSet(rest);
    }
    forall p, q | 0 <= p < |kept| && 0 <= q < |rebased|
      ensures kept[p].from != rebased[q].from
    {
      assert kept[p] in kept && kept[p].from in Sources(s.moves);
      assert rebased[q] in MoveSet(rebased);
    }
  }

  lemma {:induction false} CombinedCarried(s: Stored, c: Stored, rest: seq<Move>, rebased: seq<Move>,
                                           modified: set<nat>, modified': set<nat>)
    requires s.Valid() && c.Valid()
    requires LeftOver(s.moves, c.View(), Members(s.modifications), rest, modified)
    requires Rebased(rest, s.View(), rebased, modified, modified')
    ensures modified' == c.View().modifications + Carried(s.View(), c.View())
  {
    TargetsAreInsertions(s);
    forall n | n in c.View().moves
      ensures n in rest <==> n.from !in Targets(s.moves)
      ensures MovedTo(s.View(), n.from) <==> n.from in Targets(s.moves)
    {
      assert n in rest <==> n in MoveSet(rest);
    }
    assert forall n :: n in rest ==> n in MoveSet(rest);
  }

  lemma TargetsAreInsertions(s: Stored)
    requires s.Valid()
    ensures Targets(s.moves) <= s.View().insertions && Sources(s.moves) <= s.View().deletions
    ensures forall p, q :: 0 <= p < q < |s.moves| ==> s.moves[p].to != s.moves[q].to
  {
  }

  /** The combined account, before stale moves are looked for. */
  method CombineStored(s: Stored, c: Stored) returns (r: Stored)
    requires s.Valid() && c.Valid()
    ensures r.Valid() && r.View() == Combine(s.View(), c.View())
  {
    TargetsAreInsertions(s);
    var kept, rest, modified := UpdateMoves(s.moves, s.modifications, c);
    var rebased, modified' := RebaseMoves(s, rest, modified);
    var deletions := AddShiftedBy(s.deletions, s.insertions, c.deletions);
    var erased := EraseAt(s.insertions, c.deletions);
    var insertions := InsertAt(erased, c.insertions);
    var remaining := EraseAt(s.modifications, c.deletions);
    var shifted := ShiftForInsertAt(remaining, c.insertions);
    var modifications := AddAll(shifted, modified');
    r := Stored(deletions, insertions, modifications, kept + rebased);
    CombinedEntries(s, c, kept, rest, rebased, Members(modified), Members(modified'));
    CombinedCarried(s, c, rest, rebased, Members(modified), Members(modified'));
    CombineMovesValid(s.View(), c.View());
    Assemble(r, Combine(s.View(), c.View()));
  }

  method MergeStored(s: Stored, c: Stored) returns (r: Stored, ghost order: seq<Move>)
    requires s.Valid() && c.Valid()
    ensures r.Valid() && MergesTo(s.View(), c.View(), r.View(), order)
    ensures !s.Empty() && !c.Empty() ==> AllMove(r.View())
  {
    EmptyViews(s);
    EmptyViews(c);
    if c.Empty() {
      return s, [];
    }
    if s.Empty() {
      return c, [];
    }
    var combined := CombineStored(s, c);
    order := combined.moves;
    r := CleanUpStaleMoves(combined);
  }

  lemma {:induction false} EmptyViews(s: Stored)
    ensures s.Empty() <==> s.View().Empty()
  {
    assert s.deletions != [] ==> s.deletions[0] in Members(s.deletions);
    assert s.insertions != [] ==> s.insertions[0] in Members(s.insertions);
    assert s.modifications != [] ==> s.modifications[0] in Members(s.modifications);
    assert s.moves != [] ==> s.moves[0] in MoveSet(s.moves);
  }
}
