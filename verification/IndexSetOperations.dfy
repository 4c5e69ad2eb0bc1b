/**
 The loops of `realm::IndexSet` over ascending indices, each proved against the
 set it stands for. The chunks and ranges in which the indices are stored are
 not part of this model.
 */
module IndexSetOperations {
  import opened Outcomes
  import opened Selections
  import opened IndexSets

  function Elements(s: seq<nat>): set<nat> {
    set x | x in s
  }

  /** Every element is below `x`. */
  predicate AllBelow(s: seq<nat>, x: nat) {
    forall y :: y in s ==> y < x
  }

  lemma {:induction false} PushAscending(s: seq<nat>, x: nat)
    requires StrictlyAscending(s) && AllBelow(s, x)
    ensures StrictlyAscending(s + [x]) && Elements(s + [x]) == Elements(s) + {x}
  {
    forall i, j | 0 <= i < j < |s + [x]|
      ensures (s + [x])[i] < (s + [x])[j]
    {
      assert s[i] in s;
    }
  }

  lemma PrefixGrows(s: seq<nat>, k: nat)
    requires k < |s|
    ensures Elements(s[..k + 1]) == Elements(s[..k]) + {s[k]}
  {
  }

  /** In an ascending sequence, the elements before the first one not below `x` are those below `x`. */
  lemma {:induction false} CountAt(s: IndexSet, j: nat, x: nat)
    requires j <= |s|
    requires j > 0 ==> s[j - 1] < x
    requires j < |s| ==> x <= s[j]
    ensures Count(Members(s), x) == j
    decreases x
  {
    if x > 0 {
      var y := x - 1;
      if j > 0 && s[j - 1] == y {
        CountAt(s, j - 1, y);
      } else {
        NotIn(s, j, y);
        CountAt(s, j, y);
      }
    }
  }

  lemma NotIn(s: IndexSet, j: nat, x: nat)
    requires j <= |s|
    requires j > 0 ==> s[j - 1] < x
    requires j < |s| ==> x < s[j]
    ensures x !in Members(s)
  {
  }

  /** A position that stands behind `j` indices and is none itself. */
  lemma {:induction false} ShiftAt(s: IndexSet, j: nat, x: nat)
    requires j <= |s|
    requires j > 0 ==> s[j - 1] < x + j
    requires j < |s| ==> x + j < s[j]
    ensures x + j !in Members(s) && Shift(Members(s), x) == x + j
  {
    CountAt(s, j, x + j);
    NotIn(s, j, x + j);
    ShiftUnshift(Members(s), x + j);
  }

  /** `shift(index)`. */
  method ShiftIndex(self: IndexSet, index: nat) returns (shifted: nat)
    ensures shifted == Shift(Members(self), index)
  {
    var k := 0;
    while k < |self| && self[k] <= index + k
      invariant k <= |self|
      invariant k > 0 ==> self[k - 1] < index + k
    {
      k := k + 1;
    }
    ShiftAt(self, k, index);
    return index + k;
  }

  /** One more index of the erased set: dropped if its position is erased, else appended. */
  lemma {:induction false} ErasePush(self: IndexSet, i: nat, gone: set<nat>, out: seq<nat>)
    requires i < |self| && StrictlyAscending(out) && Elements(out) == Erased(Elements(self[..i]), gone)
    ensures self[i] in gone ==> Elements(out) == Erased(Elements(self[..i + 1]), gone)
    ensures self[i] !in gone ==>
              var out' := out + [Unshift(gone, self[i])];
              StrictlyAscending(out') && Elements(out') == Erased(Elements(self[..i + 1]), gone)
  {
    PrefixGrows(self, i);
    if self[i] !in gone {
      forall x | x in out
        ensures x < Unshift(gone, self[i])
      {
        assert x in Elements(out);
        var p :| p in self[..i] && p !in gone && x == Unshift(gone, p);
        UnshiftInjective(gone, p, self[i]);
      }
      PushAscending(out, Unshift(gone, self[i]));
    }
  }

  /** One more index of the shifted set goes to the end. */
  lemma {:induction false} ShiftPush(self: IndexSet, i: nat, positions: set<nat>, out: seq<nat>)
    requires i < |self| && StrictlyAscending(out) && Elements(out) == Shifted(Elements(self[..i]), positions)
    ensures var out' := out + [Shift(positions, self[i])];
            StrictlyAscending(out') && Elements(out') == Shifted(Elements(self[..i + 1]), positions)
  {
    PrefixGrows(self, i);
    forall x | x in out
      ensures x < Shift(positions, self[i])
    {
      assert x in Elements(out);
      var p :| p in self[..i] && x == Shift(positions, p);
      UnshiftInjective(positions, x, Shift(positions, self[i]));
    }
    PushAscending(out, Shift(positions, self[i]));
  }

  /** `erase_at(positions)`: one pass over both sets. */
  method EraseAt(self: IndexSet, positions: IndexSet) returns (r: IndexSet)
    ensures Members(r) == Erased(Members(self), Members(positions))
  {
    ghost var gone := Members(positions);
    var out: seq<nat> := [];
    var i, shift := 0, 0;
    while i < |self|
      invariant i <= |self| && shift <= |positions|
      invariant shift > 0 && i < |self| ==> positions[shift - 1] < self[i]
      invariant StrictlyAscending(out) && Elements(out) == Erased(Elements(self[..i]), gone)
      decreases |self| - i + |positions| - shift
    {
      if shift < |positions| && positions[shift] < self[i] {
        shift := shift + 1;
      } else {
        ErasePush(self, i, gone, out);
        if shift < |positions| && self[i] == positions[shift] {
          shift := shift + 1;
        } else {
          NotIn(positions, shift, self[i]);
          CountAt(positions, shift, self[i]);
          out := out + [self[i] - shift];
        }
        i := i + 1;
      }
    }
    assert self[..i] == self;
    return out;
  }

  /** `shift_for_insert_at(positions)`: every position passed pushes the remaining indices back by one. */
  method ShiftForInsertAt(self: IndexSet, positions: IndexSet) returns (r: IndexSet)
    ensures Members(r) == Shifted(Members(self), Members(positions))
  {
    var out: seq<nat> := [];
    var i, shift := 0, 0;
    while i < |self|
      invariant i <= |self| && shift <= |positions|
      invariant shift > 0 && i < |self| ==> positions[shift - 1] < self[i] + shift
      invariant StrictlyAscending(out) && Elements(out) == Shifted(Elements(self[..i]), Members(positions))
      decreases |self| - i + |positions| - shift
    {
      if shift < |positions| && !(self[i] + shift < positions[shift]) {
        shift := shift + 1;
      } else {
        ShiftAt(positions, shift, self[i]);
        ShiftPush(self, i, Members(positions), out);
        out := out + [self[i] + shift];
        i := i + 1;
      }
    }
    assert self[..i] == self;
    return out;
  }

  /** Taking an index in the merge that inserts `positions`. */
  lemma {:induction false} MergeShifted(self: IndexSet, i: nat, positions: IndexSet, j: nat, out: seq<nat>)
    requires i < |self| && j <= |positions| && StrictlyAscending(out)
    requires Elements(out) == Elements(positions[..j]) + Shifted(Elements(self[..i]), Members(positions))
    requires AllBelow(out, Shift(Members(positions), self[i]))
    ensures var out' := out + [Shift(Members(positions), self[i])];
            && StrictlyAscending(out')
            && Elements(out') == Elements(positions[..j]) + Shifted(Elements(self[..i + 1]), Members(positions))
  {
    PrefixGrows(self, i);
    PushAscending(out, Shift(Members(positions), self[i]));
    assert Shifted(Elements(self[..i + 1]), Members(positions))
        == Shifted(Elements(self[..i]), Members(positions)) + {Shift(Members(positions), self[i])};
  }

  /** Taking a position in that merge. */
  lemma {:induction false} MergePosition(shifted: set<nat>, positions: IndexSet, j: nat, out: seq<nat>)
    requires j < |positions| && StrictlyAscending(out) && AllBelow(out, positions[j])
    requires Elements(out) == Elements(positions[..j]) + shifted
    ensures var out' := out + [positions[j]];
            StrictlyAscending(out') && Elements(out') == Elements(positions[..j + 1]) + shifted
  {
    PrefixGrows(positions, j);
    PushAscending(out, positions[j]);
  }

  /** `insert_at(positions)`: the same merge, the positions taken along. */
  method InsertAt(self: IndexSet, positions: IndexSet) returns (r: IndexSet)
    ensures Members(r) == Inserted(Members(self), Members(positions))
  {
    var out: seq<nat> := [];
    var i, shift := 0, 0;
    while i < |self| || shift < |positions|
      invariant i <= |self| && shift <= |positions|
      invariant shift > 0 && i < |self| ==> positions[shift - 1] < self[i] + shift
      invariant i < |self| ==> AllBelow(out, self[i] + shift)
      invariant shift < |positions| ==> AllBelow(out, positions[shift])
      invariant StrictlyAscending(out)
      invariant Elements(out) == Elements(positions[..shift]) + Shifted(Elements(self[..i]), Members(positions))
      decreases |self| - i + |positions| - shift
    {
      if i < |self| && (shift < |positions| ==> self[i] + shift < positions[shift]) {
        ShiftAt(positions, shift, self[i]);
        MergeShifted(self, i, positions, shift, out);
        out := out + [self[i] + shift];
        i := i + 1;
      } else {
        MergePosition(Shifted(Elements(self[..i]), Members(positions)), positions, shift, out);
        out := out + [positions[shift]];
        shift := shift + 1;
      }
    }
    assert self[..i] == self && positions[..shift] == positions;
    return out;
  }

  /** The state of the merge after `j` positions were taken among the `shifted` indices. */
  ghost predicate Merging(shifted: set<nat>, positions: IndexSet, j: nat, out: seq<nat>) {
    && j <= |positions|
    && StrictlyAscending(out)
    && (j < |positions| ==> AllBelow(out, positions[j]))
    && Elements(out) == Elements(positions[..j]) + shifted
  }

  /** The least number above all elements. */
  ghost function Top(s: IndexSet): nat {
    if s == [] then 0 else s[|s| - 1] + 1
  }

  /** Takes the positions that precede where `rank` will go. */
  method TakePositions(positions: IndexSet, j: nat, rank: nat, out: seq<nat>, ghost shifted: set<nat>)
    returns (j': nat, out': seq<nat>)
    requires Merging(shifted, positions, j, out) && AllBelow(out, rank + j)
    requires j > 0 ==> positions[j - 1] < rank + j
    ensures Merging(shifted, positions, j', out') && AllBelow(out', rank + j')
    ensures j' > 0 ==> positions[j' - 1] < rank + j'
    ensures j' < |positions| ==> rank + j' < positions[j']
  {
    j', out' := j, out;
    while j' < |positions| && positions[j'] <= rank + j'
      invariant Merging(shifted, positions, j', out') && AllBelow(out', rank + j')
      invariant j' > 0 ==> positions[j' - 1] < rank + j'
    {
      MergePosition(shifted, positions, j', out');
      out' := out' + [positions[j']];
      j' := j' + 1;
    }
  }

  method TakeRemaining(positions: IndexSet, j: nat, out: seq<nat>, ghost shifted: set<nat>) returns (r: IndexSet)
    requires Merging(shifted, positions, j, out)
    ensures Members(r) == Members(positions) + shifted
  {
    var j', out' := j, out;
    while j' < |positions|
      invariant Merging(shifted, positions, j', out')
    {
      MergePosition(shifted, positions, j', out');
      out' := out' + [positions[j']];
      j' := j' + 1;
    }
    assert positions[..j'] == positions;
    return out';
  }

  /** Where the next value ends up, and that it comes after everything taken so far. */
  lemma {:induction false} PushRank(ranks: IndexSet, rank: nat, positions: IndexSet, j: nat, out: seq<nat>)
    requires Merging(Shifted(Elements(ranks), Members(positions)), positions, j, out) && AllBelow(out, rank + j)
    requires j > 0 ==> positions[j - 1] < rank + j
    requires j < |positions| ==> rank + j < positions[j]
    ensures Merging(Shifted(Elements(ranks + [rank]), Members(positions)), positions, j, out + [rank + j])
  {
    ShiftAt(positions, j, rank);
    PushAscending(out, rank + j);
    assert Elements(ranks + [rank]) == Elements(ranks) + {rank};
    assert Shifted(Elements(ranks + [rank]), Members(positions))
        == Shifted(Elements(ranks), Members(positions)) + {rank + j};
  }

  /** The positions and the translated values taken so far, and room for a value above all of them. */
  ghost predicate Taking(positions: IndexSet, j: nat, ranks: IndexSet, out: seq<nat>) {
    && Merging(Shifted(Elements(ranks), Members(positions)), positions, j, out)
    && AllBelow(out, Top(ranks) + j)
    && (j > 0 ==> positions[j - 1] < Top(ranks) + j)
  }

  lemma {:induction false} TopBelow(ranks: IndexSet, rank: nat)
    requires StrictlyAscending(ranks + [rank])
    ensures Top(ranks) <= rank && Top(ranks + [rank]) == rank + 1
  {
    if ranks != [] {
      assert (ranks + [rank])[|ranks| - 1] < (ranks + [rank])[|ranks|];
    }
  }

  /** Takes one value, translated to `rank`, and the positions before it. */
  method TakeRank(positions: IndexSet, j: nat, rank: nat, out: seq<nat>, ghost ranks: IndexSet)
    returns (j': nat, out': seq<nat>)
    requires Taking(positions, j, ranks, out) && StrictlyAscending(ranks + [rank])
    ensures Taking(positions, j', ranks + [rank], out')
  {
    TopBelow(ranks, rank);
    j', out' := TakePositions(positions, j, rank, out, Shifted(Elements(ranks), Members(positions)));
    PushRank(ranks, rank, positions, j', out');
    out' := out' + [rank + j'];
  }

  /**
   `add_shifted_by(shiftedBy, values)`: translate each value back across `shiftedBy`, then forward across
   the set itself, and add it; both translations and the merge happen in one pass.
   */
  method AddShiftedBy(self: IndexSet, shiftedBy: IndexSet, values: IndexSet) returns (r: IndexSet)
    ensures Members(r) == Inserted(Erased(Members(values), Members(shiftedBy)), Members(self))
  {
    ghost var gone, ranks: IndexSet := Members(shiftedBy), [];
    var out: seq<nat> := [];
    var newShift: nat, oldShift: nat := 0, 0;
    for k := 0 to |values|
      invariant newShift <= |shiftedBy|
      invariant newShift > 0 && k < |values| ==> shiftedBy[newShift - 1] < values[k]
      invariant Elements(ranks) == Erased(Elements(values[..k]), gone)
      invariant Taking(self, oldShift, ranks, out)
    {
      var index := values[k];
      newShift := SkipBelow(shiftedBy, newShift, index);
      ErasePush(values, k, gone, ranks);
      if newShift < |shiftedBy| && shiftedBy[newShift] == index {
        newShift := newShift + 1;
        continue;
      }
      NotIn(shiftedBy, newShift, index);
      CountAt(shiftedBy, newShift, index);
      var rank := index - newShift;
      oldShift, out := TakeRank(self, oldShift, rank, out, ranks);
      ranks := ranks + [rank];
    }
    assert values[..|values|] == values;
    r := TakeRemaining(self, oldShift, out, Shifted(Elements(ranks), Members(self)));
  }

  /** The first index from `j` on that is not below `x`. */
  method SkipBelow(s: IndexSet, j: nat, x: nat) returns (j': nat)
    requires j <= |s| && (j > 0 ==> s[j - 1] < x)
    ensures j <= j' <= |s| && (j' > 0 ==> s[j' - 1] < x) && (j' < |s| ==> x <= s[j'])
  {
    j' := j;
    while j' < |s| && s[j'] < x
      invariant j <= j' <= |s| && (j' > 0 ==> s[j' - 1] < x)
    {
      j' := j' + 1;
    }
  }

  // ----- operations on a single index -----

  method Contains(self: IndexSet, index: nat) returns (found: bool)
    ensures found <==> index in Members(self)
  {
    var k := SkipBelow(self, 0, index);
    if k < |self| && self[k] == index {
      return true;
    }
    NotIn(self, k, index);
    return false;
  }

  /** `unshift(index)`, by way of `count(0, index)`. */
  method UnshiftIndex(self: IndexSet, index: nat) returns (unshifted: nat)
    ensures unshifted == Unshift(Members(self), index)
  {
    var k := SkipBelow(self, 0, index);
    CountAt(self, k, index);
    return index - k;
  }

  /** `add(index)`. */
  method Add(self: IndexSet, index: nat) returns (r: IndexSet)
    ensures Members(r) == Members(self) + {index}
  {
    var k := SkipBelow(self, 0, index);
    if k < |self| && self[k] == index {
      return self;
    }
    AddedBetween(self, k, index, self[..k] + [index] + self[k..]);
    return self[..k] + [index] + self[k..];
  }

  lemma {:induction false} AddedBetween(self: IndexSet, k: nat, index: nat, r: seq<nat>)
    requires k <= |self| && r == self[..k] + [index] + self[k..]
    requires k > 0 ==> self[k - 1] < index
    requires k < |self| ==> index < self[k]
    ensures StrictlyAscending(r) && Elements(r) == Elements(self) + {index}
  {
    ElementsOfPieces(self[..k], [index], self[k..]);
    ElementsOfPieces(self[..k], [], self[k..]);
    assert self[..k] + [] + self[k..] == self;
    forall i, j | 0 <= i < j < |r|
      ensures r[i] < r[j]
    {
      BetweenAscends(self, k, index, i, j);
    }
  }

  lemma ElementsOfPieces(a: seq<nat>, b: seq<nat>, c: seq<nat>)
    ensures Elements(a + b + c) == Elements(a) + Elements(b) + Elements(c)
  {
  }

  lemma BetweenAscends(self: IndexSet, k: nat, index: nat, i: nat, j: nat)
    requires k <= |self| && i < j <= |self|
    requires k > 0 ==> self[k - 1] < index
    requires k < |self| ==> index < self[k]
    ensures (self[..k] + [index] + self[k..])[i] < (self[..k] + [index] + self[k..])[j]
  {
  }

  /** `add(other)`. */
  method AddAll(self: IndexSet, other: IndexSet) returns (r: IndexSet)
    ensures Members(r) == Members(self) + Members(other)
  {
    r := self;
    for k := 0 to |other|
      invariant Members(r) == Members(self) + Elements(other[..k])
    {
      PrefixGrows(other, k);
      r := Add(r, other[k]);
    }
    assert other[..|other|] == other;
  }

  /** `remove(index)`: without shifting. */
  method Remove(self: IndexSet, index: nat) returns (r: IndexSet)
    ensures Members(r) == Members(self) - {index}
  {
    var k := SkipBelow(self, 0, index);
    if k == |self| || self[k] != index {
      NotIn(self, k, index);
      return self;
    }
    assert self == self[..k] + [index] + self[k + 1..];
    return self[..k] + self[k + 1..];
  }

  /** `remove(values)`. */
  method RemoveAll(self: IndexSet, values: IndexSet) returns (r: IndexSet)
    ensures Members(r) == Members(self) - Members(values)
  {
    r := self;
    for k := 0 to |values|
      invariant Members(r) == Members(self) - Elements(values[..k])
    {
      PrefixGrows(values, k);
      r := Remove(r, values[k]);
    }
    assert values[..|values|] == values;
  }

  /** `add_shifted(index)`: the index counted without the set's members; also returns where it went. */
  method AddShifted(self: IndexSet, index: nat) returns (r: IndexSet, shifted: nat)
    ensures shifted == Shift(Members(self), index)
    ensures Members(r) == Members(self) + {shifted}
  {
    shifted := ShiftIndex(self, index);
    r := Add(self, shifted);
  }

  /** `erase_or_unshift(index)`: `None` (npos) if the index was a member. */
  method EraseOrUnshift(self: IndexSet, index: nat) returns (r: IndexSet, shifted: Option<nat>)
    ensures Members(r) == Erased(Members(self), {index})
    ensures shifted == if index in Members(self) then None else Some(Unshift(Members(self), index))
  {
    r := EraseAt(self, [index]);
    assert Members([index]) == {index};
    var found := Contains(self, index);
    if found {
      return r, None;
    }
    var unshifted := UnshiftIndex(self, index);
    return r, Some(unshifted);
  }
}
