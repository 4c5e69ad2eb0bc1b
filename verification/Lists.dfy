/**
 `RLMArray` (the storage primitive) and `List` (the bulk mutations built from
 single-element steps), RealmSwift/List.swift and Realm/RLMArray.mm.
 */
module Lists {
  import opened Outcomes
  import opened Selections

  /** The unmanaged `RLMArray`: a backing array with bounds-checked primitives. */
  class RlmArray<T> {
    var backing: seq<T>

    constructor ()
      ensures backing == []
    {
      backing := [];
    }

    method ObjectAt(index: nat) returns (element: Option<T>)
      ensures element == if index < |backing| then Some(backing[index]) else None
    {
      element := if index < |backing| then Some(backing[index]) else None;
    }

    method AddObject(element: T)
      modifies this
      ensures backing == old(backing) + [element]
    {
      var outcome := InsertObject(element, |backing|);
      assert outcome.Returned?;
    }

    method InsertObject(element: T, index: nat) returns (outcome: Outcome)
      modifies this
      ensures outcome.Returned? <==> index <= |old(backing)|
      ensures backing == if outcome.Returned? then InsertAt(old(backing), index, element) else old(backing)
    {
      if index >= |backing| + 1 {
        return Raised;
      }
      backing := backing[..index] + [element] + backing[index..];
      return Returned;
    }

    method RemoveObjectAt(index: nat) returns (outcome: Outcome)
      modifies this
      ensures outcome.Returned? <==> index < |old(backing)|
      ensures backing == if outcome.Returned? then RemoveAt(old(backing), index) else old(backing)
    {
      if index >= |backing| {
        return Raised;
      }
      backing := backing[..index] + backing[index + 1..];
      return Returned;
    }

    /** A no-op on an empty array. */
    method RemoveLastObject()
      modifies this
      ensures backing == if old(backing) == [] then [] else old(backing)[..|old(backing)| - 1]
    {
      var count := |backing|;
      if count != 0 {
        var outcome := RemoveObjectAt(count - 1);
        assert outcome.Returned?;
      }
    }

    method MoveObject(source: nat, destination: nat) returns (outcome: Outcome)
      modifies this
      ensures outcome.Returned? <==> source < |old(backing)| && destination < |old(backing)|
      ensures backing == if outcome.Returned? then MoveOne(old(backing), source, destination) else old(backing)
    {
      if source >= |backing| || destination >= |backing| {
        return Raised;
      }
      var original := backing[source];
      backing := backing[..source] + backing[source + 1..];
      backing := backing[..destination] + [original] + backing[destination..];
      return Returned;
    }
  }

  function InsertAt<T>(s: seq<T>, index: nat, x: T): seq<T>
    requires index <= |s|
  {
    s[..index] + [x] + s[index..]
  }

  function RemoveAt<T>(s: seq<T>, index: nat): seq<T>
    requires index < |s|
  {
    s[..index] + s[index + 1..]
  }

  /** The primitive move: remove at `source`, then insert at `destination` of what is left. */
  function MoveOne<T>(s: seq<T>, source: nat, destination: nat): seq<T>
    requires source < |s| && destination < |s|
  {
    InsertAt(RemoveAt(s, source), destination, s[source])
  }

  /** The elements of `lo ..< hi` replaced by `xs`. */
  function Splice<T>(s: seq<T>, lo: nat, hi: nat, xs: seq<T>): seq<T>
    requires lo <= hi <= |s|
  {
    s[..lo] + xs + s[hi..]
  }

  /** What `remove(atOffsets:)` promises: the elements at the other positions, in order. */
  function WithoutOffsets<T>(s: seq<T>, chosen: set<nat>): seq<T> {
    Select(s, chosen, 0, |s|, false)
  }

  /** What `move(fromOffsets:toOffset:)` promises. */
  function Moved<T>(s: seq<T>, chosen: set<nat>, destination: nat): seq<T>
    requires destination <= |s|
  {
    Select(s, chosen, 0, destination, false)
    + Select(s, chosen, 0, |s|, true)
    + Select(s, chosen, destination, |s|, false)
  }

  /** `lo ..< hi` is a range of positions of a list with `count` elements. */
  predicate RangeFits(count: nat, lo: int, hi: int) {
    0 <= lo <= hi <= count
  }

  /** What is left when removing `lo ..< hi` runs off the end: everything from `lo` on is gone already. */
  function Truncated<T>(s: seq<T>, lo: int, hi: int): seq<T> {
    if 0 <= lo <= |s| && lo < hi then s[..lo] else s
  }

  class List<T> {
    const rlmArray: RlmArray<T>

    constructor (rlmArray: RlmArray<T>)
      ensures this.rlmArray == rlmArray
    {
      this.rlmArray := rlmArray;
    }

    function Contents(): seq<T>
      reads rlmArray
    {
      rlmArray.backing
    }

    method Get(position: int) returns (element: Option<T>)
      ensures element == if 0 <= position < |Contents()| then Some(Contents()[position]) else None
    {
      if position < 0 {
        return None;
      }
      element := rlmArray.ObjectAt(position);
    }

    method Insert(element: T, index: int) returns (outcome: Outcome)
      modifies rlmArray
      ensures outcome.Returned? <==> 0 <= index <= |old(Contents())|
      ensures Contents() == if outcome.Returned? then InsertAt(old(Contents()), index, element) else old(Contents())
    {
      if index < 0 {
        return Raised;
      }
      outcome := rlmArray.InsertObject(element, index);
    }

    method Remove(index: int) returns (outcome: Outcome)
      modifies rlmArray
      ensures outcome.Returned? <==> 0 <= index < |old(Contents())|
      ensures Contents() == if outcome.Returned? then RemoveAt(old(Contents()), index) else old(Contents())
    {
      if index < 0 {
        return Raised;
      }
      outcome := rlmArray.RemoveObjectAt(index);
    }

    method Move(from: int, to: int) returns (outcome: Outcome)
      modifies rlmArray
      ensures outcome.Returned? <==> 0 <= from < |old(Contents())| && 0 <= to < |old(Contents())|
      ensures Contents() == if outcome.Returned? then MoveOne(old(Contents()), from, to) else old(Contents())
    {
      if from < 0 || to < 0 {
        return Raised;
      }
      outcome := rlmArray.MoveObject(from, to);
    }

    method AppendAll(elements: seq<T>)
      modifies rlmArray
      ensures Contents() == old(Contents()) + elements
    {
      for k := 0 to |elements|
        invariant Contents() == old(Contents()) + elements[..k]
      {
        rlmArray.AddObject(elements[k]);
      }
    }

    /**
     Removes `lo ..< hi` one by one at `lo` (the loop it shares with `removeSubrange`), then inserts
     `newElements`, back to front, at the fixed index `lo`.
     */
    method ReplaceSubrange(lo: int, hi: int, newElements: seq<T>) returns (outcome: Outcome)
      requires lo <= hi
      modifies rlmArray
      ensures outcome.Returned? <==> RangeFits(|old(Contents())|, lo, hi) || (lo == hi && newElements == [])
      ensures Contents() == if RangeFits(|old(Contents())|, lo, hi) then Splice(old(Contents()), lo, hi, newElements)
                            else Truncated(old(Contents()), lo, hi)
    {
      var k: nat := |newElements|;
      :- RemoveSubrange(lo, hi);
      ghost var rest := Contents();
      while k > 0
        invariant k <= |newElements|
        invariant k < |newElements| ==> 0 <= lo <= |rest|
        invariant Contents() == if k == |newElements| then rest else rest[..lo] + newElements[k..] + rest[lo..]
      {
        k := k - 1;
        ghost var before := Contents();
        :- Insert(newElements[k], lo);
        InsertedInFront(rest, lo, newElements, k, before, Contents());
      }
      return Returned;
    }

    method RemoveSubrange(lo: int, hi: int) returns (outcome: Outcome)
      requires lo <= hi
      modifies rlmArray
      ensures outcome.Returned? <==> RangeFits(|old(Contents())|, lo, hi) || lo == hi
      ensures Contents() == if RangeFits(|old(Contents())|, lo, hi) then Splice(old(Contents()), lo, hi, [])
                            else Truncated(old(Contents()), lo, hi)
    {
      ghost var s := Contents();
      for removed := 0 to hi - lo
        invariant removed > 0 ==> 0 <= lo && lo + removed <= |s|
        invariant Contents() == if removed == 0 then s else s[..lo] + s[lo + removed..]
      {
        var step := Remove(lo);
        if step.Raised? {
          return Raised;
        }
      }
      return Returned;
    }

    /** All or nothing: no inner removal fails once the count was checked. */
    method RemoveFirst(number: int) returns (outcome: Outcome)
      modifies rlmArray
      ensures outcome.Returned? <==> 0 <= number <= |old(Contents())|
      ensures Contents() == if outcome.Returned? then old(Contents())[number..] else old(Contents())
    {
      if number < 0 {
        return Raised;
      }
      var count := |rlmArray.backing|;
      if !(number <= count) {
        return Raised;
      }
      for k := 0 to number
        invariant Contents() == old(Contents())[k..]
      {
        outcome := rlmArray.RemoveObjectAt(0);
        assert outcome.Returned?;
      }
      return Returned;
    }

    method RemoveLast(number: int) returns (outcome: Outcome)
      modifies rlmArray
      ensures outcome.Returned? <==> 0 <= number <= |old(Contents())|
      ensures Contents() == if outcome.Returned? then old(Contents())[..|old(Contents())| - number] else old(Contents())
    {
      if number < 0 {
        return Raised;
      }
      var count := |rlmArray.backing|;
      if !(number <= count) {
        return Raised;
      }
      for k := 0 to number
        invariant Contents() == old(Contents())[..count - k]
      {
        rlmArray.RemoveLastObject();
      }
      return Returned;
    }

    /** Inserts front to back at a moving index. */
    method InsertContents(newElements: seq<T>, i: int) returns (outcome: Outcome)
      modifies rlmArray
      ensures outcome.Returned? <==> 0 <= i <= |old(Contents())| || newElements == []
      ensures Contents() == if 0 <= i <= |old(Contents())| then Splice(old(Contents()), i, i, newElements)
                            else old(Contents())
    {
      ghost var s := Contents();
      var currentIndex := i;
      for k := 0 to |newElements|
        invariant currentIndex == i + k
        invariant k > 0 ==> 0 <= i <= |s|
        invariant Contents() == if k == 0 then s else s[..i] + newElements[..k] + s[i..]
      {
        assert newElements[..k + 1] == newElements[..k] + [newElements[k]];
        :- Insert(newElements[k], currentIndex);
        currentIndex := currentIndex + 1;
      }
      return Returned;
    }

    /** Removes back to front, so an offset out of bounds is met before anything changed. */
    method RemoveAtOffsets(offsets: IndexSet) returns (outcome: Outcome)
      modifies rlmArray
      ensures outcome.Returned? <==> Within(offsets, |old(Contents())|)
      ensures Contents() == if outcome.Returned? then WithoutOffsets(old(Contents()), Members(offsets))
                            else old(Contents())
    {
      ghost var s, chosen := Contents(), Members(offsets);
      assert s[..|s|] + Select(s, chosen, |s|, |s|, false) == s;
      var k: nat := |offsets|;
      while k > 0
        invariant k <= |offsets|
        invariant k < |offsets| ==> Within(offsets, |s|)
        invariant Bound(offsets, k, |s|) <= |s| && Contents() == Pruned(s, chosen, Bound(offsets, k, |s|))
      {
        k := k - 1;
        if offsets[k] < |s| {
          if k + 1 == |offsets| {
            LastBounds(offsets, |s|);
          }
          Gap(offsets, k, |s|);
          PruneStep(s, chosen, offsets[k], Bound(offsets, k + 1, |s|));
        } else {
          assert offsets[k] in offsets;
        }
        :- Remove(offsets[k]);
      }
      FirstGap(offsets, |s|);
      PrunedAll(s, chosen, Bound(offsets, 0, |s|));
      return Returned;
    }

    /** Copies the chosen elements in front of `destination`, then removes the originals back to front. */
    method MoveOffsets(offsets: IndexSet, destination: int) returns (outcome: Outcome)
      modifies rlmArray
      ensures outcome.Returned? <==>
              offsets == [] || (Within(offsets, |old(Contents())|) && 0 <= destination <= |old(Contents())|)
      ensures Contents() == if outcome.Returned? && offsets != []
                            then Moved(old(Contents()), Members(offsets), destination) else old(Contents())
    {
      var chosen := CopyAtOffsets(offsets);
      if chosen.None? {
        return Raised;
      }
      var tmp := chosen.value;
      :- InsertContents(tmp, destination);
      if offsets != [] {
        RemoveOriginals(old(Contents()), offsets, destination, tmp);
      }
      return Returned;
    }

    /** First part of the move: read the chosen elements; nothing is written. */
    method CopyAtOffsets(offsets: IndexSet) returns (tmp: Option<seq<T>>)
      ensures tmp == if Within(offsets, |Contents()|)
                     then Some(Select(Contents(), Members(offsets), 0, |Contents()|, true)) else None
      ensures tmp.Some? ==> |tmp.value| == |offsets|
    {
      var copies: seq<T> := [];
      for k := 0 to |offsets|
        invariant |copies| == k
        invariant forall j :: 0 <= j < k ==> offsets[j] < |Contents()| && copies[j] == Contents()[offsets[j]]
      {
        var element := Get(offsets[k]);
        if element.None? {
          assert offsets[k] in offsets;
          return None;
        }
        copies := copies + [element.value];
      }
      GatheredIsSelect(Contents(), offsets, copies);
      return Some(copies);
    }

    /** Last part of the move: remove the originals, skipping over the copies. */
    method RemoveOriginals(ghost s: seq<T>, offsets: IndexSet, destination: nat, tmp: seq<T>)
      requires Within(offsets, |s|) && destination <= |s|
      requires tmp == Select(s, Members(offsets), 0, |s|, true)
      requires Contents() == Splice(s, destination, destination, tmp)
      modifies rlmArray
      ensures Contents() == Moved(s, Members(offsets), destination)
    {
      ghost var chosen := Members(offsets);
      MoveStart(s, chosen, destination, |s|);
      var k: nat := |offsets|;
      while k > 0
        invariant k <= |offsets|
        invariant Bound(offsets, k, |s|) <= |s|
        invariant Contents() == MovePruned(s, chosen, destination, Bound(offsets, k, |s|))
      {
        k := k - 1;
        var o := offsets[k];
        if o >= destination {
          o := o + |tmp|;
        }
        Gap(offsets, k, |s|);
        MoveStep(s, chosen, destination, offsets[k], Bound(offsets, k + 1, |s|), tmp, Contents(),
                 MovePruned(s, chosen, destination, offsets[k]));
        var outcome := Remove(o);
        assert outcome.Returned?;
      }
      FirstGap(offsets, |s|);
      MovePrunedAll(s, chosen, destination, Bound(offsets, 0, |s|));
    }
  }

  // ----- the removal loops, one step at a time -----

  /** The positions below this bound are untouched while the offsets `k..` have been removed. */
  ghost function Bound(offsets: IndexSet, k: nat, count: nat): nat
    requires k <= |offsets|
  {
    if k == |offsets| then count else offsets[k]
  }

  /** The last offset bounds them all. */
  lemma LastBounds(offsets: IndexSet, count: nat)
    requires offsets == [] || offsets[|offsets| - 1] < count
    ensures Within(offsets, count)
  {
  }

  /** Nothing between an offset and the next one is chosen. */
  lemma {:induction false} Gap(offsets: IndexSet, k: nat, count: nat)
    requires Within(offsets, count) && k < |offsets|
    ensures offsets[k] in Members(offsets) && offsets[k] < Bound(offsets, k + 1, count) <= count
    ensures forall p :: offsets[k] < p < Bound(offsets, k + 1, count) ==> p !in Members(offsets)
  {
    assert offsets[k] in offsets;
    assert k + 1 < |offsets| ==> offsets[k + 1] in offsets;
  }

  /** Nothing before the first offset is chosen. */
  lemma {:induction false} FirstGap(offsets: IndexSet, count: nat)
    requires Within(offsets, count)
    ensures Bound(offsets, 0, count) <= count
    ensures forall p :: 0 <= p < Bound(offsets, 0, count) ==> p !in Members(offsets)
  {
    assert offsets != [] ==> offsets[0] in offsets;
  }

  /** The list once the chosen positions from `b` on are gone. */
  ghost function Pruned<T>(s: seq<T>, chosen: set<nat>, b: nat): seq<T>
    requires b <= |s|
  {
    s[..b] + Select(s, chosen, b, |s|, false)
  }

  /** The same with the copies standing in front of position `d`. */
  ghost function MovePruned<T>(s: seq<T>, chosen: set<nat>, d: nat, b: nat): seq<T>
    requires b <= |s| && d <= |s|
  {
    var tmp := Select(s, chosen, 0, |s|, true);
    if d <= b then s[..d] + tmp + (s[d..b] + Select(s, chosen, b, |s|, false))
    else s[..b] + (Select(s, chosen, b, d, false) + tmp + Select(s, chosen, d, |s|, false))
  }

  lemma {:induction false} PruneStep<T>(s: seq<T>, chosen: set<nat>, o: nat, b: nat)
    requires o < b <= |s| && o in chosen
    requires forall p :: o < p < b ==> p !in chosen
    ensures RemoveAt(Pruned(s, chosen, b), o) == Pruned(s, chosen, o)
  {
    SelectAfter(s, chosen, o, b, |s|);
    RemoveFromPrefix(s, o, b, Select(s, chosen, b, |s|, false));
  }

  /** From a chosen position on: the gap, then the rest. */
  lemma {:induction false} SelectAfter<T>(s: seq<T>, chosen: set<nat>, o: nat, b: nat, hi: nat)
    requires o < b <= hi <= |s| && o in chosen
    requires forall p :: o < p < b ==> p !in chosen
    ensures Select(s, chosen, o, hi, false) == s[o + 1..b] + Select(s, chosen, b, hi, false)
  {
    SelectNone(s, chosen, o, o + 1, false);
    SelectWhole(s, chosen, o + 1, b, false);
    SelectSplits(s, chosen, o, o + 1, b, false);
    SelectSplits(s, chosen, o, b, hi, false);
  }

  lemma {:induction false} PrunedAll<T>(s: seq<T>, chosen: set<nat>, b: nat)
    requires b <= |s|
    requires forall p :: 0 <= p < b ==> p !in chosen
    ensures Pruned(s, chosen, b) == WithoutOffsets(s, chosen)
  {
    SelectSplits(s, chosen, 0, b, |s|, false);
    SelectWhole(s, chosen, 0, b, false);
  }

  /** The elements read one by one are the chosen ones. */
  lemma {:induction false} GatheredIsSelect<T>(s: seq<T>, offsets: IndexSet, tmp: seq<T>)
    requires |tmp| == |offsets|
    requires forall j :: 0 <= j < |tmp| ==> offsets[j] < |s| && tmp[j] == s[offsets[j]]
    ensures Within(offsets, |s|) && tmp == Select(s, Members(offsets), 0, |s|, true)
  {
    assert Within(offsets, |s|);
    GatheredSoFar(s, offsets, tmp, |offsets|);
    assert tmp[..|tmp|] == tmp;
  }

  lemma {:induction false} GatheredSoFar<T>(s: seq<T>, offsets: IndexSet, tmp: seq<T>, k: nat)
    requires k <= |tmp| == |offsets| && Within(offsets, |s|)
    requires forall j :: 0 <= j < |tmp| ==> offsets[j] < |s| && tmp[j] == s[offsets[j]]
    ensures Bound(offsets, k, |s|) <= |s|
    ensures Select(s, Members(offsets), 0, Bound(offsets, k, |s|), true) == tmp[..k]
  {
    if k == 0 {
      FirstGap(offsets, |s|);
      SelectNone(s, Members(offsets), 0, Bound(offsets, 0, |s|), true);
    } else {
      GatheredSoFar(s, offsets, tmp, k - 1);
      Gap(offsets, k - 1, |s|);
      GatherStep(s, Members(offsets), offsets[k - 1], Bound(offsets, k, |s|));
      assert tmp[..k] == tmp[..k - 1] + [tmp[k - 1]];
    }
  }

  lemma {:induction false} GatherStep<T>(s: seq<T>, chosen: set<nat>, o: nat, b: nat)
    requires o < b <= |s| && o in chosen
    requires forall p :: o < p < b ==> p !in chosen
    ensures Select(s, chosen, 0, b, true) == Select(s, chosen, 0, o, true) + [s[o]]
  {
    SelectSplits(s, chosen, 0, o + 1, b, true);
    SelectNone(s, chosen, o + 1, b, true);
  }

  /** Inserting the copies is the state of the move before any original is removed. */
  lemma MoveStart<T>(s: seq<T>, chosen: set<nat>, d: nat, count: nat)
    requires d <= |s| == count
    ensures MovePruned(s, chosen, d, count) == Splice(s, d, d, Select(s, chosen, 0, |s|, true))
  {
  }

  /** Removing one original; the cases are where it and the next bound lie relative to the destination. */
  lemma {:induction false} MoveStep<T>(s: seq<T>, chosen: set<nat>, d: nat, o: nat, b: nat, tmp: seq<T>,
                                       before: seq<T>, after: seq<T>)
    requires d <= |s| && o < b <= |s| && o in chosen && tmp == Select(s, chosen, 0, |s|, true)
    requires forall p :: o < p < b ==> p !in chosen
    requires before == MovePruned(s, chosen, d, b) && after == MovePruned(s, chosen, d, o)
    ensures var at := if o >= d then o + |tmp| else o;
            at < |before| && RemoveAt(before, at) == after
  {
    if d <= o {
      MoveStepBehind(s, chosen, d, o, b, tmp, before, after);
    } else if d <= b {
      MoveStepAcross(s, chosen, d, o, b, tmp, before, after);
    } else {
      MoveStepInFront(s, chosen, d, o, b, tmp, before, after);
    }
  }

  lemma {:induction false} MoveStepBehind<T>(s: seq<T>, chosen: set<nat>, d: nat, o: nat, b: nat, tmp: seq<T>,
                                             before: seq<T>, after: seq<T>)
    requires d <= o < b <= |s| && o in chosen && tmp == Select(s, chosen, 0, |s|, true)
    requires forall p :: o < p < b ==> p !in chosen
    requires before == MovePruned(s, chosen, d, b) && after == MovePruned(s, chosen, d, o)
    ensures o + |tmp| < |before| && RemoveAt(before, o + |tmp|) == after
  {
    SelectAfter(s, chosen, o, b, |s|);
    RemoveBehind(s, d, o, b, tmp, Select(s, chosen, b, |s|, false), Select(s, chosen, o, |s|, false), before, after);
  }

  lemma {:induction false} MoveStepAcross<T>(s: seq<T>, chosen: set<nat>, d: nat, o: nat, b: nat, tmp: seq<T>,
                                             before: seq<T>, after: seq<T>)
    requires o < d <= b <= |s| && o in chosen && tmp == Select(s, chosen, 0, |s|, true)
    requires forall p :: o < p < b ==> p !in chosen
    requires before == MovePruned(s, chosen, d, b) && after == MovePruned(s, chosen, d, o)
    ensures o < |before| && RemoveAt(before, o) == after
  {
    SelectAfter(s, chosen, o, d, d);
    SelectSplits(s, chosen, d, b, |s|, false);
    SelectWhole(s, chosen, d, b, false);
    RemoveInFront(s, o, d, tmp, Select(s, chosen, d, |s|, false), Select(s, chosen, o, d, false), before, after);
  }

  lemma {:induction false} MoveStepInFront<T>(s: seq<T>, chosen: set<nat>, d: nat, o: nat, b: nat, tmp: seq<T>,
                                              before: seq<T>, after: seq<T>)
    requires o < b < d <= |s| && o in chosen && tmp == Select(s, chosen, 0, |s|, true)
    requires forall p :: o < p < b ==> p !in chosen
    requires before == MovePruned(s, chosen, d, b) && after == MovePruned(s, chosen, d, o)
    ensures o < |before| && RemoveAt(before, o) == after
  {
    SelectAfter(s, chosen, o, b, d);
    RemoveFarInFront(s, o, b, Select(s, chosen, b, d, false), tmp, Select(s, chosen, d, |s|, false),
                     Select(s, chosen, o, d, false), before, after);
  }

  // Rearrangements of sequence pieces, with nothing about choices in sight.

  lemma InsertedInFront<T>(s: seq<T>, lo: nat, xs: seq<T>, k: nat, before: seq<T>, after: seq<T>)
    requires lo <= |s| && k < |xs|
    requires before == if k + 1 == |xs| then s else s[..lo] + xs[k + 1..] + s[lo..]
    requires after == InsertAt(before, lo, xs[k])
    ensures after == s[..lo] + xs[k..] + s[lo..]
  {
  }

  lemma RemoveBehind<T>(
    s: seq<T>, d: nat, o: nat, b: nat, tmp: seq<T>, rest: seq<T>, rest': seq<T>, before: seq<T>, after: seq<T>)
    requires d <= o < b <= |s| && rest' == s[o + 1..b] + rest
    requires before == s[..d] + tmp + (s[d..b] + rest)
    requires after == s[..d] + tmp + (s[d..o] + rest')
    ensures o + |tmp| < |before| && RemoveAt(before, o + |tmp|) == after
  {
  }

  lemma RemoveInFront<T>(
    s: seq<T>, o: nat, d: nat, tmp: seq<T>, rest: seq<T>, gap: seq<T>, before: seq<T>, after: seq<T>)
    requires o < d <= |s| && gap == s[o + 1..d] + []
    requires before == s[..d] + tmp + rest && after == s[..o] + (gap + tmp + rest)
    ensures o < |before| && RemoveAt(before, o) == after
  {
  }

  lemma RemoveFarInFront<T>(
    s: seq<T>, o: nat, b: nat, mid: seq<T>, tmp: seq<T>, rest: seq<T>, gap: seq<T>, before: seq<T>, after: seq<T>)
    requires o < b <= |s| && gap == s[o + 1..b] + mid
    requires before == s[..b] + (mid + tmp + rest) && after == s[..o] + (gap + tmp + rest)
    ensures o < |before| && RemoveAt(before, o) == after
  {
  }

  lemma RemoveFromPrefix<T>(s: seq<T>, o: nat, b: nat, rest: seq<T>)
    requires o < b <= |s|
    ensures RemoveAt(s[..b] + rest, o) == s[..o] + (s[o + 1..b] + rest)
  {
  }

  lemma {:induction false} MovePrunedAll<T>(s: seq<T>, chosen: set<nat>, d: nat, b: nat)
    requires b <= |s| && d <= |s|
    requires forall p :: 0 <= p < b ==> p !in chosen
    ensures MovePruned(s, chosen, d, b) == Moved(s, chosen, d)
  {
    if d <= b {
      SelectWhole(s, chosen, 0, d, false);
      SelectSplits(s, chosen, d, b, |s|, false);
      SelectWhole(s, chosen, d, b, false);
    } else {
      SelectSplits(s, chosen, 0, b, d, false);
      SelectWhole(s, chosen, 0, b, false);
    }
  }

  // ----- laws of the bulk mutations -----

  /** `t` is `s` with the chosen elements moved in front of `d`. */
  ghost predicate MovesTo<T>(s: seq<T>, chosen: set<nat>, d: nat, t: seq<T>) {
    d <= |s| && t == Moved(s, chosen, d)
  }

  /** A move loses, invents and duplicates nothing. */
  lemma {:induction false} MoveKeepsElements<T>(s: seq<T>, chosen: set<nat>, d: nat)
    requires d <= |s|
    ensures multiset(Moved(s, chosen, d)) == multiset(s) && |Moved(s, chosen, d)| == |s|
  {
    SelectPartitions(s, chosen, 0, |s|, s, Select(s, chosen, 0, |s|, true), Select(s, chosen, 0, |s|, false));
    SelectSplits(s, chosen, 0, d, |s|, false);
    assert |multiset(s)| == |multiset(Moved(s, chosen, d))|;
  }

  /** Where each element goes: behind the chosen ones it follows and the others on its side of the destination. */
  function Destination(count: nat, chosen: set<nat>, d: nat, k: nat): nat
    requires k < count && d <= count
  {
    if k in chosen then CountIn(chosen, 0, d, false) + CountIn(chosen, 0, k, true)
    else CountIn(chosen, 0, k, false) + if k < d then 0 else CountIn(chosen, 0, count, true)
  }

  lemma {:induction false} MovedAt<T>(s: seq<T>, chosen: set<nat>, d: nat, moved: seq<T>, k: nat)
    requires MovesTo(s, chosen, d, moved) && k < |s|
    ensures Destination(|s|, chosen, d, k) < |moved| == |s| && moved[Destination(|s|, chosen, d, k)] == s[k]
  {
    MovedLength(s, chosen, d, moved);
    var a, b, c := Select(s, chosen, 0, d, false), Select(s, chosen, 0, |s|, true), Select(s, chosen, d, |s|, false);
    SelectLength(s, chosen, 0, d, false);
    SelectLength(s, chosen, 0, |s|, true);
    if k in chosen {
      SelectAt(s, chosen, 0, |s|, true, k);
      OneOfThree(a, b, c, moved, 1, CountIn(chosen, 0, k, true));
    } else if k < d {
      SelectAt(s, chosen, 0, d, false, k);
      OneOfThree(a, b, c, moved, 0, CountIn(chosen, 0, k, false));
    } else {
      SelectAt(s, chosen, d, |s|, false, k);
      CountSplits(chosen, 0, d, k, false);
      OneOfThree(a, b, c, moved, 2, CountIn(chosen, d, k, false));
    }
  }

  lemma {:induction false} MovedLength<T>(s: seq<T>, chosen: set<nat>, d: nat, moved: seq<T>)
    requires MovesTo(s, chosen, d, moved)
    ensures |moved| == |s|
  {
    MoveKeepsElements(s, chosen, d);
  }

  lemma OneOfThree<T>(a: seq<T>, b: seq<T>, c: seq<T>, all: seq<T>, piece: nat, i: nat)
    requires piece <= 2 && i < |if piece == 0 then a else if piece == 1 then b else c|
    requires all == a + b + c
    ensures piece == 0 ==> i < |all| && all[i] == a[i]
    ensures piece == 1 ==> |a| + i < |all| && all[|a| + i] == b[i]
    ensures piece == 2 ==> |a| + |b| + i < |all| && all[|a| + |b| + i] == c[i]
  {
  }

  /** Moving a contiguous block, in closed form. */
  lemma {:induction false} BlockMove<T>(s: seq<T>, lo: nat, hi: nat, d: nat, moved: seq<T>)
    requires lo <= hi <= |s| && MovesTo(s, Interval(lo, hi), d, moved)
    ensures moved == BlockMoved(s, lo, hi, d) && |moved| == |s|
  {
    SelectBlock(s, lo, hi, 0, |s|, true);
    SelectBlock(s, lo, hi, 0, d, false);
    SelectBlock(s, lo, hi, d, |s|, false);
    if d < lo {
      ExchangedPieces(s, d, lo, hi);
    } else if d <= hi {
      UnmovedPieces(s, lo, hi, d);
    } else {
      ExchangedPieces(s, lo, hi, d);
    }
  }

  lemma ExchangedPieces<T>(s: seq<T>, a: nat, b: nat, c: nat)
    requires a <= b <= c <= |s|
    ensures s[0..a] + s[a..a] + s[b..c] + (s[a..b] + s[c..|s|]) == Exchanged(s, a, b, c)
    ensures s[0..a] + s[b..c] + s[a..b] + (s[c..c] + s[c..|s|]) == Exchanged(s, a, b, c)
  {
  }

  lemma UnmovedPieces<T>(s: seq<T>, lo: nat, hi: nat, d: nat)
    requires lo <= d <= hi <= |s|
    ensures s[0..lo] + s[d..d] + s[lo..hi] + (s[d..d] + s[hi..|s|]) == s
  {
  }

  function BlockMoved<T>(s: seq<T>, lo: nat, hi: nat, d: nat): seq<T>
    requires lo <= hi <= |s| && d <= |s|
  {
    if d < lo then Exchanged(s, d, lo, hi) else if d <= hi then s else Exchanged(s, lo, hi, d)
  }

  /** The neighbouring stretches `a ..< b` and `b ..< c` exchanged. */
  function Exchanged<T>(s: seq<T>, a: nat, b: nat, c: nat): seq<T>
    requires a <= b <= c <= |s|
  {
    seq(|s|, i requires 0 <= i < |s| =>
      if i < a then s[i] else if i < a + (c - b) then s[i - a + b] else if i < c then s[i - (c - b)] else s[i])
  }

  lemma {:induction false} SelectBlock<T>(s: seq<T>, lo: nat, hi: nat, from: nat, to: nat, picked: bool)
    requires lo <= hi <= |s| && from <= to <= |s|
    ensures var a, b := Clamp(lo, from, to), Clamp(hi, from, to);
            Select(s, Interval(lo, hi), from, to, picked) == if picked then s[a..b] else s[from..a] + s[b..to]
  {
    var chosen := Interval(lo, hi);
    var a, b := Clamp(lo, from, to), Clamp(hi, from, to);
    SelectSplits(s, chosen, from, a, to, picked);
    SelectSplits(s, chosen, a, b, to, picked);
    if picked {
      SelectNone(s, chosen, from, a, picked);
      SelectWhole(s, chosen, a, b, picked);
      SelectNone(s, chosen, b, to, picked);
    } else {
      SelectWhole(s, chosen, from, a, picked);
      SelectNone(s, chosen, a, b, picked);
      SelectWhole(s, chosen, b, to, picked);
    }
  }

  function Clamp(x: nat, from: nat, to: nat): (r: nat)
    requires from <= to
    ensures from <= r <= to
  {
    if x < from then from else if x > to then to else x
  }

  /** Where a moved block starts afterwards, and the destination that takes it back. */
  function Landing(lo: nat, hi: nat, d: nat): nat
    requires lo <= hi
  {
    if d <= lo then d else if d <= hi then lo else d - (hi - lo)
  }

  function Homeward(lo: nat, hi: nat, d: nat): nat
    requires lo <= hi
  {
    if d <= lo then hi else lo
  }

  /** A moved block stands together, in order, where `Landing` says. */
  lemma {:induction false} BlockLands<T>(s: seq<T>, lo: nat, hi: nat, d: nat, moved: seq<T>, i: nat)
    requires lo <= lo + i < hi <= |s| && MovesTo(s, Interval(lo, hi), d, moved)
    ensures |moved| == |s| && moved[Landing(lo, hi, d) + i] == s[lo + i]
  {
    BlockMove(s, lo, hi, d, moved);
  }

  /** Moving a block and then moving it back from where it landed restores the list. */
  lemma {:induction false} MoveBackRestores<T>(s: seq<T>, lo: nat, hi: nat, d: nat, moved: seq<T>, at: nat,
                                               back: seq<T>)
    requires lo <= hi <= |s| && at == Landing(lo, hi, d)
    requires MovesTo(s, Interval(lo, hi), d, moved)
    requires MovesTo(moved, Interval(at, at + (hi - lo)), Homeward(lo, hi, d), back)
    ensures back == s
  {
    BlockMove(s, lo, hi, d, moved);
    BlockMove(moved, at, at + (hi - lo), Homeward(lo, hi, d), back);
    BlockMovedTwice(s, lo, hi, d, moved, at, back);
  }

  lemma BlockMovedTwice<T>(s: seq<T>, lo: nat, hi: nat, d: nat, moved: seq<T>, at: nat, back: seq<T>)
    requires lo <= hi <= |s| && d <= |s| && at == Landing(lo, hi, d)
    requires moved == BlockMoved(s, lo, hi, d)
    requires |moved| == |s| && back == BlockMoved(moved, at, at + (hi - lo), Homeward(lo, hi, d))
    ensures back == s
  {
  }

  /** Moving one element is the primitive move, with the destination counted after the removal. */
  lemma {:induction false} SingletonMoveIsPrimitive<T>(s: seq<T>, f: nat, d: nat)
    requires f < |s| && d <= |s|
    ensures Moved(s, {f}, d) == MoveOne(s, f, if d > f then d - 1 else d)
  {
    assert {f} == Interval(f, f + 1);
    BlockMove(s, f, f + 1, d, Moved(s, {f}, d));
    ExchangeOne(s, f, d);
  }

  lemma ExchangeOne<T>(s: seq<T>, f: nat, d: nat)
    requires f < |s| && d <= |s|
    ensures d < f ==> MoveOne(s, f, d) == Exchanged(s, d, f, f + 1)
    ensures f <= d <= f + 1 ==> MoveOne(s, f, f) == s
    ensures f + 1 < d ==> MoveOne(s, f, d - 1) == Exchanged(s, f, f + 1, d)
  {
  }

  /** Removing a contiguous set of offsets is removing the subrange. */
  lemma {:induction false} RemoveOffsetsIsRemoveSubrange<T>(s: seq<T>, lo: nat, hi: nat)
    requires lo <= hi <= |s|
    ensures WithoutOffsets(s, Interval(lo, hi)) == Splice(s, lo, hi, [])
  {
    SelectBlock(s, lo, hi, 0, |s|, false);
  }

  /** A move is a removal followed by an insertion at the number of unchosen elements before the destination. */
  lemma {:induction false} MoveIsRemoveThenInsert<T>(s: seq<T>, chosen: set<nat>, d: nat)
    requires d <= |s|
    ensures var at := CountIn(chosen, 0, d, false);
            && at <= |WithoutOffsets(s, chosen)|
            && Moved(s, chosen, d) == Splice(WithoutOffsets(s, chosen), at, at, Select(s, chosen, 0, |s|, true))
  {
    SelectSplits(s, chosen, 0, d, |s|, false);
    SelectLength(s, chosen, 0, d, false);
  }
}
