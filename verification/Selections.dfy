/**
 Picking elements of a sequence by the positions they occupy: the vocabulary in
 which the bulk list mutations are specified.
 */
module Selections {

  /** An `IndexSet`: offsets without repetition, enumerated in ascending order. */
  type IndexSet = offsets: seq<nat> | StrictlyAscending(offsets)

  predicate StrictlyAscending(offsets: seq<nat>) {
    forall i, j :: 0 <= i < j < |offsets| ==> offsets[i] < offsets[j]
  }

  /** Every offset is a position of a list with `count` elements. */
  predicate Within(offsets: IndexSet, count: nat) {
    forall o :: o in offsets ==> o < count
  }

  /** The positions an index set chooses. */
  function Members(offsets: IndexSet): set<nat> {
    set o | o in offsets
  }

  /** The elements of `s[lo..hi]`, in order, whose position is (`picked`) or is not (`!picked`) chosen. */
  function Select<T>(s: seq<T>, chosen: set<nat>, lo: nat, hi: nat, picked: bool): seq<T>
    requires lo <= hi <= |s|
    decreases hi
  {
    if lo == hi then []
    else
      Select(s, chosen, lo, hi - 1, picked)
      + if ((hi - 1) in chosen) == picked then [s[hi - 1]] else []
  }

  /** How many positions of `[lo, hi)` are (or are not) chosen. */
  function CountIn(chosen: set<nat>, lo: nat, hi: nat, picked: bool): nat
    requires lo <= hi
    decreases hi
  {
    if lo == hi then 0
    else CountIn(chosen, lo, hi - 1, picked) + if ((hi - 1) in chosen) == picked then 1 else 0
  }

  /** `Select` by position: a picked element stands behind exactly the picked elements before it. */
  lemma {:induction false} SelectAt<T>(s: seq<T>, chosen: set<nat>, lo: nat, hi: nat, picked: bool, k: nat)
    requires lo <= k < hi <= |s|
    requires (k in chosen) == picked
    ensures |Select(s, chosen, lo, hi, picked)| == CountIn(chosen, lo, hi, picked)
    ensures CountIn(chosen, lo, k, picked) < CountIn(chosen, lo, hi, picked)
    ensures Select(s, chosen, lo, hi, picked)[CountIn(chosen, lo, k, picked)] == s[k]
    decreases hi
  {
    SelectLength(s, chosen, lo, hi - 1, picked);
    if k < hi - 1 {
      SelectAt(s, chosen, lo, hi - 1, picked, k);
    }
  }

  lemma {:induction false} SelectLength<T>(s: seq<T>, chosen: set<nat>, lo: nat, hi: nat, picked: bool)
    requires lo <= hi <= |s|
    ensures |Select(s, chosen, lo, hi, picked)| == CountIn(chosen, lo, hi, picked)
    decreases hi
  {
    if lo < hi {
      SelectLength(s, chosen, lo, hi - 1, picked);
    }
  }

  lemma {:induction false} SelectSplits<T>(s: seq<T>, chosen: set<nat>, lo: nat, mid: nat, hi: nat, picked: bool)
    requires lo <= mid <= hi <= |s|
    ensures Select(s, chosen, lo, hi, picked) == Select(s, chosen, lo, mid, picked) + Select(s, chosen, mid, hi, picked)
    decreases hi
  {
    if mid < hi {
      SelectSplits(s, chosen, lo, mid, hi - 1, picked);
    }
  }

  /** A stretch whose positions all qualify is taken whole. */
  lemma {:induction false} SelectWhole<T>(s: seq<T>, chosen: set<nat>, lo: nat, hi: nat, picked: bool)
    requires lo <= hi <= |s|
    requires forall p :: lo <= p < hi ==> (p in chosen) == picked
    ensures Select(s, chosen, lo, hi, picked) == s[lo..hi]
    decreases hi
  {
    if lo < hi {
      SelectWhole(s, chosen, lo, hi - 1, picked);
      assert s[lo..hi] == s[lo..hi - 1] + [s[hi - 1]];
    }
  }

  /** A stretch none of whose positions qualify contributes nothing. */
  lemma {:induction false} SelectNone<T>(s: seq<T>, chosen: set<nat>, lo: nat, hi: nat, picked: bool)
    requires lo <= hi <= |s|
    requires forall p :: lo <= p < hi ==> (p in chosen) != picked
    ensures Select(s, chosen, lo, hi, picked) == []
    decreases hi
  {
    if lo < hi {
      SelectNone(s, chosen, lo, hi - 1, picked);
    }
  }

  /** Picked and left elements together are all the elements. */
  lemma {:induction false} SelectPartitions<T>(s: seq<T>, chosen: set<nat>, lo: nat, hi: nat, all: seq<T>,
                                               picked: seq<T>, left: seq<T>)
    requires lo <= hi <= |s| && all == s[lo..hi]
    requires picked == Select(s, chosen, lo, hi, true) && left == Select(s, chosen, lo, hi, false)
    ensures multiset(all) == multiset(picked) + multiset(left)
    decreases hi
  {
    if lo < hi {
      var all', picked', left' := Shorter(s, chosen, lo, hi, all, picked, left);
      SelectPartitions(s, chosen, lo, hi - 1, all', picked', left');
      PartitionGrows(all', picked', left', s[hi - 1], (hi - 1) in chosen, all, picked, left);
    } else {
      assert all == [] && picked == [] && left == [];
    }
  }

  /** All, picked and left elements without the last one. */
  lemma Shorter<T>(s: seq<T>, chosen: set<nat>, lo: nat, hi: nat, all: seq<T>, picked: seq<T>, left: seq<T>)
    returns (all': seq<T>, picked': seq<T>, left': seq<T>)
    requires lo < hi <= |s| && all == s[lo..hi]
    requires picked == Select(s, chosen, lo, hi, true) && left == Select(s, chosen, lo, hi, false)
    ensures all' == s[lo..hi - 1] && all == all' + [s[hi - 1]]
    ensures picked' == Select(s, chosen, lo, hi - 1, true) && left' == Select(s, chosen, lo, hi - 1, false)
    ensures picked == picked' + if (hi - 1) in chosen then [s[hi - 1]] else []
    ensures left == left' + if (hi - 1) in chosen then [] else [s[hi - 1]]
  {
    all' := s[lo..hi - 1];
    picked', left' := Select(s, chosen, lo, hi - 1, true), Select(s, chosen, lo, hi - 1, false);
  }

  lemma PartitionGrows<T>(s: seq<T>, picked: seq<T>, left: seq<T>, x: T, pick: bool,
                          s': seq<T>, picked': seq<T>, left': seq<T>)
    requires multiset(s) == multiset(picked) + multiset(left)
    requires s' == s + [x]
    requires picked' == picked + if pick then [x] else []
    requires left' == left + if pick then [] else [x]
    ensures multiset(s') == multiset(picked') + multiset(left')
  {
  }

  lemma {:induction false} CountSplits(chosen: set<nat>, lo: nat, mid: nat, hi: nat, picked: bool)
    requires lo <= mid <= hi
    ensures CountIn(chosen, lo, hi, picked) == CountIn(chosen, lo, mid, picked) + CountIn(chosen, mid, hi, picked)
    decreases hi
  {
    if mid < hi {
      CountSplits(chosen, lo, mid, hi - 1, picked);
    }
  }

  /** The positions `lo ..< hi`. */
  function Interval(lo: nat, hi: nat): (positions: set<nat>)
    requires lo <= hi
    ensures forall p :: p in positions <==> lo <= p < hi
    decreases hi
  {
    if lo == hi then {} else Interval(lo, hi - 1) + {hi - 1}
  }
}
