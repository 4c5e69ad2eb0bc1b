/**
 Nothing is deleted and inserted again needlessly: a run of objects that stands in
 both versions of a collection is never longer than what the calculation keeps.
 */
module KeptRuns {
  import opened Selections
  import opened CommonBlocks
  import opened RowPairing

  /** The same `size` objects follow each other from `i` in one and from `j` in the other sequence. */
  predicate CommonRun(prev: seq<int>, next: seq<int>, i: nat, j: nat, size: nat) {
    && i + size <= |prev| && j + size <= |next|
    && forall x :: i <= x < i + size ==> prev[x] == next[x - i + j]
  }

  /** The positions `i ..< i + size` all occur. */
  predicate Includes(at: seq<nat>, i: nat, size: nat) {
    forall x :: i <= x < i + size ==> x in at
  }

  /** If all positions of a run occur, they follow each other. */
  lemma {:induction false} Consecutive(at: IndexSet, i: nat, size: nat) returns (p: nat)
    requires size > 0 && Includes(at, i, size)
    ensures p + size <= |at| && forall x :: p <= x < p + size ==> at[x] == x - p + i
  {
    if size == 1 {
      assert i in at;
      p :| 0 <= p < |at| && at[p] == i;
    } else {
      p := Consecutive(at, i, size - 1);
      var x := i + size - 1;
      assert x in at;
      var q :| 0 <= q < |at| && at[q] == x;
      NextOne(at, p + size - 2, q);
    }
  }

  lemma {:induction false} NextOne(at: IndexSet, p: nat, q: nat)
    requires p < |at| && q < |at| && at[q] == at[p] + 1
    ensures q == p + 1
  {
    assert p + 1 < |at| ==> at[p] < at[p + 1];
  }

  /** A run of both versions is a block of the rows present in both. */
  lemma {:induction false} RunIsBlock(prev: seq<int>, next: seq<int>, i: nat, j: nat, size: nat,
                                      a: seq<int>, b: seq<int>, olds: IndexSet, news: IndexSet)
    returns (p: nat, q: nat)
    requires CommonRun(prev, next, i, j, size) && size > 0 && |olds| == |a| && |news| == |b|
    requires forall x :: 0 <= x < |a| ==> olds[x] < |prev| && a[x] == prev[olds[x]]
    requires forall x :: 0 <= x < |b| ==> news[x] < |next| && b[x] == next[news[x]]
    requires Includes(olds, i, size) && Includes(news, j, size)
    ensures CommonRun(a, b, p, q, size)
  {
    p := Consecutive(olds, i, size);
    q := Consecutive(news, j, size);
    forall x | p <= x < p + size
      ensures a[x] == b[x - p + q]
    {
      assert olds[x] == x - p + i && news[x - p + q] == x - p + j;
    }
  }

  /** A block either lies in front of the first difference, in place, or behind it. */
  lemma {:induction false} BlockBehindFirst(a: seq<int>, b: seq<int>, first: nat, p: nat, q: nat, size: nat)
    requires CommonRun(a, b, p, q, size) && size > 0 && Distinct(a) && Distinct(b) && |a| == |b|
    requires first <= |a| && forall x :: 0 <= x < first ==> a[x] == b[x]
    requires first < |a| ==> a[first] != b[first]
    ensures size <= first || IsBlock(a, b, Window(first, |a|, first, |b|), p, q, size)
  {
    assert a[p] == b[q];
    if p < first || q < first {
      assert p == q;
    }
  }

  /** Every run whose objects are all present in both versions is no longer than what is kept. */
  ghost predicate KeepsRuns(prev: seq<int>, next: seq<int>, olds: seq<nat>, news: seq<nat>, kept: nat) {
    forall i: nat, j: nat, size: nat ::
      CommonRun(prev, next, i, j, size) && size > 0 && Includes(olds, i, size) && Includes(news, j, size) ==>
        size <= kept
  }

  lemma {:induction false} RunsKept(prev: seq<int>, next: seq<int>, a: seq<int>, b: seq<int>,
                                    olds: IndexSet, news: IndexSet, first: nat, ms: seq<Match>, kept: nat)
    requires Distinct(a) && Distinct(b) && |olds| == |a| == |b| == |news|
    requires forall x :: 0 <= x < |a| ==> olds[x] < |prev| && a[x] == prev[olds[x]]
    requires forall x :: 0 <= x < |b| ==> news[x] < |next| && b[x] == next[news[x]]
    requires first <= |a| && forall x :: 0 <= x < first ==> a[x] == b[x]
    requires first < |a| ==> a[first] != b[first]
    requires HoldsLongest(a, b, Window(first, |a|, first, |b|), ms)
    requires first <= kept && forall k :: 0 <= k < |ms| ==> first + ms[k].size <= kept
    ensures KeepsRuns(prev, next, olds, news, kept)
  {
    forall i: nat, j: nat, size: nat | CommonRun(prev, next, i, j, size) && size > 0
      && Includes(olds, i, size) && Includes(news, j, size)
      ensures size <= kept
    {
      var p, q := RunIsBlock(prev, next, i, j, size, a, b, olds, news);
      BlockBehindFirst(a, b, first, p, q, size);
    }
  }
}
