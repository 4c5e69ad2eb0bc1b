/**
 The first half of `CollectionChangeBuilder::calculate`: which rows are in both
 versions of a collection,
 Realm/ObjectStore/src/impl/collection_change_builder.cpp.

 `std::sort` leaves rows with equal keys in any order, so the walk takes the rows
 in any order sorted by key; `BuildRowInfo` gives one.
 */
module RowPairing {
  import opened Outcomes
  import opened Selections
  import opened IndexSetOperations
  import opened Sorting

  /** `previous` is where the row was in the old version, once it has been found there. */
  datatype RowInfo = RowInfo(key: int, previous: Option<nat>, index: nat)

  /** All rows of a version, sorted by key. */
  ghost predicate SortedRows(infos: seq<RowInfo>, rows: seq<int>) {
    && (forall p, q :: 0 <= p < q < |infos| ==> infos[p].key <= infos[q].key && infos[p].index != infos[q].index)
    && (forall p :: 0 <= p < |infos| ==> infos[p].index < |rows| && infos[p].key == rows[infos[p].index])
    && (forall i :: 0 <= i < |rows| ==> i in Indices(infos, |infos|))
  }

  /** The positions of the first `n` rows. */
  function Indices(infos: seq<RowInfo>, n: nat): set<nat>
    requires n <= |infos|
  {
    set p | 0 <= p < n :: infos[p].index
  }

  // ----- sorting -----

  method BuildRowInfo(rows: seq<int>) returns (infos: seq<RowInfo>)
    ensures SortedRows(infos, rows)
  {
    var unsorted := seq(|rows|, i requires 0 <= i < |rows| => RowInfo(rows[i], None, i));
    infos := SortBy(unsorted, (l: RowInfo, r: RowInfo) => l.key <= r.key);
    SortedOnceEach(unsorted, infos);
    RowsSorted(infos, rows, unsorted);
  }

  lemma {:induction false} RowsSorted(infos: seq<RowInfo>, rows: seq<int>, unsorted: seq<RowInfo>)
    requires |unsorted| == |rows| && forall i :: 0 <= i < |rows| ==> unsorted[i] == RowInfo(rows[i], None, i)
    requires Ascending(infos, (l: RowInfo, r: RowInfo) => l.key <= r.key) && NoneTwice(infos)
    requires forall x :: x in infos <==> x in unsorted
    ensures SortedRows(infos, rows)
  {
    forall p | 0 <= p < |infos|
      ensures infos[p].index < |rows| && infos[p] == RowInfo(rows[infos[p].index], None, infos[p].index)
    {
      assert infos[p] in infos;
    }
    forall i | 0 <= i < |rows|
      ensures i in Indices(infos, |infos|)
    {
      assert unsorted[i] in infos;
    }
  }

  // ----- rows present in both versions -----

  /** The rows found in both versions: each with its position in either, none twice. */
  ghost predicate Paired(pairs: seq<RowInfo>, prev: seq<int>, next: seq<int>) {
    && (forall p :: 0 <= p < |pairs| ==>
          && pairs[p].previous.Some? && pairs[p].previous.value < |prev| && pairs[p].index < |next|
          && pairs[p].key == prev[pairs[p].previous.value] == next[pairs[p].index])
    && (forall p, q :: 0 <= p < q < |pairs| ==>
          pairs[p].index != pairs[q].index && pairs[p].previous != pairs[q].previous)
  }

  function Previous(pairs: seq<RowInfo>): set<nat> {
    set p | 0 <= p < |pairs| && pairs[p].previous.Some? :: pairs[p].previous.value
  }

  /** Every position is paired or left over, not both. */
  ghost predicate Splits(all: set<nat>, paired: set<nat>, left: set<nat>) {
    paired + left == all && paired !! left
  }

  /** Nothing was deleted and inserted that could have been paired. */
  ghost predicate NoneToPair(deletions: set<nat>, insertions: set<nat>, prev: seq<int>, next: seq<int>) {
    forall x, y :: x in deletions && x < |prev| && y in insertions && y < |next| ==> prev[x] != next[y]
  }

  /** The keys left over lie below the rows still to come. */
  ghost predicate LeftBelow(left: set<nat>, rows: seq<int>, others: seq<RowInfo>, from: nat) {
    forall x, q :: x in left && x < |rows| && from <= q < |others| ==> rows[x] < others[q].key
  }

  /** The walk through both versions after `i` old and `j` new rows. */
  ghost predicate Walking(olds: seq<RowInfo>, news: seq<RowInfo>, i: nat, j: nat, pairs: seq<RowInfo>,
                          deletions: set<nat>, insertions: set<nat>, prev: seq<int>, next: seq<int>) {
    && i <= |olds| && j <= |news|
    && Paired(pairs, prev, next)
    && Splits(Indices(olds, i), Previous(pairs), deletions)
    && Splits(Indices(news, j), Indices(pairs, |pairs|), insertions)
    && NoneToPair(deletions, insertions, prev, next)
    && LeftBelow(deletions, prev, news, j) && LeftBelow(insertions, next, olds, i)
  }

  lemma OneMoreIndex(infos: seq<RowInfo>, n: nat, rows: seq<int>)
    requires SortedRows(infos, rows) && n < |infos|
    ensures Indices(infos, n + 1) == Indices(infos, n) + {infos[n].index} && infos[n].index !in Indices(infos, n)
  {
  }

  lemma {:induction false} WalkPair(olds: seq<RowInfo>, news: seq<RowInfo>, i: nat, j: nat, pairs: seq<RowInfo>,
                                    deletions: set<nat>, insertions: set<nat>, prev: seq<int>, next: seq<int>,
                                    pair: RowInfo)
    requires SortedRows(olds, prev) && SortedRows(news, next) && i < |olds| && j < |news|
    requires Walking(olds, news, i, j, pairs, deletions, insertions, prev, next) && olds[i].key == news[j].key
    requires pair == news[j].(previous := Some(olds[i].index))
    ensures Walking(olds, news, i + 1, j + 1, pairs + [pair], deletions, insertions, prev, next)
  {
    OneMoreIndex(olds, i, prev);
    OneMoreIndex(news, j, next);
    PairAdded(pairs, pair);
    forall p | 0 <= p < |pairs|
      ensures pairs[p].index != pair.index && pairs[p].previous != pair.previous
    {
      assert pairs[p].index in Indices(pairs, |pairs|);
      assert pairs[p].previous.value in Previous(pairs);
    }
  }

  lemma {:induction false} PairAdded(pairs: seq<RowInfo>, pair: RowInfo)
    requires pair.previous.Some?
    ensures Previous(pairs + [pair]) == Previous(pairs) + {pair.previous.value}
    ensures Indices(pairs + [pair], |pairs| + 1) == Indices(pairs, |pairs|) + {pair.index}
  {
    var longer := pairs + [pair];
    assert longer[|pairs|] == pair;
    assert forall p :: 0 <= p < |pairs| ==> longer[p] == pairs[p];
    forall x | x in Previous(pairs) + {pair.previous.value}
      ensures x in Previous(longer)
    {
      if x in Previous(pairs) {
        var p :| 0 <= p < |pairs| && pairs[p].previous == Some(x);
        assert longer[p].previous == Some(x);
      }
    }
    forall x | x in Indices(pairs, |pairs|) + {pair.index}
      ensures x in Indices(longer, |longer|)
    {
      if x in Indices(pairs, |pairs|) {
        var p :| 0 <= p < |pairs| && pairs[p].index == x;
        assert longer[p].index == x;
      }
    }
  }

  lemma {:induction false} WalkDelete(olds: seq<RowInfo>, news: seq<RowInfo>, i: nat, j: nat, pairs: seq<RowInfo>,
                                      deletions: set<nat>, insertions: set<nat>, prev: seq<int>, next: seq<int>)
    requires SortedRows(olds, prev) && SortedRows(news, next) && i < |olds|
    requires Walking(olds, news, i, j, pairs, deletions, insertions, prev, next)
    requires j < |news| ==> olds[i].key < news[j].key
    ensures Walking(olds, news, i + 1, j, pairs, deletions + {olds[i].index}, insertions, prev, next)
  {
    OneMoreIndex(olds, i, prev);
    forall q | j <= q < |news|
      ensures olds[i].key < news[q].key
    {
      assert j < q ==> news[j].key <= news[q].key;
    }
  }

  lemma {:induction false} WalkInsert(olds: seq<RowInfo>, news: seq<RowInfo>, i: nat, j: nat, pairs: seq<RowInfo>,
                                      deletions: set<nat>, insertions: set<nat>, prev: seq<int>, next: seq<int>)
    requires SortedRows(olds, prev) && SortedRows(news, next) && j < |news|
    requires Walking(olds, news, i, j, pairs, deletions, insertions, prev, next)
    requires i < |olds| ==> news[j].key < olds[i].key
    ensures Walking(olds, news, i, j + 1, pairs, deletions, insertions + {news[j].index}, prev, next)
  {
    OneMoreIndex(news, j, next);
    forall q | i <= q < |olds|
      ensures news[j].key < olds[q].key
    {
      assert i < q ==> olds[i].key <= olds[q].key;
    }
  }

  /** One step of the walk while both versions have rows left. */
  method WalkStep(olds: seq<RowInfo>, news: seq<RowInfo>, i: nat, j: nat, pairs: seq<RowInfo>,
                  deletions: IndexSet, insertions: IndexSet, ghost prev: seq<int>, ghost next: seq<int>)
    returns (i': nat, j': nat, pairs': seq<RowInfo>, deletions': IndexSet, insertions': IndexSet)
    requires SortedRows(olds, prev) && SortedRows(news, next) && i < |olds| && j < |news|
    requires Walking(olds, news, i, j, pairs, Members(deletions), Members(insertions), prev, next)
    ensures Walking(olds, news, i', j', pairs', Members(deletions'), Members(insertions'), prev, next)
    ensures i' >= i && j' >= j && i' + j' > i + j
    ensures olds[i].key == news[j].key ==>
      i' == i + 1 && j' == j + 1 && deletions' == deletions && insertions' == insertions
  {
    i', j', pairs', deletions', insertions' := i, j, pairs, deletions, insertions;
    if olds[i].key == news[j].key {
      var pair := news[j].(previous := Some(olds[i].index));
      WalkPair(olds, news, i, j, pairs, Members(deletions), Members(insertions), prev, next, pair);
      i', j', pairs' := i + 1, j + 1, pairs + [pair];
    } else if olds[i].key < news[j].key {
      WalkDelete(olds, news, i, j, pairs, Members(deletions), Members(insertions), prev, next);
      deletions' := Add(deletions, olds[i].index);
      i' := i + 1;
    } else {
      WalkInsert(olds, news, i, j, pairs, Members(deletions), Members(insertions), prev, next);
      insertions' := Add(insertions, news[j].index);
      j' := j + 1;
    }
  }

  /** The walk: equal keys are paired, the others deleted or inserted. */
  method PairUp(olds: seq<RowInfo>, news: seq<RowInfo>, ghost prev: seq<int>, ghost next: seq<int>)
    returns (pairs: seq<RowInfo>, deletions: IndexSet, insertions: IndexSet)
    requires SortedRows(olds, prev) && SortedRows(news, next)
    ensures Paired(pairs, prev, next)
    ensures Splits(Interval(0, |prev|), Previous(pairs), Members(deletions))
    ensures Splits(Interval(0, |next|), Indices(pairs, |pairs|), Members(insertions))
    ensures NoneToPair(Members(deletions), Members(insertions), prev, next)
    ensures prev == next ==> deletions == [] && insertions == []
  {
    pairs, deletions, insertions := [], [], [];
    var i: nat, j: nat := 0, 0;
    if prev == next {
      SameSortedKeys(olds, news, prev);
    }
    while i < |olds| && j < |news|
      invariant Walking(olds, news, i, j, pairs, Members(deletions), Members(insertions), prev, next)
      invariant prev == next ==> i == j && deletions == [] && insertions == []
      decreases |olds| - i + |news| - j
    {
      i, j, pairs, deletions, insertions := WalkStep(olds, news, i, j, pairs, deletions, insertions, prev, next);
    }
    while i < |olds|
      invariant Walking(olds, news, i, j, pairs, Members(deletions), Members(insertions), prev, next)
      invariant i < |olds| ==> j == |news|
      invariant prev == next ==> i == j && deletions == [] && insertions == []
    {
      WalkDelete(olds, news, i, j, pairs, Members(deletions), Members(insertions), prev, next);
      deletions := Add(deletions, olds[i].index);
      i := i + 1;
    }
    while j < |news|
      invariant Walking(olds, news, i, j, pairs, Members(deletions), Members(insertions), prev, next)
      invariant i == |olds|
      invariant prev == next ==> i == j && deletions == [] && insertions == []
    {
      WalkInsert(olds, news, i, j, pairs, Members(deletions), Members(insertions), prev, next);
      insertions := Add(insertions, news[j].index);
      j := j + 1;
    }
    AllSeen(olds, prev);
    AllSeen(news, next);
  }

  /** However rows with equal keys are ordered, the keys come in the same order. */
  lemma {:induction false} SameSortedKeys(olds: seq<RowInfo>, news: seq<RowInfo>, rows: seq<int>)
    requires SortedRows(olds, rows) && SortedRows(news, rows)
    ensures |olds| == |news| && forall p :: 0 <= p < |olds| ==> olds[p].key == news[p].key
  {
    IndicesSize(olds, rows, |olds|);
    IndicesSize(news, rows, |news|);
    AllSeen(olds, rows);
    AllSeen(news, rows);
    forall p | 0 <= p < |olds|
      ensures olds[p].key == news[p].key
    {
      NotBelow(olds, news, rows, p);
      NotBelow(news, olds, rows, p);
    }
  }

  lemma {:induction false} IndicesSize(infos: seq<RowInfo>, rows: seq<int>, n: nat)
    requires SortedRows(infos, rows) && n <= |infos|
    ensures |Indices(infos, n)| == n
  {
    if n > 0 {
      IndicesSize(infos, rows, n - 1);
      OneMoreIndex(infos, n - 1, rows);
    }
  }

  /** At most `p` rows have smaller keys than the one at `p`. */
  lemma {:induction false} NotBelow(olds: seq<RowInfo>, news: seq<RowInfo>, rows: seq<int>, p: nat)
    requires SortedRows(olds, rows) && SortedRows(news, rows) && p < |olds| && p < |news|
    ensures olds[p].key >= news[p].key
  {
    if olds[p].key < news[p].key {
      forall x | x in Indices(olds, p + 1)
        ensures x in Indices(news, p)
      {
        var q :| 0 <= q < p + 1 && olds[q].index == x;
        assert olds[q].key <= olds[p].key && x in Indices(news, |news|);
        var r :| 0 <= r < |news| && news[r].index == x;
        assert news[r].key <= olds[p].key;
      }
      IndicesSize(olds, rows, p + 1);
      IndicesSize(news, rows, p);
      FewerMembers(Indices(olds, p + 1), Indices(news, p));
    }
  }

  lemma {:induction false} FewerMembers(s: set<nat>, t: set<nat>)
    requires s <= t
    ensures |s| <= |t|
  {
    assert s + (t - s) == t;
  }

  lemma AllSeen(infos: seq<RowInfo>, rows: seq<int>)
    requires SortedRows(infos, rows)
    ensures Indices(infos, |infos|) == Interval(0, |rows|)
  {
  }

  // ----- nothing more than necessary -----

  /** No object occurs twice. */
  predicate Distinct(keys: seq<int>) {
    forall i, j :: 0 <= i < j < |keys| ==> keys[i] != keys[j]
  }

  /** The objects present in both come in the same order. */
  predicate InOrder(prev: seq<int>, next: seq<int>) {
    forall i, i', j, j' :: 0 <= i < i' < |prev| && 0 <= j < |next| && 0 <= j' < |next|
                      && prev[i] == next[j] && prev[i'] == next[j']
                      ==> j < j'
  }

  /** No object occurs twice, and those present in both versions keep their order. */
  predicate Unmoved(prev: seq<int>, next: seq<int>) {
    Distinct(prev) && Distinct(next) && InOrder(prev, next)
  }

  /** Exactly the objects that are gone are deleted, and exactly the new ones inserted. */
  predicate Minimal(deletions: set<nat>, insertions: set<nat>, prev: seq<int>, next: seq<int>) {
    deletions == Gone(prev, next) && insertions == Gone(next, prev)
  }

  /** The positions of the objects that do not occur in the other sequence. */
  function Gone(keys: seq<int>, others: seq<int>): set<nat> {
    set i | 0 <= i < |keys| && keys[i] !in others
  }

  lemma {:induction false} SplitCase(n: nat, paired: set<nat>, left: set<nat>, x: nat)
    requires Splits(Interval(0, n), paired, left) && x < n
    ensures x in paired <==> x !in left
  {
    assert x in Interval(0, n);
  }

  /** An old row that was paired is present in the new version; conversely only its own pair has its key. */
  lemma {:induction false} PairedIsPresent(pairs: seq<RowInfo>, prev: seq<int>, next: seq<int>, x: nat, y: nat)
    requires Paired(pairs, prev, next) && x < |prev| && y < |next|
    ensures x in Previous(pairs) ==> prev[x] in next
    ensures y in Indices(pairs, |pairs|) ==> next[y] in prev
    ensures Distinct(prev) && y in Indices(pairs, |pairs|) && prev[x] == next[y] ==> x in Previous(pairs)
    ensures Distinct(next) && x in Previous(pairs) && prev[x] == next[y] ==> y in Indices(pairs, |pairs|)
  {
    if x in Previous(pairs) {
      var p :| 0 <= p < |pairs| && pairs[p].previous == Some(x);
      assert next[pairs[p].index] == prev[x];
      assert Distinct(next) && prev[x] == next[y] ==> pairs[p].index == y;
    }
    if y in Indices(pairs, |pairs|) {
      var p :| 0 <= p < |pairs| && pairs[p].index == y;
      var i := pairs[p].previous.value;
      assert prev[i] == next[y];
      assert Distinct(prev) && prev[x] == next[y] ==> i == x;
    }
  }

  /** Without repeated objects, what is left over after pairing is what is gone and what is new. */
  lemma {:induction false} LeftoversAreGone(pairs: seq<RowInfo>, prev: seq<int>, next: seq<int>, deletions: set<nat>,
                                            insertions: set<nat>)
    requires Paired(pairs, prev, next) && Distinct(prev) && Distinct(next)
    requires Splits(Interval(0, |prev|), Previous(pairs), deletions)
    requires Splits(Interval(0, |next|), Indices(pairs, |pairs|), insertions)
    requires NoneToPair(deletions, insertions, prev, next)
    ensures Minimal(deletions, insertions, prev, next)
  {
    forall x | 0 <= x < |prev|
      ensures x in deletions <==> prev[x] !in next
    {
      OldIffGone(pairs, prev, next, deletions, insertions, x);
    }
    forall y | 0 <= y < |next|
      ensures y in insertions <==> next[y] !in prev
    {
      NewIffNew(pairs, prev, next, deletions, insertions, y);
    }
  }

  lemma {:induction false} OldIffGone(pairs: seq<RowInfo>, prev: seq<int>, next: seq<int>, deletions: set<nat>,
                                      insertions: set<nat>, x: nat)
    requires Paired(pairs, prev, next) && Distinct(prev) && x < |prev|
    requires Splits(Interval(0, |prev|), Previous(pairs), deletions)
    requires Splits(Interval(0, |next|), Indices(pairs, |pairs|), insertions)
    requires NoneToPair(deletions, insertions, prev, next)
    ensures x in deletions <==> prev[x] !in next
  {
    SplitCase(|prev|, Previous(pairs), deletions, x);
    if y :| 0 <= y < |next| && next[y] == prev[x] {
      SplitCase(|next|, Indices(pairs, |pairs|), insertions, y);
      PairedIsPresent(pairs, prev, next, x, y);
    } else if |next| > 0 {
      PairedIsPresent(pairs, prev, next, x, 0);
    }
  }

  lemma {:induction false} NewIffNew(pairs: seq<RowInfo>, prev: seq<int>, next: seq<int>, deletions: set<nat>,
                                     insertions: set<nat>, y: nat)
    requires Paired(pairs, prev, next) && Distinct(next) && y < |next|
    requires Splits(Interval(0, |prev|), Previous(pairs), deletions)
    requires Splits(Interval(0, |next|), Indices(pairs, |pairs|), insertions)
    requires NoneToPair(deletions, insertions, prev, next)
    ensures y in insertions <==> next[y] !in prev
  {
    SplitCase(|next|, Indices(pairs, |pairs|), insertions, y);
    if x :| 0 <= x < |prev| && prev[x] == next[y] {
      SplitCase(|prev|, Previous(pairs), deletions, x);
      PairedIsPresent(pairs, prev, next, x, y);
    } else if |prev| > 0 {
      PairedIsPresent(pairs, prev, next, 0, y);
    }
  }
}
