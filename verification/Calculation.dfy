/**
 `CollectionChangeBuilder::calculate`: the change set between two versions of a
 collection, from their object keys,
 Realm/ObjectStore/src/impl/collection_change_builder.cpp.
 */
module Calculation {
  import opened Outcomes
  import opened Selections
  import opened IndexSets
  import opened IndexSetOperations
  import opened ChangeSets
  import opened RowChanges
  import opened StoredChanges
  import opened Sorting
  import opened CommonBlocks
  import opened RowPairing
  import opened RowAlignment
  import opened KeptRuns

  // ----- moves -----

  function PreviousOf(row: RowInfo): nat {
    if row.previous.Some? then row.previous.value else 0
  }

  function Keys(rows: seq<RowInfo>): (r: seq<int>)
    ensures |r| == |rows| && forall x :: 0 <= x < |rows| ==> r[x] == rows[x].key
  {
    seq(|rows|, x requires 0 <= x < |rows| => rows[x].key)
  }

  function OldPositions(rows: seq<RowInfo>): (r: seq<nat>)
    ensures |r| == |rows| && forall x :: 0 <= x < |rows| ==> r[x] == PreviousOf(rows[x])
  {
    seq(|rows|, x requires 0 <= x < |rows| => PreviousOf(rows[x]))
  }

  function NewPositions(rows: seq<RowInfo>): (r: seq<nat>)
    ensures |r| == |rows| && forall x :: 0 <= x < |rows| ==> r[x] == rows[x].index
  {
    seq(|rows|, x requires 0 <= x < |rows| => rows[x].index)
  }

  /** The picked entries. */
  function Pick(at: IndexSet, kept: IndexSet): (r: IndexSet)
    requires Inside(kept, |at|)
    ensures |r| == |kept| && forall x :: 0 <= x < |kept| ==> r[x] == at[kept[x]]
  {
    seq(|kept|, x requires 0 <= x < |kept| => at[kept[x]])
  }

  lemma {:induction false} PickDrops(at: IndexSet, kept: IndexSet)
    requires Inside(kept, |at|)
    ensures Dropped(at, |at|, kept) == Members(at) - Members(Pick(at, kept))
    ensures Members(Pick(at, kept)) <= Members(at)
  {
    var picked := Pick(at, kept);
    forall x | 0 <= x < |at|
      ensures at[x] in picked <==> x in kept
    {
      if at[x] in picked {
        var r :| 0 <= r < |kept| && picked[r] == at[x];
        assert at[kept[r]] == at[x];
      }
    }
    forall y | y in Members(at)
      ensures y in Dropped(at, |at|, kept) <==> y !in picked
    {
      var x :| 0 <= x < |at| && at[x] == y;
    }
    forall r | 0 <= r < |kept|
      ensures picked[r] in at
    {
      assert at[kept[r]] in at;
    }
  }

  lemma PickTogether(a: seq<int>, b: seq<int>, u: IndexSet, v: IndexSet, prev: seq<int>, next: seq<int>,
                     olds: IndexSet, news: IndexSet)
    requires Together(a, b, u, v) && |olds| == |a| && |news| == |b|
    requires forall x :: 0 <= x < |a| ==> olds[x] < |prev| && a[x] == prev[olds[x]]
    requires forall x :: 0 <= x < |b| ==> news[x] < |next| && b[x] == next[news[x]]
    ensures Together(prev, next, Pick(olds, u), Pick(news, v))
  {
  }

  /** The same pairs sorted by old position. */
  method SortByPrevious(rows: seq<RowInfo>, ghost prev: seq<int>, ghost next: seq<int>) returns (a: seq<RowInfo>)
    requires Paired(rows, prev, next)
    ensures Paired(a, prev, next) && |a| == |rows| && StrictlyAscending(OldPositions(a))
    ensures forall x :: x in a <==> x in rows
  {
    a := SortBy(rows, (l: RowInfo, r: RowInfo) => PreviousOf(l) <= PreviousOf(r));
    SortedOnceEach(rows, a);
    PairedAgain(rows, a, prev, next);
    forall p, q | 0 <= p < q < |a|
      ensures PreviousOf(a[p]) < PreviousOf(a[q])
    {
      assert a[p].previous != a[q].previous;
    }
  }

  /** The same pairs sorted by new position. */
  method SortByIndex(pairs: seq<RowInfo>, ghost prev: seq<int>, ghost next: seq<int>) returns (rows: seq<RowInfo>)
    requires Paired(pairs, prev, next)
    ensures Paired(rows, prev, next) && |rows| == |pairs| && StrictlyAscending(NewPositions(rows))
    ensures forall x :: x in rows <==> x in pairs
  {
    rows := SortBy(pairs, (l: RowInfo, r: RowInfo) => l.index <= r.index);
    SortedOnceEach(pairs, rows);
    PairedAgain(pairs, rows, prev, next);
    assert forall p, q :: 0 <= p < q < |rows| ==> rows[p].index <= rows[q].index && rows[p].index != rows[q].index;
  }

  lemma {:induction false} PairedAgain(pairs: seq<RowInfo>, sorted: seq<RowInfo>, prev: seq<int>, next: seq<int>)
    requires Paired(pairs, prev, next) && NoneTwice(sorted) && forall x :: x in sorted <==> x in pairs
    ensures Paired(sorted, prev, next)
  {
    forall p | 0 <= p < |sorted|
      ensures sorted[p] in pairs
    {
      assert sorted[p] in sorted;
    }
    forall p, q | 0 <= p < q < |sorted|
      ensures sorted[p].index != sorted[q].index && sorted[p].previous != sorted[q].previous
    {
      var i :| 0 <= i < |pairs| && pairs[i] == sorted[p];
      var j :| 0 <= j < |pairs| && pairs[j] == sorted[q];
      assert i < j || j < i;
    }
  }

  /** The index of the rows by key. */
  method BuildIndex(rows: seq<RowInfo>) returns (b: seq<Entry>)
    ensures Indexes(b, Keys(rows))
  {
    var entries := seq(|rows|, i requires 0 <= i < |rows| => Entry(rows[i].key, i));
    b := SortBy(entries, (l: Entry, r: Entry) => !r.Before(l));
    SortedOnceEach(entries, b);
    EntriesIndex(entries, b, Keys(rows));
  }

  lemma {:induction false} EntriesIndex(entries: seq<Entry>, b: seq<Entry>, keys: seq<int>)
    requires |entries| == |keys| && forall i :: 0 <= i < |keys| ==> entries[i] == Entry(keys[i], i)
    requires Ascending(b, (l: Entry, r: Entry) => !r.Before(l)) && NoneTwice(b)
    requires forall x :: x in b <==> x in entries
    ensures Indexes(b, keys)
  {
    forall p | 0 <= p < |b|
      ensures b[p].index < |keys| && keys[b[p].index] == b[p].key
    {
      assert b[p] in b;
    }
    forall j | 0 <= j < |keys|
      ensures Entry(keys[j], j) in b
    {
      assert entries[j] in entries;
    }
  }

  /** Rows that come in the same order in both versions come in the same order however they are sorted. */
  lemma {:induction false} UnmovedRows(a: seq<RowInfo>, rows: seq<RowInfo>, prev: seq<int>, next: seq<int>)
    requires Paired(rows, prev, next) && |a| == |rows| && forall x :: x in a <==> x in rows
    requires StrictlyAscending(OldPositions(a)) && StrictlyAscending(OldPositions(rows))
    ensures a == rows
  {
    SamePositions(a, rows);
    SameEnumeration(OldPositions(a), OldPositions(rows));
    forall x | 0 <= x < |a|
      ensures a[x] == rows[x]
    {
      assert a[x] in rows;
      var q :| 0 <= q < |rows| && rows[q] == a[x];
      assert OldPositions(rows)[q] == OldPositions(a)[x] == OldPositions(rows)[x];
    }
  }

  /** A set has one ascending enumeration. */
  lemma {:induction false} SameEnumeration(s: IndexSet, t: IndexSet)
    requires Elements(s) == Elements(t) && |s| == |t|
    ensures s == t
  {
    forall k | 0 <= k < |s|
      ensures s[k] == t[k]
    {
      assert s[k] in Elements(t);
      var l :| 0 <= l < |t| && t[l] == s[k];
      CountAt(s, k, s[k]);
      CountAt(t, l, s[k]);
      assert Members(s) == Members(t);
    }
  }

  lemma {:induction false} InOrderUnmoved(rows: seq<RowInfo>, prev: seq<int>, next: seq<int>)
    requires Paired(rows, prev, next) && StrictlyAscending(NewPositions(rows)) && InOrder(prev, next)
    ensures StrictlyAscending(OldPositions(rows))
  {
    forall p, q | 0 <= p < q < |rows|
      ensures PreviousOf(rows[p]) < PreviousOf(rows[q])
    {
      assert NewPositions(rows)[p] < NewPositions(rows)[q];
    }
  }

  /** Finds the blocks behind the first difference and aligns along them. */
  method AlignRows(a: seq<RowInfo>, rows: seq<RowInfo>, first: nat, deletions: IndexSet, insertions: IndexSet,
                   modifications: IndexSet)
    returns (deletions': IndexSet, insertions': IndexSet, ghost u: IndexSet, ghost v: IndexSet, ghost ms: seq<Match>)
    requires |a| == |rows| && first <= |a| && forall x :: x in a ==> x in rows
    requires forall x :: 0 <= x < first ==> a[x].key == rows[x].key
    ensures Together(Keys(a), Keys(rows), u, v)
    ensures HoldsLongest(Keys(a), Keys(rows), Window(first, |a|, first, |a|), ms)
    ensures first <= |u| && forall k :: 0 <= k < |ms| ==> first + ms[k].size <= |u|
    ensures Members(deletions') == Members(deletions) + Dropped(OldPositions(a), |a|, u)
    ensures Members(insertions') == Members(insertions) + Dropped(NewPositions(rows), |rows|, v)
  {
    var b := BuildIndex(rows);
    KeysCovered(a, rows);
    var matches := FindLongestMatches(Keys(a), b, Window(first, |a|, first, |a|), modifications, Keys(rows));
    deletions', insertions', u, v :=
      AlignMatches(Keys(a), Keys(rows), OldPositions(a), NewPositions(rows), first, matches, deletions, insertions);
    ms := matches;
  }

  /** The alignment of the rows present in both versions is one of the versions. */
  lemma {:induction false} AlignedVersions(a: seq<RowInfo>, rows: seq<RowInfo>, u: IndexSet, v: IndexSet,
                                           prev: seq<int>, next: seq<int>, olds: IndexSet, news: IndexSet)
    requires Paired(a, prev, next) && Paired(rows, prev, next) && Together(Keys(a), Keys(rows), u, v)
    requires olds == OldPositions(a) && news == NewPositions(rows)
    ensures Together(prev, next, Pick(olds, u), Pick(news, v))
    ensures Dropped(olds, |olds|, u) == Elements(olds) - Members(Pick(olds, u))
    ensures Dropped(news, |news|, v) == Elements(news) - Members(Pick(news, v))
    ensures Members(Pick(olds, u)) <= Elements(olds) && Members(Pick(news, v)) <= Elements(news)
  {
    PickDrops(olds, u);
    PickDrops(news, v);
    PickTogether(Keys(a), Keys(rows), u, v, prev, next, olds, news);
  }

  lemma {:induction false} DistinctRows(a: seq<RowInfo>, prev: seq<int>, next: seq<int>)
    requires Paired(a, prev, next) && Distinct(prev)
    ensures Distinct(Keys(a))
  {
    forall x, y | 0 <= x < y < |a|
      ensures a[x].key != a[y].key
    {
      assert a[x].previous != a[y].previous;
    }
  }

  /** `calculate_moves_sorted`: `u` and `v` are the rows that are neither deleted nor inserted nor moved. */
  method CalculateMovesSorted(rows: seq<RowInfo>, deletions: IndexSet, insertions: IndexSet, modifications: IndexSet,
                              ghost prev: seq<int>, ghost next: seq<int>)
    returns (deletions': IndexSet, insertions': IndexSet, ghost u: IndexSet, ghost v: IndexSet)
    requires Paired(rows, prev, next) && StrictlyAscending(NewPositions(rows))
    ensures Together(prev, next, u, v)
    ensures Members(u) <= Elements(OldPositions(rows)) && Members(v) <= Elements(NewPositions(rows))
    ensures Members(deletions') == Members(deletions) + (Elements(OldPositions(rows)) - Members(u))
    ensures Members(insertions') == Members(insertions) + (Elements(NewPositions(rows)) - Members(v))
    ensures StrictlyAscending(OldPositions(rows)) ==> deletions' == deletions && insertions' == insertions
    ensures prev == next && AllThere(rows, |prev|) ==> deletions' == deletions && insertions' == insertions
    ensures Distinct(prev) && Distinct(next) ==> KeepsRuns(prev, next, OldPositions(rows), NewPositions(rows), |u|)
  {
    var a := SortByPrevious(rows, prev, next);
    if StrictlyAscending(OldPositions(rows)) {
      UnmovedRows(a, rows, prev, next);
    }
    if prev == next && AllThere(rows, |prev|) {
      SameKeysEverywhere(a, rows, prev, next);
    }
    var first := FirstDifference(a, rows);
    ghost var olds: IndexSet, news: IndexSet := OldPositions(a), NewPositions(rows);
    SamePositions(a, rows);
    ghost var ms := [];
    if first == |a| {
      deletions', insertions', u, v := deletions, insertions, olds, news;
    } else {
      deletions', insertions', u, v, ms := AlignRows(a, rows, first, deletions, insertions, modifications);
      AlignedVersions(a, rows, u, v, prev, next, olds, news);
      u, v := Pick(olds, u), Pick(news, v);
    }
    if Distinct(prev) && Distinct(next) {
      RowsKeepRuns(a, rows, prev, next, first, ms, |u|);
    }
  }

  /** Every position of both versions is that of a row present in both. */
  ghost predicate AllThere(rows: seq<RowInfo>, n: nat) {
    Elements(OldPositions(rows)) == Interval(0, n) && Elements(NewPositions(rows)) == Interval(0, n)
  }

  lemma {:induction false} SameKeysEverywhere(a: seq<RowInfo>, rows: seq<RowInfo>, prev: seq<int>, next: seq<int>)
    requires Paired(a, prev, next) && Paired(rows, prev, next) && |a| == |rows| && forall x :: x in a <==> x in rows
    requires StrictlyAscending(OldPositions(a)) && StrictlyAscending(NewPositions(rows))
    requires prev == next && AllThere(rows, |prev|)
    ensures forall x :: 0 <= x < |a| ==> a[x].key == rows[x].key
  {
    SamePositions(a, rows);
    FullEnumeration(OldPositions(a), |prev|);
    FullEnumeration(NewPositions(rows), |prev|);
    forall x | 0 <= x < |a|
      ensures a[x].key == rows[x].key
    {
      assert OldPositions(a)[x] == x && NewPositions(rows)[x] == x;
    }
  }

  lemma {:induction false} FullEnumeration(at: IndexSet, n: nat)
    requires Elements(at) == Interval(0, n)
    ensures forall k :: 0 <= k < |at| ==> at[k] == k
  {
    assert Members(at) == Interval(0, n);
    forall k | 0 <= k < |at|
      ensures at[k] == k
    {
      assert at[k] in Elements(at);
      CountAt(at, k, at[k]);
      CountRun(0, n, at[k]);
    }
  }

  method FirstDifference(a: seq<RowInfo>, rows: seq<RowInfo>) returns (first: nat)
    requires |a| == |rows|
    ensures first <= |a| && forall x :: 0 <= x < first ==> a[x].key == rows[x].key
    ensures first < |a| ==> a[first].key != rows[first].key
  {
    first := 0;
    while first < |a| && a[first].key == rows[first].key
      invariant first <= |a| && forall x :: 0 <= x < first ==> a[x].key == rows[x].key
    {
      first := first + 1;
    }
  }

  lemma {:induction false} RowsKeepRuns(a: seq<RowInfo>, rows: seq<RowInfo>, prev: seq<int>, next: seq<int>,
                                        first: nat, ms: seq<Match>, kept: nat)
    requires Paired(a, prev, next) && Paired(rows, prev, next) && Distinct(prev) && Distinct(next)
    requires |a| == |rows| && forall x :: x in a <==> x in rows
    requires StrictlyAscending(OldPositions(a)) && StrictlyAscending(NewPositions(rows))
    requires first <= |a| && forall x :: 0 <= x < first ==> a[x].key == rows[x].key
    requires first < |a| ==> a[first].key != rows[first].key
    requires first < |a| ==> HoldsLongest(Keys(a), Keys(rows), Window(first, |a|, first, |a|), ms)
    requires first <= kept && forall k :: 0 <= k < |ms| ==> first + ms[k].size <= kept
    ensures KeepsRuns(prev, next, OldPositions(rows), NewPositions(rows), kept)
  {
    DistinctRows(a, prev, next);
    DistinctRows(rows, prev, next);
    RunsKept(prev, next, Keys(a), Keys(rows), OldPositions(a), NewPositions(rows), first, ms, kept);
    SamePositions(a, rows);
    forall x | x in OldPositions(rows)
      ensures x in OldPositions(a)
    {
      assert x in Elements(OldPositions(rows));
    }
  }

  lemma {:induction false} SamePositions(a: seq<RowInfo>, rows: seq<RowInfo>)
    requires forall x :: x in a <==> x in rows
    ensures Elements(OldPositions(a)) == Elements(OldPositions(rows))
    ensures Elements(NewPositions(a)) == Elements(NewPositions(rows))
  {
    SomePositions(a, rows);
    SomePositions(rows, a);
  }

  lemma {:induction false} SomePositions(a: seq<RowInfo>, rows: seq<RowInfo>)
    requires forall x :: x in a ==> x in rows
    ensures Elements(OldPositions(a)) <= Elements(OldPositions(rows))
    ensures Elements(NewPositions(a)) <= Elements(NewPositions(rows))
  {
    forall p | 0 <= p < |a|
      ensures OldPositions(a)[p] in OldPositions(rows) && NewPositions(a)[p] in NewPositions(rows)
    {
      assert a[p] in rows;
      var q :| 0 <= q < |rows| && rows[q] == a[p];
      assert OldPositions(rows)[q] == OldPositions(a)[p] && NewPositions(rows)[q] == NewPositions(a)[p];
    }
  }

  lemma {:induction false} KeysCovered(a: seq<RowInfo>, rows: seq<RowInfo>)
    requires forall x :: x in a ==> x in rows
    ensures Covered(Keys(a), Keys(rows))
  {
    forall i | 0 <= i < |a|
      ensures a[i].key in Keys(rows)
    {
      assert a[i] in rows;
      var q :| 0 <= q < |rows| && rows[q] == a[i];
      assert Keys(rows)[q] == a[i].key;
    }
  }

  // ----- the whole calculation -----

  /** `u` are the positions below `n` that are not in `gone`. */
  ghost predicate Enumerates(u: IndexSet, gone: set<nat>, n: nat) {
    Members(u) == Interval(0, n) - gone && forall x :: x in gone ==> x < n
  }

  /** Among the rest, the `j`th position has `j` of them before it. */
  lemma {:induction false} RestBefore(u: IndexSet, gone: set<nat>, n: nat, j: nat, x: nat)
    requires Enumerates(u, gone, n) && x <= n && j <= |u|
    requires (j > 0 ==> u[j - 1] < x) && (j < |u| ==> x <= u[j])
    ensures Unshift(gone, x) == j
  {
    if x > 0 {
      var y := x - 1;
      if j > 0 && u[j - 1] == y {
        assert y in Members(u);
        RestBefore(u, gone, n, j - 1, y);
      } else {
        NotIn(u, j, y);
        RestBefore(u, gone, n, j, y);
      }
    }
  }

  lemma {:induction false} RankOf(u: IndexSet, gone: set<nat>, n: nat, x: nat) returns (r: nat)
    requires Enumerates(u, gone, n) && x < n && x !in gone
    ensures r < |u| && u[r] == x && Unshift(gone, x) == r
  {
    assert x in Members(u);
    r :| 0 <= r < |u| && u[r] == x;
    RestBefore(u, gone, n, r, x);
  }

  /** What the calculation gives: the rows kept are the same objects in order, and the changed ones are marked. */
  ghost predicate Calculated(c: ChangeSet, prev: seq<int>, next: seq<int>, changed: int -> bool,
                             u: IndexSet, v: IndexSet) {
    && c.moves == {}
    && Enumerates(u, c.deletions, |prev|) && Enumerates(v, c.insertions, |next|)
    && Together(prev, next, u, v)
    && (forall j :: j in c.modifications ==> j < |next|)
    && (forall j :: 0 <= j < |next| && j !in c.insertions ==> (j in c.modifications <==> changed(next[j])))
  }

  /** Two versions with these keys, in which rows that differ have changed. */
  ghost predicate Versions(before: seq<Row>, after: seq<Row>, prev: seq<int>, next: seq<int>, changed: int -> bool) {
    && |before| == |prev| && (forall i :: 0 <= i < |prev| ==> before[i].key == prev[i])
    && |after| == |next| && (forall j :: 0 <= j < |next| ==> after[j].key == next[j])
    && (forall i, j :: 0 <= i < |before| && 0 <= j < |after| && prev[i] == next[j] && !changed(next[j]) ==>
          before[i] == after[j])
  }

  /** The calculated change set is a true account. */
  lemma {:induction false} CalculatedDescribes(c: ChangeSet, prev: seq<int>, next: seq<int>, changed: int -> bool,
                                               u: IndexSet, v: IndexSet, before: seq<Row>, after: seq<Row>)
    requires Calculated(c, prev, next, changed, u, v) && Versions(before, after, prev, next, changed)
    ensures Describes(c, before, after)
  {
    assert u != [] ==> u[|u| - 1] in Members(u);
    assert v != [] ==> v[|v| - 1] in Members(v);
    RestBefore(u, c.deletions, |prev|, |u|, |prev|);
    RestBefore(v, c.insertions, |next|, |v|, |next|);
    forall i, j | 0 <= i < |before| && 0 <= j < |after| && c.Keeps(i, j)
      ensures Matches(before[i], after[j], j in c.modifications)
    {
      var r := RankOf(u, c.deletions, |prev|, i);
      var r' := RankOf(v, c.insertions, |next|, j);
    }
  }

  /** Marks the rows whose objects have changed. */
  method MarkChanged(rows: seq<RowInfo>, changed: int -> bool) returns (modifications: IndexSet)
    ensures forall j :: j in modifications <==>
      exists x :: 0 <= x < |rows| && rows[x].index == j && changed(rows[x].key)
  {
    modifications := [];
    for k := 0 to |rows|
      invariant forall j :: j in Members(modifications) <==>
        exists x :: 0 <= x < k && rows[x].index == j && changed(rows[x].key)
    {
      if changed(rows[k].key) {
        modifications := Add(modifications, rows[k].index);
      }
    }
    assert forall j :: j in modifications <==> j in Members(modifications);
  }

  /** In table order both versions are sorted by key, so the rows present in both cannot have moved. */
  lemma {:induction false} TableOrder(rows: seq<RowInfo>, prev: seq<int>, next: seq<int>)
    requires Paired(rows, prev, next) && StrictlyAscending(NewPositions(rows))
    requires Increasing(prev) && Increasing(next)
    ensures StrictlyAscending(OldPositions(rows)) && Together(prev, next, OldPositions(rows), NewPositions(rows))
  {
    forall p, q | 0 <= p < q < |rows|
      ensures PreviousOf(rows[p]) < PreviousOf(rows[q])
    {
      assert NewPositions(rows)[p] < NewPositions(rows)[q];
      assert next[rows[p].index] < next[rows[q].index];
      var i, j := PreviousOf(rows[p]), PreviousOf(rows[q]);
      assert prev[i] < prev[j];
    }
  }

  predicate Increasing(keys: seq<int>) {
    forall i, j :: 0 <= i < j < |keys| ==> keys[i] < keys[j]
  }

  /** The free function `calculate`, whichever way the rows were sorted by key. */
  method CalculateSorted(olds: seq<RowInfo>, news: seq<RowInfo>, changed: int -> bool, inTableOrder: bool,
                         ghost prev: seq<int>, ghost next: seq<int>)
    returns (c: Stored, ghost u: IndexSet, ghost v: IndexSet)
    requires SortedRows(olds, prev) && SortedRows(news, next)
    requires inTableOrder ==> Increasing(prev) && Increasing(next)
    ensures c.moves == [] && Calculated(c.View(), prev, next, changed, u, v)
    ensures Tight(prev, next, c.deletions, c.insertions, |u|)
  {
    var pairs, deletions, insertions := PairUp(olds, news, prev, next);
    var rows := SortByIndex(pairs, prev, next);
    var modifications := MarkChanged(rows, changed);
    PositionsOfPairs(pairs, rows);
    ghost var left, new_ := deletions, insertions;
    deletions, insertions, u, v :=
      CalculateMoves(rows, deletions, insertions, modifications, inTableOrder, prev, next);
    c := Stored(deletions, insertions, modifications, []);
    CalculatedAfter(pairs, rows, prev, next, changed, left, new_, c, u, v);
    TightAfter(pairs, rows, prev, next, left, new_, deletions, insertions, |u|);
  }

  /** Of the rows present in both versions, those not kept have been added to what is deleted and inserted. */
  ghost predicate KeepsOnly(rows: seq<RowInfo>, deletions: IndexSet, insertions: IndexSet,
                            deletions': IndexSet, insertions': IndexSet, u: IndexSet, v: IndexSet) {
    && Members(u) <= Elements(OldPositions(rows)) && Members(v) <= Elements(NewPositions(rows))
    && Members(deletions') == Members(deletions) + (Elements(OldPositions(rows)) - Members(u))
    && Members(insertions') == Members(insertions) + (Elements(NewPositions(rows)) - Members(v))
  }

  /** No row has moved, or the versions have the same keys. */
  ghost predicate NeedsNone(rows: seq<RowInfo>, prev: seq<int>, next: seq<int>) {
    StrictlyAscending(OldPositions(rows)) || (prev == next && AllThere(rows, |prev|))
  }

  lemma {:induction false} CalculatedAfter(pairs: seq<RowInfo>, rows: seq<RowInfo>, prev: seq<int>, next: seq<int>,
                                           changed: int -> bool, left: IndexSet, new_: IndexSet, c: Stored,
                                           u: IndexSet, v: IndexSet)
    requires Paired(rows, prev, next) && Together(prev, next, u, v) && c.moves == []
    requires Elements(OldPositions(rows)) == Previous(pairs)
    requires Elements(NewPositions(rows)) == Indices(pairs, |pairs|)
    requires Splits(Interval(0, |prev|), Previous(pairs), Members(left))
    requires Splits(Interval(0, |next|), Indices(pairs, |pairs|), Members(new_))
    requires KeepsOnly(rows, left, new_, c.deletions, c.insertions, u, v)
    requires forall j :: j in c.modifications <==>
      exists x :: 0 <= x < |rows| && rows[x].index == j && changed(rows[x].key)
    ensures Calculated(c.View(), prev, next, changed, u, v)
  {
    assert Enumerates(u, c.View().deletions, |prev|);
    assert Enumerates(v, c.View().insertions, |next|);
    MarkedRight(rows, prev, next, changed, c.View());
  }

  /** Moves are looked for unless both versions are in table order. */
  method CalculateMoves(rows: seq<RowInfo>, deletions: IndexSet, insertions: IndexSet, modifications: IndexSet,
                        inTableOrder: bool, ghost prev: seq<int>, ghost next: seq<int>)
    returns (deletions': IndexSet, insertions': IndexSet, ghost u: IndexSet, ghost v: IndexSet)
    requires Paired(rows, prev, next) && StrictlyAscending(NewPositions(rows))
    requires inTableOrder ==> Increasing(prev) && Increasing(next)
    ensures Together(prev, next, u, v)
    ensures KeepsOnly(rows, deletions, insertions, deletions', insertions', u, v)
    ensures NeedsNone(rows, prev, next) ==> deletions' == deletions && insertions' == insertions
    ensures Distinct(prev) && Distinct(next) ==> KeepsRuns(prev, next, OldPositions(rows), NewPositions(rows), |u|)
  {
    if inTableOrder {
      TableOrder(rows, prev, next);
      RowsKeepRuns(rows, rows, prev, next, |rows|, [], |rows|);
      return deletions, insertions, OldPositions(rows), NewPositions(rows);
    }
    deletions', insertions', u, v := CalculateMovesSorted(rows, deletions, insertions, modifications, prev, next);
  }

  /** Nothing is reported that need not be, as far as that is promised. */
  ghost predicate Tight(prev: seq<int>, next: seq<int>, deletions: IndexSet, insertions: IndexSet, kept: int) {
    && (Unmoved(prev, next) ==> Minimal(Members(deletions), Members(insertions), prev, next))
    && (prev == next ==> deletions == [] && insertions == [])
    && (Distinct(prev) && Distinct(next) ==> KeepsAllRuns(prev, next, kept))
  }

  lemma {:induction false} TightAfter(pairs: seq<RowInfo>, rows: seq<RowInfo>, prev: seq<int>, next: seq<int>,
                                      left: IndexSet, new_: IndexSet, deletions: IndexSet, insertions: IndexSet,
                                      kept: nat)
    requires Paired(pairs, prev, next) && Paired(rows, prev, next) && StrictlyAscending(NewPositions(rows))
    requires Elements(OldPositions(rows)) == Previous(pairs)
    requires Elements(NewPositions(rows)) == Indices(pairs, |pairs|)
    requires Splits(Interval(0, |prev|), Previous(pairs), Members(left))
    requires Splits(Interval(0, |next|), Indices(pairs, |pairs|), Members(new_))
    requires NoneToPair(Members(left), Members(new_), prev, next) && (prev == next ==> left == [] && new_ == [])
    requires NeedsNone(rows, prev, next) ==> deletions == left && insertions == new_
    requires Distinct(prev) && Distinct(next) ==> KeepsRuns(prev, next, OldPositions(rows), NewPositions(rows), kept)
    ensures Tight(prev, next, deletions, insertions, kept)
  {
    if Unmoved(prev, next) {
      UnmovedMinimal(pairs, rows, prev, next, Members(left), Members(new_));
    }
    if prev == next {
      AllPaired(pairs, rows, |prev|, left, new_);
    }
    if Distinct(prev) && Distinct(next) {
      RunsPresent(pairs, rows, prev, next, Members(left), Members(new_), kept);
    }
  }

  lemma AllPaired(pairs: seq<RowInfo>, rows: seq<RowInfo>, n: nat, left: IndexSet, new_: IndexSet)
    requires Elements(OldPositions(rows)) == Previous(pairs)
    requires Elements(NewPositions(rows)) == Indices(pairs, |pairs|)
    requires Splits(Interval(0, n), Previous(pairs), Members(left)) && left == []
    requires Splits(Interval(0, n), Indices(pairs, |pairs|), Members(new_)) && new_ == []
    ensures AllThere(rows, n)
  {
  }

  /** No common run of the two versions is longer than what is kept. */
  ghost predicate KeepsAllRuns(prev: seq<int>, next: seq<int>, kept: int) {
    forall i: nat, j: nat, size: nat :: CommonRun(prev, next, i, j, size) ==> size <= kept
  }

  /** Without repeated objects, all rows of a common run are present in both versions. */
  lemma {:induction false} RunsPresent(pairs: seq<RowInfo>, rows: seq<RowInfo>, prev: seq<int>, next: seq<int>,
                                       deletions: set<nat>, insertions: set<nat>, kept: nat)
    requires Paired(pairs, prev, next) && Paired(rows, prev, next) && StrictlyAscending(NewPositions(rows))
    requires Elements(OldPositions(rows)) == Previous(pairs)
    requires Elements(NewPositions(rows)) == Indices(pairs, |pairs|)
    requires Splits(Interval(0, |prev|), Previous(pairs), deletions)
    requires Splits(Interval(0, |next|), Indices(pairs, |pairs|), insertions)
    requires NoneToPair(deletions, insertions, prev, next)
    requires Distinct(prev) && Distinct(next)
    requires KeepsRuns(prev, next, OldPositions(rows), NewPositions(rows), kept)
    ensures KeepsAllRuns(prev, next, kept)
  {
    LeftoversAreGone(pairs, prev, next, deletions, insertions);
    forall i: nat, j: nat, size: nat | CommonRun(prev, next, i, j, size)
      ensures size <= kept
    {
      RunIncluded(pairs, rows, prev, next, deletions, insertions, i, j, size);
    }
  }

  lemma {:induction false} RunIncluded(pairs: seq<RowInfo>, rows: seq<RowInfo>, prev: seq<int>, next: seq<int>,
                                       deletions: set<nat>, insertions: set<nat>, i: nat, j: nat, size: nat)
    requires Elements(OldPositions(rows)) == Previous(pairs)
    requires Elements(NewPositions(rows)) == Indices(pairs, |pairs|)
    requires Splits(Interval(0, |prev|), Previous(pairs), deletions)
    requires Splits(Interval(0, |next|), Indices(pairs, |pairs|), insertions)
    requires Minimal(deletions, insertions, prev, next) && CommonRun(prev, next, i, j, size)
    ensures Includes(OldPositions(rows), i, size) && Includes(NewPositions(rows), j, size)
  {
    forall x | i <= x < i + size
      ensures x in OldPositions(rows)
    {
      assert prev[x] == next[x - i + j];
      SplitCase(|prev|, Previous(pairs), deletions, x);
      assert x in Elements(OldPositions(rows));
    }
    forall y | j <= y < j + size
      ensures y in NewPositions(rows)
    {
      var x := y - j + i;
      assert prev[x] == next[x - i + j];
      SplitCase(|next|, Indices(pairs, |pairs|), insertions, y);
      assert y in Elements(NewPositions(rows));
    }
  }

  lemma {:induction false} KeptCount(u: IndexSet, gone: IndexSet, n: nat)
    requires Enumerates(u, Members(gone), n)
    ensures |u| + |gone| == n
  {
    assert u != [] ==> u[|u| - 1] in Members(u);
    RestBefore(u, Members(gone), n, |u|, n);
    LengthIsCount(gone, n);
  }

  lemma {:induction false} UnmovedMinimal(pairs: seq<RowInfo>, rows: seq<RowInfo>, prev: seq<int>, next: seq<int>,
                                          deletions: set<nat>, insertions: set<nat>)
    requires Paired(pairs, prev, next) && Paired(rows, prev, next) && StrictlyAscending(NewPositions(rows))
    requires Splits(Interval(0, |prev|), Previous(pairs), deletions)
    requires Splits(Interval(0, |next|), Indices(pairs, |pairs|), insertions)
    requires NoneToPair(deletions, insertions, prev, next)
    ensures Unmoved(prev, next) ==> Minimal(deletions, insertions, prev, next) && StrictlyAscending(OldPositions(rows))
  {
    if Unmoved(prev, next) {
      LeftoversAreGone(pairs, prev, next, deletions, insertions);
      InOrderUnmoved(rows, prev, next);
    }
  }

  lemma {:induction false} PositionsOfPairs(pairs: seq<RowInfo>, rows: seq<RowInfo>)
    requires forall x :: x in rows <==> x in pairs
    requires forall p :: 0 <= p < |pairs| ==> pairs[p].previous.Some?
    ensures Elements(OldPositions(rows)) == Previous(pairs)
    ensures Elements(NewPositions(rows)) == Indices(pairs, |pairs|)
  {
    SamePositions(pairs, rows);
    forall y | y in Previous(pairs)
      ensures y in OldPositions(pairs)
    {
      var p :| 0 <= p < |pairs| && pairs[p].previous == Some(y);
      assert OldPositions(pairs)[p] == y;
    }
    forall y | y in Indices(pairs, |pairs|)
      ensures y in NewPositions(pairs)
    {
      var p :| 0 <= p < |pairs| && pairs[p].index == y;
      assert NewPositions(pairs)[p] == y;
    }
  }

  lemma MarkedRight(rows: seq<RowInfo>, prev: seq<int>, next: seq<int>, changed: int -> bool, c: ChangeSet)
    requires Paired(rows, prev, next)
    requires forall j :: j in c.modifications <==>
      exists x :: 0 <= x < |rows| && rows[x].index == j && changed(rows[x].key)
    requires forall j :: 0 <= j < |next| && j !in c.insertions ==> j in NewPositions(rows)
    ensures forall j :: j in c.modifications ==> j < |next|
    ensures forall j :: 0 <= j < |next| && j !in c.insertions ==> (j in c.modifications <==> changed(next[j]))
  {
  }

  /** `CollectionChangeBuilder::calculate`: from the keys of both versions to a true account, duplicates included. */
  method Calculate(prev: seq<int>, next: seq<int>, changed: int -> bool, inTableOrder: bool) returns (c: Stored)
    requires inTableOrder ==> Increasing(prev) && Increasing(next)
    ensures c.Valid() && c.moves == []
    ensures forall before, after :: Versions(before, after, prev, next, changed) ==> Describes(c.View(), before, after)
    ensures forall j :: 0 <= j < |next| && j !in c.View().insertions ==>
      (j in c.View().modifications <==> changed(next[j]))
    ensures Unmoved(prev, next) ==> Minimal(Members(c.deletions), Members(c.insertions), prev, next)
    ensures prev == next ==> c.deletions == [] && c.insertions == []
    ensures Distinct(prev) && Distinct(next) ==>
      KeepsAllRuns(prev, next, |prev| - |c.deletions|) && KeepsAllRuns(prev, next, |next| - |c.insertions|)
  {
    var olds := BuildRowInfo(prev);
    var news := BuildRowInfo(next);
    ghost var u, v;
    c, u, v := CalculateSorted(olds, news, changed, inTableOrder, prev, next);
    KeptCount(u, c.deletions, |prev|);
    KeptCount(v, c.insertions, |next|);
    forall before, after | Versions(before, after, prev, next, changed)
      ensures Describes(c.View(), before, after)
    {
      CalculatedDescribes(c.View(), prev, next, changed, u, v, before, after);
    }
  }
}
