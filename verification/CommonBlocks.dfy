/**
 Finding common blocks of two sequences of object keys:
 `LongestCommonSubsequenceCalculator` in
 Realm/ObjectStore/src/impl/collection_change_builder.cpp.

 `a` is the first sequence; the second one is given as an index `b` of its
 positions by key, and `keys` is the second sequence itself, for the proofs.
 */
module CommonBlocks {
  import opened Outcomes
  import opened Selections
  import opened IndexSetOperations

  /** A position of the second sequence and the key that stands there. */
  datatype Entry = Entry(key: int, index: nat) {
    predicate Before(other: Entry) {
      key < other.key || (key == other.key && index < other.index)
    }
  }

  /** `modified` is `None` until it has been counted. */
  datatype Match = Match(i: nat, j: nat, size: nat, modified: Option<nat>)

  datatype Length = Length(j: nat, len: nat)

  /** The stretches of both sequences that are being searched. */
  datatype Window = Window(begin1: nat, end1: nat, begin2: nat, end2: nat)

  ghost predicate Sorted(b: seq<Entry>) {
    forall p, q :: 0 <= p < q < |b| ==> b[p].Before(b[q])
  }

  /** `b` holds every position of `keys`, sorted by key and then by position. */
  ghost predicate Indexes(b: seq<Entry>, keys: seq<int>) {
    && Sorted(b)
    && (forall p :: 0 <= p < |b| ==> b[p].index < |keys| && keys[b[p].index] == b[p].key)
    && (forall j :: 0 <= j < |keys| ==> Entry(keys[j], j) in b)
  }

  /** Every key of `a` occurs in `keys`. */
  ghost predicate Covered(a: seq<int>, keys: seq<int>) {
    forall i :: 0 <= i < |a| ==> a[i] in keys
  }

  predicate Fits(w: Window, a: seq<int>, keys: seq<int>) {
    w.begin1 <= w.end1 <= |a| && w.begin2 <= w.end2 <= |keys|
  }

  /** How long the common block that ends at `a[i]` and `keys[j]` is, inside the window. */
  function Common(a: seq<int>, keys: seq<int>, w: Window, i: int, j: int): nat
    decreases i
  {
    if w.begin1 <= i < |a| && w.begin2 <= j < |keys| && a[i] == keys[j] then 1 + Common(a, keys, w, i - 1, j - 1) else 0
  }

  predicate IsBlock(a: seq<int>, keys: seq<int>, w: Window, i: nat, j: nat, size: nat) {
    && w.begin1 <= i && i + size <= w.end1 <= |a|
    && w.begin2 <= j && j + size <= w.end2 <= |keys|
    && forall x :: i <= x < i + size ==> a[x] == keys[x - i + j]
  }

  lemma {:induction false} CommonIsBlock(a: seq<int>, keys: seq<int>, w: Window, i: nat, j: nat)
    requires Fits(w, a, keys) && w.begin1 <= i < w.end1 && w.begin2 <= j < w.end2
    ensures var size := Common(a, keys, w, i, j);
      && size <= i + 1 - w.begin1 && size <= j + 1 - w.begin2
      && IsBlock(a, keys, w, i + 1 - size, j + 1 - size, size)
    decreases i
  {
    var size := Common(a, keys, w, i, j);
    if size > 1 {
      CommonIsBlock(a, keys, w, i - 1, j - 1);
      assert IsBlock(a, keys, w, i + 1 - size, j + 1 - size, size - 1);
    }
  }

  /** No block is longer than the common block that ends where it ends. */
  lemma {:induction false} BlockIsCommon(a: seq<int>, keys: seq<int>, w: Window, i: nat, j: nat, size: nat)
    requires IsBlock(a, keys, w, i, j, size) && size > 0
    ensures size <= Common(a, keys, w, i + size - 1, j + size - 1)
  {
    var x := i + size - 1;
    assert a[x] == keys[x - i + j];
    if size > 1 {
      BlockIsCommon(a, keys, w, i, j, size - 1);
    }
  }

  // ----- the positions of a key -----

  method LowerBound(b: seq<Entry>, key: int) returns (p: nat)
    requires Sorted(b)
    ensures p <= |b|
    ensures forall q :: 0 <= q < p ==> b[q].key < key
    ensures forall q :: p <= q < |b| ==> b[q].key >= key
  {
    var lo, hi := 0, |b|;
    while lo < hi
      invariant 0 <= lo <= hi <= |b|
      invariant forall q :: 0 <= q < lo ==> b[q].key < key
      invariant forall q :: hi <= q < |b| ==> b[q].key >= key
    {
      var mid := (lo + hi) / 2;
      if b[mid].key < key {
        lo := mid + 1;
      } else {
        hi := mid;
      }
    }
    p := lo;
  }

  /** `js` are the positions of the window among the first `it` entries for the key. */
  ghost predicate Collected(js: seq<nat>, b: seq<Entry>, it: nat, key: int, w: Window)
    requires it <= |b|
  {
    forall j :: j in js <==> w.begin2 <= j < w.end2 && Entry(key, j) in b[..it]
  }

  /** No entry for the key further on belongs to the window. */
  lemma {:induction false} NoneFurtherOn(b: seq<Entry>, it: nat, key: int, w: Window, j: nat)
    requires Sorted(b) && it <= |b| && Entry(key, j) in b && w.begin2 <= j < w.end2
    requires it < |b| ==> b[it].key > key || (b[it].key == key && b[it].index >= w.end2)
    ensures Entry(key, j) in b[..it]
  {
    var q :| 0 <= q < |b| && b[q] == Entry(key, j);
    assert q < it ==> b[..it][q] == b[q];
  }

  /** `for_each_b_match`: the positions of the window at which the key stands, in order. */
  method PositionsOf(b: seq<Entry>, key: int, w: Window, ghost keys: seq<int>) returns (js: IndexSet)
    requires Indexes(b, keys) && key in keys && w.end2 <= |keys|
    ensures forall j :: j in js <==> w.begin2 <= j < w.end2 && keys[j] == key
  {
    var it := LowerBound(b, key);
    KeyFound(b, key, keys, it);
    assert it < |b| && b[it].key == key;
    js := [];
    while it < |b| && b[it].key == key
      invariant it <= |b| && (it < |b| ==> b[it].key >= key) && Collected(js, b, it, key, w)
      invariant it < |b| && b[it].key == key ==> AllBelow(js, b[it].index)
    {
      var j := b[it].index;
      if j >= w.end2 {
        break;
      }
      assert b[..it + 1] == b[..it] + [b[it]];
      assert it + 1 < |b| ==> b[it].Before(b[it + 1]);
      if j >= w.begin2 {
        PushAscending(js, j);
        js := js + [j];
      }
      it := it + 1;
    }
    forall j | w.begin2 <= j < w.end2
      ensures j in js <==> keys[j] == key
    {
      EntryFor(b, keys, key, j, it);
      if keys[j] == key {
        NoneFurtherOn(b, it, key, w, j);
      }
    }
  }

  lemma EntryFor(b: seq<Entry>, keys: seq<int>, key: int, j: nat, it: nat)
    requires Indexes(b, keys) && j < |keys| && it <= |b|
    ensures Entry(key, j) in b <==> keys[j] == key
    ensures Entry(key, j) in b[..it] ==> Entry(key, j) in b
  {
  }

  lemma {:induction false} KeyFound(b: seq<Entry>, key: int, keys: seq<int>, it: nat)
    requires Indexes(b, keys) && key in keys && it <= |b|
    requires forall q :: 0 <= q < it ==> b[q].key < key
    requires forall q :: it <= q < |b| ==> b[q].key >= key
    ensures it < |b| && b[it].key == key && Entry(key, b[it].index) !in b[..it]
    ensures forall j :: Entry(key, j) !in b[..it]
  {
    var from: nat :| from < |keys| && keys[from] == key;
    var q :| 0 <= q < |b| && b[q] == Entry(key, from);
    assert it < q ==> b[it].Before(b[q]);
  }

  // ----- the longest block -----

  /** `lengths` holds the common blocks that end in row `i`, by where they end in the second sequence. */
  ghost predicate Knows(lengths: seq<Length>, a: seq<int>, keys: seq<int>, w: Window, i: int) {
    && (forall p :: 0 <= p < |lengths| ==>
          w.begin2 <= lengths[p].j < w.end2 && lengths[p].len == Common(a, keys, w, i, lengths[p].j))
    && (forall j :: w.begin2 <= j < w.end2 && Common(a, keys, w, i, j) > 0 ==>
          exists p :: 0 <= p < |lengths| && lengths[p].j == j)
  }

  /** One more than the block that ends just before. */
  method LengthAt(previous: seq<Length>, j: nat, i: nat, ghost a: seq<int>, ghost keys: seq<int>, ghost w: Window)
    returns (len: nat)
    requires Knows(previous, a, keys, w, i - 1) && w.begin2 <= j < w.end2
    ensures len == 1 + Common(a, keys, w, i - 1, j - 1)
  {
    for p := 0 to |previous|
      invariant forall q :: 0 <= q < p ==> previous[q].j + 1 != j
    {
      if previous[p].j + 1 == j {
        return previous[p].len + 1;
      }
    }
    return 1;
  }

  /** How many modified positions lie in `lo ..< hi`; a start below zero wraps around and counts nothing. */
  function CountBetween(modified: IndexSet, lo: int, hi: nat): nat {
    if 0 <= lo <= hi then CountIn(Members(modified), lo, hi, true) else 0
  }

  /** How many of the block's own rows are modified. */
  function OwnCount(modified: IndexSet, j: nat, size: nat): nat {
    CountIn(Members(modified), j, j + size, true)
  }

  /**
   A longer block is preferred, and among equally long ones one with fewer modified rows, as far as the best
   block's number was counted over its own rows.
   */
  method Better(best: Match, i: nat, j: nat, size: nat, modified: IndexSet) returns (m: Match)
    requires 0 < size <= i + 1 && size <= j + 1
    ensures (m.i == best.i && m.j == best.j && m.size == best.size)
         || (m.i == i + 1 - size && m.j == j + 1 - size && m.size == size)
    ensures m.size == if size > best.size then size else best.size
    ensures size > best.size ==> m.modified == None
    ensures size < best.size ==> m == best
    ensures size == best.size && best.modified == Some(OwnCount(modified, best.j, size)) ==>
      && m.modified == Some(OwnCount(modified, m.j, size))
      && m.modified.value <= OwnCount(modified, best.j, size)
      && m.modified.value <= OwnCount(modified, j + 1 - size, size)
    ensures size == best.size && best.modified.None? ==>
      if OwnCount(modified, j + 1 - size, size) < CountBetween(modified, best.j - size + 1, best.j + 1)
      then m.i == i + 1 - size && m.j == j + 1 - size else m.i == best.i && m.j == best.j
  {
    m := best;
    if size > best.size {
      m := Match(i + 1 - size, j + 1 - size, size, None);
    } else if size == best.size {
      if best.modified.None? {
        m := m.(modified := Some(CountBetween(modified, best.j - size + 1, best.j + 1)));
      }
      var count := CountBetween(modified, j - size + 1, j + 1);
      if count < m.modified.value {
        m := Match(i + 1 - size, j + 1 - size, size, Some(count));
      }
    }
  }

  /** The choice, as far as it matters for the length. */
  method LongerOrBetter(best: Match, i: nat, j: nat, size: nat, modified: IndexSet) returns (m: Match)
    requires 0 < size <= i + 1 && size <= j + 1
    ensures (m.i == best.i && m.j == best.j && m.size == best.size)
         || (m.i == i + 1 - size && m.j == j + 1 - size && m.size == size)
    ensures m.size >= best.size && m.size >= size
  {
    m := Better(best, i, j, size, modified);
  }

  /** What is counted lazily for a best block is a window that ends at its first row, not the block. */
  lemma {:induction false} LazyCountIsOff()
    ensures CountBetween([0], 1 - 2 + 1, 1 + 1) == 1 && OwnCount([0], 1, 2) == 0
  {
    assert Members([0]) == {0};
    assert CountIn({0}, 0, 1, true) == 1;
    assert CountIn({0}, 1, 2, true) == 0;
  }

  ghost predicate Best(a: seq<int>, keys: seq<int>, w: Window, best: Match, rows: nat) {
    && IsBlock(a, keys, w, best.i, best.j, best.size)
    && forall i, j :: w.begin1 <= i < rows && w.begin2 <= j < w.end2 ==> Common(a, keys, w, i, j) <= best.size
  }

  /** One row of the table: all blocks that end at `a[i]`. */
  method ScanRow(a: seq<int>, w: Window, i: nat, js: IndexSet, previous: seq<Length>, best: Match, modified: IndexSet,
                 ghost keys: seq<int>)
    returns (current: seq<Length>, best': Match)
    requires Fits(w, a, keys) && w.begin1 <= i < w.end1
    requires forall j :: j in js <==> w.begin2 <= j < w.end2 && keys[j] == a[i]
    requires Knows(previous, a, keys, w, i - 1) && Best(a, keys, w, best, i)
    ensures Knows(current, a, keys, w, i) && Best(a, keys, w, best', i + 1)
  {
    current, best' := [], best;
    for p := 0 to |js|
      invariant IsBlock(a, keys, w, best'.i, best'.j, best'.size) && best'.size >= best.size
      invariant |current| == p
      invariant forall q :: 0 <= q < p ==> current[q] == Length(js[q], Common(a, keys, w, i, js[q]))
      invariant forall q :: 0 <= q < p ==> Common(a, keys, w, i, js[q]) <= best'.size
    {
      var j := js[p];
      assert j in js;
      var size := LengthAt(previous, j, i, a, keys, w);
      assert size == Common(a, keys, w, i, j);
      CommonIsBlock(a, keys, w, i, j);
      current := current + [Length(j, size)];
      best' := LongerOrBetter(best', i, j, size, modified);
    }
    RowKnown(a, keys, w, i, js, current, best'.size);
  }

  lemma {:induction false} RowKnown(a: seq<int>, keys: seq<int>, w: Window, i: nat, js: IndexSet,
                                    current: seq<Length>, size: nat)
    requires Fits(w, a, keys) && w.begin1 <= i < w.end1 && |current| == |js|
    requires forall j :: j in js <==> w.begin2 <= j < w.end2 && keys[j] == a[i]
    requires forall q :: 0 <= q < |js| ==> current[q] == Length(js[q], Common(a, keys, w, i, js[q]))
    requires forall q :: 0 <= q < |js| ==> Common(a, keys, w, i, js[q]) <= size
    ensures Knows(current, a, keys, w, i)
    ensures forall j :: w.begin2 <= j < w.end2 ==> Common(a, keys, w, i, j) <= size
  {
    forall p | 0 <= p < |current|
      ensures w.begin2 <= current[p].j < w.end2
    {
      assert js[p] in js;
    }
    forall j | w.begin2 <= j < w.end2 && Common(a, keys, w, i, j) > 0
      ensures Common(a, keys, w, i, j) <= size && exists p :: 0 <= p < |current| && current[p].j == j
    {
      assert j in js;
      var p :| 0 <= p < |js| && js[p] == j;
      assert current[p].j == j;
    }
  }

  /** `find_longest_match`: a common block of the window, and none is longer. */
  method FindLongestMatch(a: seq<int>, b: seq<Entry>, w: Window, modified: IndexSet, ghost keys: seq<int>)
    returns (best: Match)
    requires Fits(w, a, keys) && Indexes(b, keys) && Covered(a, keys)
    ensures IsBlock(a, keys, w, best.i, best.j, best.size)
    ensures forall i: nat, j: nat, size: nat :: IsBlock(a, keys, w, i, j, size) ==> size <= best.size
  {
    best := Match(w.begin1, w.begin2, 0, Some(0));
    var previous: seq<Length> := [];
    for i: int := w.begin1 to w.end1
      invariant Knows(previous, a, keys, w, i - 1) && Best(a, keys, w, best, i)
    {
      var js := PositionsOf(b, a[i], w, keys);
      previous, best := ScanRow(a, w, i, js, previous, best, modified, keys);
    }
    forall i: nat, j: nat, size: nat | IsBlock(a, keys, w, i, j, size)
      ensures size <= best.size
    {
      if size > 0 {
        BlockIsCommon(a, keys, w, i, j, size);
      }
    }
  }

  // ----- a chain of blocks -----

  /** Common blocks of the window, none empty, each behind the one before it in both sequences. */
  ghost predicate Chain(a: seq<int>, keys: seq<int>, w: Window, ms: seq<Match>) {
    && (forall k :: 0 <= k < |ms| ==> ms[k].size > 0 && IsBlock(a, keys, w, ms[k].i, ms[k].j, ms[k].size))
    && (forall k, l :: 0 <= k < l < |ms| ==> ms[k].i + ms[k].size <= ms[l].i && ms[k].j + ms[k].size <= ms[l].j)
  }

  lemma Widen(a: seq<int>, keys: seq<int>, w: Window, w': Window, ms: seq<Match>)
    requires Chain(a, keys, w, ms) && Fits(w', a, keys)
    requires w'.begin1 <= w.begin1 && w.end1 <= w'.end1 && w'.begin2 <= w.begin2 && w.end2 <= w'.end2
    ensures Chain(a, keys, w', ms)
  {
  }

  lemma {:induction false} Joined(a: seq<int>, keys: seq<int>, w: Window, left: seq<Match>, m: Match, right: seq<Match>)
    requires m.size > 0 && IsBlock(a, keys, w, m.i, m.j, m.size)
    requires Chain(a, keys, Window(w.begin1, m.i, w.begin2, m.j), left)
    requires Chain(a, keys, Window(m.i + m.size, w.end1, m.j + m.size, w.end2), right)
    ensures Chain(a, keys, w, left + [m] + right)
  {
    Widen(a, keys, Window(w.begin1, m.i, w.begin2, m.j), w, left);
    Widen(a, keys, Window(m.i + m.size, w.end1, m.j + m.size, w.end2), w, right);
  }

  /** The pair could be kept beside the blocks: it lies before or behind each of them in both sequences. */
  predicate Addable(ms: seq<Match>, i: nat, j: nat) {
    forall k :: 0 <= k < |ms| ==>
      (i < ms[k].i && j < ms[k].j) || (i >= ms[k].i + ms[k].size && j >= ms[k].j + ms[k].size)
  }

  /** Some block is as long as any common block of the window. */
  ghost predicate HoldsLongest(a: seq<int>, keys: seq<int>, w: Window, ms: seq<Match>) {
    forall i: nat, j: nat, size: nat :: IsBlock(a, keys, w, i, j, size) && size > 0 ==>
      exists k :: 0 <= k < |ms| && size <= ms[k].size
  }

  /** Nothing could be added, except rows that stand further back in the first sequence than in the second. */
  ghost predicate Filled(a: seq<int>, keys: seq<int>, w: Window, ms: seq<Match>) {
    forall i: nat, j: nat :: IsBlock(a, keys, w, i, j, 1) && i <= j ==> !Addable(ms, i, j)
  }

  ghost predicate IsLongest(a: seq<int>, keys: seq<int>, w: Window, m: Match) {
    && m.size > 0 && IsBlock(a, keys, w, m.i, m.j, m.size)
    && forall i: nat, j: nat, size: nat :: IsBlock(a, keys, w, i, j, size) ==> size <= m.size
  }

  /** A longest block with what is found on either side of it, as far as it is looked for. */
  ghost predicate Found(a: seq<int>, keys: seq<int>, w: Window, ms: seq<Match>)
    decreases |ms|, 1
  {
    if ms == [] then forall i: nat, j: nat :: !IsBlock(a, keys, w, i, j, 1)
    else exists at :: 0 <= at < |ms| && FoundAround(a, keys, w, ms, at)
  }

  ghost predicate FoundAround(a: seq<int>, keys: seq<int>, w: Window, ms: seq<Match>, at: nat)
    requires at < |ms|
    decreases |ms|, 0
  {
    var m := ms[at];
    && IsLongest(a, keys, w, m)
    && (if m.i > w.begin1 && m.j > w.begin2
        then Found(a, keys, Window(w.begin1, m.i, w.begin2, m.j), ms[..at]) else at == 0)
    && (if m.i + m.size < w.end2 && m.j + m.size < w.end2
        then Found(a, keys, Window(m.i + m.size, w.end1, m.j + m.size, w.end2), ms[at + 1..]) else at == |ms| - 1)
  }

  /**
   `find_longest_matches`; the first bound in the last test is the source's. It can only cost rows whose
   position in the first sequence lies behind the end of the window in the second.
   */
  method FindLongestMatches(a: seq<int>, b: seq<Entry>, w: Window, modified: IndexSet, ghost keys: seq<int>)
    returns (ms: seq<Match>)
    requires Fits(w, a, keys) && Indexes(b, keys) && Covered(a, keys)
    ensures Chain(a, keys, w, ms) && HoldsLongest(a, keys, w, ms) && Filled(a, keys, w, ms)
    ensures Found(a, keys, w, ms)
    decreases w.end1 - w.begin1
  {
    var m := FindLongestMatch(a, b, w, modified, keys);
    if m.size == 0 {
      return [];
    }
    var left: seq<Match>, right: seq<Match> := [], [];
    if m.i > w.begin1 && m.j > w.begin2 {
      left := FindLongestMatches(a, b, Window(w.begin1, m.i, w.begin2, m.j), modified, keys);
    }
    if m.i + m.size < w.end2 && m.j + m.size < w.end2 {
      right := FindLongestMatches(a, b, Window(m.i + m.size, w.end1, m.j + m.size, w.end2), modified, keys);
    }
    Joined(a, keys, w, left, m, right);
    FilledAround(a, keys, w, left, m, right);
    ms := left + [m] + right;
    FoundJoined(a, keys, w, left, m, right, ms);
    assert ms[|left|] == m;
  }

  lemma {:induction false} FoundJoined(a: seq<int>, keys: seq<int>, w: Window, left: seq<Match>, m: Match,
                                       right: seq<Match>, ms: seq<Match>)
    requires IsLongest(a, keys, w, m) && ms == left + [m] + right
    requires if m.i > w.begin1 && m.j > w.begin2
             then Found(a, keys, Window(w.begin1, m.i, w.begin2, m.j), left) else left == []
    requires if m.i + m.size < w.end2 && m.j + m.size < w.end2
             then Found(a, keys, Window(m.i + m.size, w.end1, m.j + m.size, w.end2), right) else right == []
    ensures Found(a, keys, w, ms)
  {
    assert ms[|left|] == m && ms[..|left|] == left && ms[|left| + 1..] == right;
    assert FoundAround(a, keys, w, ms, |left|);
  }

  lemma {:induction false} FilledAround(a: seq<int>, keys: seq<int>, w: Window, left: seq<Match>, m: Match,
                                        right: seq<Match>)
    requires IsBlock(a, keys, w, m.i, m.j, m.size) && m.size > 0
    requires m.i > w.begin1 && m.j > w.begin2 ==> Filled(a, keys, Window(w.begin1, m.i, w.begin2, m.j), left)
    requires m.i + m.size < w.end2 && m.j + m.size < w.end2 ==>
      Filled(a, keys, Window(m.i + m.size, w.end1, m.j + m.size, w.end2), right)
    ensures Filled(a, keys, w, left + [m] + right)
  {
    var ms := left + [m] + right;
    forall i: nat, j: nat | IsBlock(a, keys, w, i, j, 1) && i <= j
      ensures !Addable(ms, i, j)
    {
      PartsAddable(left, m, right, i, j);
      if i < m.i && j < m.j {
        assert IsBlock(a, keys, Window(w.begin1, m.i, w.begin2, m.j), i, j, 1);
      } else if i >= m.i + m.size && j >= m.j + m.size {
        assert IsBlock(a, keys, Window(m.i + m.size, w.end1, m.j + m.size, w.end2), i, j, 1);
      }
    }
  }

  lemma {:induction false} PartsAddable(left: seq<Match>, m: Match, right: seq<Match>, i: nat, j: nat)
    requires m.size > 0
    ensures Addable(left + [m] + right, i, j) ==>
      && Addable(left, i, j) && Addable(right, i, j)
      && ((i < m.i && j < m.j) || (i >= m.i + m.size && j >= m.j + m.size))
  {
    var ms := left + [m] + right;
    assert ms[|left|] == m;
    assert forall k :: 0 <= k < |left| ==> ms[k] == left[k];
    assert forall k :: 0 <= k < |right| ==> ms[|left| + 1 + k] == right[k];
  }

  // ----- a row that could have been kept -----

  const OLD: seq<int> := [10, 11, 1, 2, 12, 3, 14, 4, 5, 6]
  const NEW: seq<int> := [1, 2, 3, 4, 5, 6, 10, 11, 12, 14]

  lemma {:induction false} OnlyOneLongest(i: nat, j: nat, size: nat)
    requires IsBlock(OLD, NEW, Window(0, 10, 0, 10), i, j, size) && size >= 3
    ensures i == 7 && j == 3 && size == 3
  {
    assert OLD[i] == NEW[j] && OLD[i + 1] == NEW[j + 1] && OLD[i + 2] == NEW[j + 2];
  }

  lemma {:induction false} OnlyOneToTheLeft(i: nat, j: nat, size: nat)
    requires IsBlock(OLD, NEW, Window(0, 7, 0, 3), i, j, size) && size >= 2
    ensures i == 2 && j == 0 && size == 2
  {
    assert OLD[i] == NEW[j] && OLD[i + 1] == NEW[j + 1];
    assert i == 2 && j == 0;
    assert OLD[4] != NEW[2];
  }

  /** The bound of the other sequence costs a row: key 3 is in both, between the blocks, and is not kept. */
  lemma {:induction false} RowMissed(ms: seq<Match>)
    requires Found(OLD, NEW, Window(0, 10, 0, 10), ms)
    ensures OLD[5] == NEW[2] && Addable(ms, 5, 2)
  {
    assert IsBlock(OLD, NEW, Window(0, 10, 0, 10), 7, 3, 3);
    assert IsBlock(OLD, NEW, Window(0, 10, 0, 10), 7, 3, 1);
    var at :| 0 <= at < |ms| && FoundAround(OLD, NEW, Window(0, 10, 0, 10), ms, at);
    OnlyOneLongest(ms[at].i, ms[at].j, ms[at].size);
    var left := ms[..at];
    assert Found(OLD, NEW, Window(0, 7, 0, 3), left);
    assert IsBlock(OLD, NEW, Window(0, 7, 0, 3), 2, 0, 2);
    assert IsBlock(OLD, NEW, Window(0, 7, 0, 3), 2, 0, 1);
    var at' :| 0 <= at' < |left| && FoundAround(OLD, NEW, Window(0, 7, 0, 3), left, at');
    OnlyOneToTheLeft(left[at'].i, left[at'].j, left[at'].size);
  }
}
