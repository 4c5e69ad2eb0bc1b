/**
 Aligning two sequences of keys along a chain of common blocks, the last loop of
 `calculate_moves_sorted`,
 Realm/ObjectStore/src/impl/collection_change_builder.cpp.
 */
module RowAlignment {
  import opened Outcomes
  import opened Selections
  import opened IndexSetOperations
  import opened CommonBlocks

  /** The positions `lo ..< lo + size`. */
  function Span(lo: nat, size: nat): (r: IndexSet)
    ensures |r| == size && forall k :: 0 <= k < size ==> r[k] == lo + k
  {
    seq(size, k requires 0 <= k < size => lo + k)
  }

  /** The positions named by those entries of `at`, among the first `n`, that are not kept. */
  function Dropped(at: seq<nat>, n: nat, kept: seq<nat>): set<nat>
    requires n <= |at|
  {
    set x | 0 <= x < n && x !in kept :: at[x]
  }

  function Between(at: seq<nat>, from: nat, to: nat): set<nat>
    requires from <= to <= |at|
  {
    set x | from <= x < to :: at[x]
  }

  predicate Inside(u: IndexSet, n: nat) {
    forall r :: 0 <= r < |u| ==> u[r] < n
  }

  /** `u` and `v` pick as many positions of both sequences, in order, with the same keys. */
  ghost predicate Together(a: seq<int>, b: seq<int>, u: IndexSet, v: IndexSet) {
    && |u| == |v| && Inside(u, |a|) && Inside(v, |b|)
    && forall r :: 0 <= r < |u| ==> a[u[r]] == b[v[r]]
  }

  method AddBetween(self: IndexSet, at: seq<nat>, from: nat, to: nat) returns (r: IndexSet)
    requires from <= to <= |at|
    ensures Members(r) == Members(self) + Between(at, from, to)
  {
    r := self;
    for k := from to to
      invariant Members(r) == Members(self) + Between(at, from, k)
    {
      r := Add(r, at[k]);
    }
  }

  /** The state of the alignment after the first `i` and `j` positions. */
  ghost predicate Aligning(a: seq<int>, b: seq<int>, i: nat, j: nat, u: IndexSet, v: IndexSet) {
    && i <= |a| && j <= |b|
    && Together(a, b, u, v) && Inside(u, i) && Inside(v, j)
  }

  lemma {:induction false} AlignBlock(a: seq<int>, b: seq<int>, i: nat, j: nat, u: IndexSet, v: IndexSet, m: Match)
    requires Aligning(a, b, i, j, u, v) && i <= m.i && j <= m.j && m.i + m.size <= |a| && m.j + m.size <= |b|
    requires forall x :: m.i <= x < m.i + m.size ==> a[x] == b[x - m.i + m.j]
    ensures StrictlyAscending(u + Span(m.i, m.size)) && StrictlyAscending(v + Span(m.j, m.size))
    ensures Aligning(a, b, m.i + m.size, m.j + m.size, u + Span(m.i, m.size), v + Span(m.j, m.size))
  {
    SpanAdded(u, i, m.i, m.size);
    SpanAdded(v, j, m.j, m.size);
    var u', v' := u + Span(m.i, m.size), v + Span(m.j, m.size);
    forall r | 0 <= r < |u'|
      ensures a[u'[r]] == b[v'[r]]
    {
      if r >= |u| {
        assert u'[r] == m.i + (r - |u|) && v'[r] == m.j + (r - |u|);
      }
    }
  }

  lemma {:induction false} SpanAdded(u: IndexSet, i: nat, lo: nat, size: nat)
    requires Inside(u, i) && i <= lo
    ensures StrictlyAscending(u + Span(lo, size))
    ensures forall x :: x in u + Span(lo, size) <==> x in u || lo <= x < lo + size
    ensures forall r :: 0 <= r < |u| + size ==> (u + Span(lo, size))[r] < lo + size
  {
    forall x | lo <= x < lo + size
      ensures x in Span(lo, size)
    {
      assert Span(lo, size)[x - lo] == x;
    }
  }

  /** What the gap before a block adds to what is dropped. */
  lemma {:induction false} DroppedGrows(at: seq<nat>, i: nat, u: IndexSet, lo: nat, size: nat)
    requires Inside(u, i) && i <= lo && lo + size <= |at|
    ensures Dropped(at, lo + size, u + Span(lo, size)) == Dropped(at, i, u) + Between(at, i, lo)
  {
    SpanAdded(u, i, lo, size);
    var u' := u + Span(lo, size);
    forall y | y in Dropped(at, lo + size, u')
      ensures y in Dropped(at, i, u) + Between(at, i, lo)
    {
      var x :| 0 <= x < lo + size && x !in u' && at[x] == y;
    }
    forall y | y in Dropped(at, i, u) + Between(at, i, lo)
      ensures y in Dropped(at, lo + size, u')
    {
      if y in Dropped(at, i, u) {
        var x :| 0 <= x < i && x !in u && at[x] == y;
        assert x !in u';
      } else {
        var x :| i <= x < lo && at[x] == y;
        assert x !in u';
      }
    }
  }

  /** The gap before one block is dropped, the block kept. */
  method AlignMatch(a: seq<int>, b: seq<int>, olds: seq<nat>, news: seq<nat>, i: nat, j: nat, m: Match,
                    deletions: IndexSet, insertions: IndexSet,
                    ghost u: IndexSet, ghost v: IndexSet, ghost before: set<nat>, ghost after: set<nat>)
    returns (deletions': IndexSet, insertions': IndexSet, ghost u': IndexSet, ghost v': IndexSet)
    requires |olds| == |a| && |news| == |b| && Aligning(a, b, i, j, u, v)
    requires i <= m.i && j <= m.j && m.i + m.size <= |a| && m.j + m.size <= |b|
    requires forall x :: m.i <= x < m.i + m.size ==> a[x] == b[x - m.i + m.j]
    requires Members(deletions) == before + Dropped(olds, i, u)
    requires Members(insertions) == after + Dropped(news, j, v)
    ensures Aligning(a, b, m.i + m.size, m.j + m.size, u', v') && |u'| == |u| + m.size
    ensures Members(deletions') == before + Dropped(olds, m.i + m.size, u')
    ensures Members(insertions') == after + Dropped(news, m.j + m.size, v')
  {
    AlignBlock(a, b, i, j, u, v, m);
    DroppedGrows(olds, i, u, m.i, m.size);
    DroppedGrows(news, j, v, m.j, m.size);
    deletions' := AddBetween(deletions, olds, i, m.i);
    insertions' := AddBetween(insertions, news, j, m.j);
    u', v' := u + Span(m.i, m.size), v + Span(m.j, m.size);
  }

  /** The loop that deletes and inserts rows to align the sequences, from the first difference on. */
  method AlignMatches(a: seq<int>, b: seq<int>, olds: seq<nat>, news: seq<nat>, first: nat, ms: seq<Match>,
                      deletions: IndexSet, insertions: IndexSet)
    returns (deletions': IndexSet, insertions': IndexSet, ghost u: IndexSet, ghost v: IndexSet)
    requires |olds| == |a| && |news| == |b| && first <= |a| && first <= |b|
    requires forall x :: 0 <= x < first ==> a[x] == b[x]
    requires Chain(a, b, Window(first, |a|, first, |b|), ms)
    ensures Together(a, b, u, v) && first <= |u| && forall k :: 0 <= k < |ms| ==> first + ms[k].size <= |u|
    ensures Members(deletions') == Members(deletions) + Dropped(olds, |olds|, u)
    ensures Members(insertions') == Members(insertions) + Dropped(news, |news|, v)
  {
    deletions', insertions', u, v := deletions, insertions, Span(0, first), Span(0, first);
    NoneDropped(olds, first);
    NoneDropped(news, first);
    var i: nat, j: nat := first, first;
    for k := 0 to |ms|
      invariant Aligning(a, b, i, j, u, v) && (k < |ms| ==> i <= ms[k].i && j <= ms[k].j)
      invariant first <= |u| && forall l :: 0 <= l < k ==> first + ms[l].size <= |u|
      invariant Members(deletions') == Members(deletions) + Dropped(olds, i, u)
      invariant Members(insertions') == Members(insertions) + Dropped(news, j, v)
    {
      var m := ms[k];
      ChainStep(a, b, Window(first, |a|, first, |b|), ms, k);
      deletions', insertions', u, v := AlignMatch(a, b, olds, news, i, j, m, deletions', insertions', u, v,
                                                  Members(deletions), Members(insertions));
      i, j := m.i + m.size, m.j + m.size;
    }
    var end := Match(|a|, |b|, 0, None);
    deletions', insertions', u, v := AlignMatch(a, b, olds, news, i, j, end, deletions', insertions', u, v,
                                                Members(deletions), Members(insertions));
  }

  lemma {:induction false} ChainStep(a: seq<int>, b: seq<int>, w: Window, ms: seq<Match>, k: nat)
    requires Chain(a, b, w, ms) && k < |ms|
    ensures var m := ms[k];
      && m.i + m.size <= |a| && m.j + m.size <= |b|
      && (forall x :: m.i <= x < m.i + m.size ==> a[x] == b[x - m.i + m.j])
      && (k + 1 < |ms| ==> m.i + m.size <= ms[k + 1].i && m.j + m.size <= ms[k + 1].j)
  {
    assert IsBlock(a, b, w, ms[k].i, ms[k].j, ms[k].size);
  }

  lemma {:induction false} NoneDropped(at: seq<nat>, n: nat)
    requires n <= |at|
    ensures Dropped(at, n, Span(0, n)) == {}
  {
    forall x | 0 <= x < n
      ensures x in Span(0, n)
    {
      assert Span(0, n)[x] == x;
    }
  }
}
