/** `std::sort`, with what its callers may rely on. */
module Sorting {

  ghost predicate TotalOrder<T(!new)>(atMost: (T, T) -> bool) {
    && (forall x, y :: atMost(x, y) || atMost(y, x))
    && (forall x, y, z :: atMost(x, y) && atMost(y, z) ==> atMost(x, z))
  }

  ghost predicate Ascending<T>(s: seq<T>, atMost: (T, T) -> bool) {
    forall p, q :: 0 <= p < q < |s| ==> atMost(s[p], s[q])
  }

  ghost predicate NoneTwice<T>(s: seq<T>) {
    forall p, q :: 0 <= p < q < |s| ==> s[p] != s[q]
  }

  /** The same elements in ascending order; elements that tie may come in any order. */
  method SortBy<T(!new)>(items: seq<T>, atMost: (T, T) -> bool) returns (sorted: seq<T>)
    requires TotalOrder(atMost)
    ensures multiset(sorted) == multiset(items) && |sorted| == |items|
    ensures Ascending(sorted, atMost)
  {
    sorted := [];
    for k := 0 to |items|
      invariant |sorted| == k && multiset(sorted) == multiset(items[..k]) && Ascending(sorted, atMost)
    {
      assert items[..k + 1] == items[..k] + [items[k]];
      sorted := Insert(sorted, items[k], atMost);
    }
    assert items[..|items|] == items;
  }

  method Insert<T(!new)>(s: seq<T>, x: T, atMost: (T, T) -> bool) returns (out: seq<T>)
    requires TotalOrder(atMost) && Ascending(s, atMost)
    ensures multiset(out) == multiset(s) + multiset{x} && |out| == |s| + 1
    ensures Ascending(out, atMost)
  {
    var at := 0;
    while at < |s| && atMost(s[at], x)
      invariant at <= |s| && forall p :: 0 <= p < at ==> atMost(s[p], x)
    {
      at := at + 1;
    }
    assert s == s[..at] + s[at..];
    InsertedAscends(s, x, at, atMost);
    out := s[..at] + [x] + s[at..];
  }

  lemma {:induction false} InsertedAscends<T(!new)>(s: seq<T>, x: T, at: nat, atMost: (T, T) -> bool)
    requires TotalOrder(atMost) && Ascending(s, atMost) && at <= |s|
    requires forall p :: 0 <= p < at ==> atMost(s[p], x)
    requires at < |s| ==> atMost(x, s[at])
    ensures Ascending(s[..at] + [x] + s[at..], atMost)
  {
    forall q | at <= q < |s|
      ensures atMost(x, s[q])
    {
      assert at < q ==> atMost(s[at], s[q]);
    }
  }

  /** Whether anything occurs twice does not depend on the order. */
  lemma {:induction false} OnceEach<T>(s: seq<T>)
    ensures NoneTwice(s) <==> forall x :: multiset(s)[x] <= 1
  {
    if s != [] {
      var front, last := s[..|s| - 1], s[|s| - 1];
      assert s == front + [last];
      OnceEach(front);
      assert multiset(s)[last] == multiset(front)[last] + 1;
      assert last in front <==> multiset(front)[last] > 0;
      if NoneTwice(s) {
        forall x
          ensures multiset(s)[x] <= 1
        {
          assert NoneTwice(front);
        }
      } else if NoneTwice(front) {
        assert last in front;
      } else {
        var x :| multiset(front)[x] > 1;
        assert multiset(s)[x] > 1;
      }
    }
  }

  lemma {:induction false} SortedOnceEach<T>(items: seq<T>, sorted: seq<T>)
    requires multiset(sorted) == multiset(items) && NoneTwice(items)
    ensures NoneTwice(sorted)
    ensures forall x :: x in sorted <==> x in items
  {
    OnceEach(items);
    OnceEach(sorted);
    assert forall x :: x in sorted <==> x in multiset(sorted);
    assert forall x :: x in items <==> x in multiset(items);
  }
}
