/**
 The observation infos of a class, Realm/RLMObservation.hpp and
 Realm/RLMObservation.mm: all infos for one row form an intrusive doubly linked
 list whose head is stored in the class.
 */
module ObserverChains {
  import opened Outcomes

  class ObservationInfo {
    var next: ObservationInfo?
    var prev: ObservationInfo?
    var row: Option<nat>
    var invalidated: bool
    /** The observed object. */
    const observed: nat

    constructor (observed: nat)
      ensures next == null && prev == null && row == None && !invalidated && this.observed == observed
    {
      next, prev, row, invalidated, this.observed := null, null, None, false, observed;
    }
  }

  /** `nodes` is the whole list of infos for `row`, from its head to its end. */
  ghost predicate IsChain(nodes: seq<ObservationInfo>, row: nat)
    reads nodes
  {
    && nodes != []
    && nodes[0].prev == null && nodes[|nodes| - 1].next == null
    && (forall i :: 0 <= i < |nodes| ==> nodes[i].row == Some(row))
    && (forall i, j :: 0 <= i < j < |nodes| ==> nodes[i] != nodes[j])
    && (forall i {:trigger nodes[i].next} :: 0 <= i < |nodes| - 1 ==> nodes[i].next == nodes[i + 1])
    && (forall i {:trigger nodes[i].prev} :: 1 <= i < |nodes| ==> nodes[i].prev == nodes[i - 1])
  }

  function Observed(nodes: seq<ObservationInfo>): seq<nat> {
    seq(|nodes|, i requires 0 <= i < |nodes| => nodes[i].observed)
  }

  function Backwards(s: seq<nat>): seq<nat> {
    if s == [] then [] else [s[|s| - 1]] + Backwards(s[..|s| - 1])
  }

  lemma {:induction false} BackwardsKeeps(s: seq<nat>)
    ensures multiset(Backwards(s)) == multiset(s) && |Backwards(s)| == |s|
  {
    if s != [] {
      BackwardsKeeps(s[..|s| - 1]);
      assert s == s[..|s| - 1] + [s[|s| - 1]];
    }
  }

  /** `forEach` from anywhere in a chain: predecessors in reverse, then the start and its successors. */
  method ForEach(start: ObservationInfo, ghost chain: seq<ObservationInfo>, ghost at: nat, ghost row: nat)
    returns (visited: seq<nat>)
    requires IsChain(chain, row) && at < |chain| && chain[at] == start
    ensures visited == Backwards(Observed(chain[..at])) + Observed(chain[at..])
  {
    visited := [];
    var info := start.prev;
    ghost var k: nat := at;
    while info != null
      invariant k <= at
      invariant if k == 0 then info == null else info == chain[k - 1]
      invariant visited + Backwards(Observed(chain[..k])) == Backwards(Observed(chain[..at]))
      decreases k
    {
      PeelLast(chain, k);
      visited := visited + [info.observed];
      info := info.prev;
      k := k - 1;
    }
    assert chain[..0] == [] && visited == Backwards(Observed(chain[..at]));
    ghost var before := visited;
    info := start;
    k := at;
    while info != null
      invariant at <= k <= |chain|
      invariant if k == |chain| then info == null else info == chain[k]
      invariant visited == before + Observed(chain[at..k])
      decreases |chain| - k
    {
      assert chain[at..k + 1] == chain[at..k] + [chain[k]];
      visited := visited + [info.observed];
      info := info.next;
      k := k + 1;
    }
    assert chain[at..k] == chain[at..];
  }

  lemma {:induction false} PeelLast(chain: seq<ObservationInfo>, k: nat)
    requires 0 < k <= |chain|
    ensures Backwards(Observed(chain[..k])) == [chain[k - 1].observed] + Backwards(Observed(chain[..k - 1]))
  {
    assert Observed(chain[..k])[..k - 1] == Observed(chain[..k - 1]);
  }

  /** Wherever it starts, the walk meets every info of the row exactly once. */
  lemma {:induction false} VisitsEachOnce(chain: seq<ObservationInfo>, at: nat, visited: seq<nat>)
    requires at < |chain| && visited == Backwards(Observed(chain[..at])) + Observed(chain[at..])
    ensures multiset(visited) == multiset(Observed(chain)) && |visited| == |chain|
  {
    BackwardsKeeps(Observed(chain[..at]));
    assert Observed(chain) == Observed(chain[..at]) + Observed(chain[at..]);
  }

  /** `prepareForInvalidation`, called on the head: marks the whole chain and nothing else. */
  method PrepareForInvalidation(head: ObservationInfo, ghost chain: seq<ObservationInfo>, ghost row: nat)
    requires IsChain(chain, row) && chain[0] == head
    modifies chain
    ensures IsChain(chain, row)
    ensures forall i :: 0 <= i < |chain| ==> chain[i].invalidated
  {
    var info: ObservationInfo? := head;
    ghost var k := 0;
    while info != null
      invariant k <= |chain|
      invariant if k == |chain| then info == null else info == chain[k]
      invariant IsChain(chain, row)
      invariant forall i :: 0 <= i < k ==> chain[i].invalidated
      decreases |chain| - k
    {
      info.invalidated := true;
      info := info.next;
      k := k + 1;
    }
  }

  // ----- linking and unlinking one info -----

  /** Links `info` right behind the head. */
  method LinkBehind(head: ObservationInfo, info: ObservationInfo, row: nat, ghost chain: seq<ObservationInfo>,
                    ghost longer: seq<ObservationInfo>)
    requires IsChain(chain, row) && chain[0] == head && info !in chain
    requires |longer| == |chain| + 1 && longer[0] == head && longer[1] == info
    requires forall i :: 2 <= i < |longer| ==> longer[i] == chain[i - 1]
    modifies chain, info
    ensures IsChain(longer, row)
  {
    info.row := Some(row);
    info.prev := head;
    info.next := head.next;
    if info.next != null {
      assert info.next == chain[1];
      info.next.prev := info;
    }
    head.next := info;
  }

  /** Detaches an info that is not the head. */
  method UnlinkInner(info: ObservationInfo, ghost row: nat, ghost chain: seq<ObservationInfo>, ghost at: nat,
                     ghost shorter: seq<ObservationInfo>)
    requires IsChain(chain, row) && 0 < at < |chain| && chain[at] == info && |shorter| == |chain| - 1
    requires forall i :: 0 <= i < |shorter| ==> shorter[i] == chain[if i < at then i else i + 1]
    modifies chain
    ensures IsChain(shorter, row)
  {
    var prev, next := info.prev, info.next;
    assert prev == shorter[at - 1] && next == if at < |shorter| then shorter[at] else null;
    prev.next := next;
    if next != null {
      next.prev := prev;
    }
  }

  /** Detaches the head of a longer chain; the next info becomes the head. */
  method UnlinkHead(info: ObservationInfo, ghost row: nat, ghost chain: seq<ObservationInfo>,
                    ghost shorter: seq<ObservationInfo>)
    requires IsChain(chain, row) && chain[0] == info && |chain| > 1 && |shorter| == |chain| - 1
    requires forall i :: 0 <= i < |shorter| ==> shorter[i] == chain[i + 1]
    modifies chain
    ensures IsChain(shorter, row)
  {
    var next := info.next;
    next.prev := null;
  }

  // ----- the heads kept by the class -----

  /** `observed` holds, for each row in `rows`, the head of its chain. */
  ghost predicate Heads(observed: seq<ObservationInfo>, rows: seq<nat>, chains: map<nat, seq<ObservationInfo>>) {
    && |rows| == |observed|
    && (forall i, j :: 0 <= i < j < |rows| ==> rows[i] != rows[j])
    && (forall i :: 0 <= i < |rows| ==> rows[i] in chains && chains[rows[i]] != [] && chains[rows[i]][0] == observed[i])
    && (forall r :: r in chains ==> r in rows)
  }

  /** Changing a chain behind its head. */
  lemma HeadsKept(observed: seq<ObservationInfo>, rows: seq<nat>, chains: map<nat, seq<ObservationInfo>>,
                  key: nat, chain: seq<ObservationInfo>)
    requires Heads(observed, rows, chains) && key in chains && chains[key] != []
    requires chain != [] && chain[0] == chains[key][0]
    ensures Heads(observed, rows, chains[key := chain])
  {
  }

  /** A new chain. */
  lemma HeadsAdded(observed: seq<ObservationInfo>, rows: seq<nat>, chains: map<nat, seq<ObservationInfo>>,
                   key: nat, info: ObservationInfo)
    requires Heads(observed, rows, chains) && key !in chains
    ensures Heads(observed + [info], rows + [key], chains[key := [info]])
  {
  }

  /** A new head for a row. */
  lemma HeadsReplaced(observed: seq<ObservationInfo>, rows: seq<nat>, chains: map<nat, seq<ObservationInfo>>,
                      k: nat, chain: seq<ObservationInfo>)
    requires Heads(observed, rows, chains) && k < |rows| && chain != []
    ensures Heads(observed[k := chain[0]], rows, chains[rows[k] := chain])
  {
  }

  /** Dropping an entry by overwriting it with the last one. */
  method DropEntry(observed: seq<ObservationInfo>, k: nat,
                   ghost rows: seq<nat>, ghost chains: map<nat, seq<ObservationInfo>>)
    returns (observed': seq<ObservationInfo>, ghost rows': seq<nat>)
    requires Heads(observed, rows, chains) && k < |rows|
    ensures Heads(observed', rows', chains - {rows[k]})
  {
    var last := |observed| - 1;
    observed' := observed[k := observed[last]][..last];
    rows' := rows[k := rows[last]][..last];
    forall r | r in chains - {rows[k]}
      ensures r in rows'
    {
      var i :| 0 <= i < |rows| && rows[i] == r;
      assert rows'[if i == last then k else i] == r;
    }
  }

  /** All infos of all chains. */
  ghost predicate Covered(chains: map<nat, seq<ObservationInfo>>, infos: set<ObservationInfo>) {
    forall r, n :: r in chains && n in chains[r] ==> n in infos
  }

  // ----- all chains of a class -----

  /** The chains of all rows, made of these infos. */
  ghost predicate AllChains(chains: map<nat, seq<ObservationInfo>>, infos: set<ObservationInfo>)
    reads infos
  {
    && Covered(chains, infos)
    && forall r :: r in chains ==> IsChain(chains[r], r)
  }

  function Nodes(chain: seq<ObservationInfo>): set<ObservationInfo> {
    set n | n in chain
  }

  /** The chains of the other rows, which have no info in common with this row's. */
  lemma {:induction false} Separate(chains: map<nat, seq<ObservationInfo>>, infos: set<ObservationInfo>, key: nat)
    requires AllChains(chains, infos) && key in chains
    ensures AllChains(chains - {key}, infos - Nodes(chains[key])) && Nodes(chains[key]) <= infos
  {
    forall r, n | r in chains && r != key && n in chains[r]
      ensures n !in chains[key]
    {
      assert IsChain(chains[r], r) && IsChain(chains[key], key);
    }
  }

  /** Putting a chain for `key` beside those of the other rows. */
  lemma {:induction false} Reunite(others: map<nat, seq<ObservationInfo>>, rest: set<ObservationInfo>, key: nat,
                                   chain: seq<ObservationInfo>, chains: map<nat, seq<ObservationInfo>>,
                                   infos: set<ObservationInfo>)
    requires AllChains(others, rest) && key !in others && IsChain(chain, key)
    requires chains == others[key := chain] && infos == rest + Nodes(chain)
    ensures AllChains(chains, infos)
  {
    forall r | r in chains
      ensures IsChain(chains[r], r)
    {
      assert r != key ==> IsChain(others[r], r);
    }
  }

  /** Links `info` behind the head of the chain of `key`; the other chains are not touched. */
  method LinkAmong(head: ObservationInfo, info: ObservationInfo, key: nat, ghost longer: seq<ObservationInfo>,
                   ghost chains: map<nat, seq<ObservationInfo>>, ghost infos: set<ObservationInfo>)
    requires AllChains(chains, infos) && info !in infos && key in chains && chains[key] != [] && chains[key][0] == head
    requires longer == [head, info] + chains[key][1..]
    modifies infos, info
    ensures AllChains(chains[key := longer], infos + {info})
  {
    ghost var chain, rest := chains[key], infos - Nodes(chains[key]);
    Separate(chains, infos, key);
    LinkBehind(head, info, key, chain, longer);
    OneMore(chain, info, longer);
    Reunite(chains - {key}, rest, key, longer, chains[key := longer], infos + {info});
  }

  lemma {:induction false} OneMore(chain: seq<ObservationInfo>, info: ObservationInfo, longer: seq<ObservationInfo>)
    requires chain != [] && longer == [chain[0], info] + chain[1..]
    ensures Nodes(longer) == Nodes(chain) + {info}
  {
    assert chain == [chain[0]] + chain[1..];
  }

  /** Takes an info that is not the head out of the chain of `key`. */
  method UnlinkInnerAmong(info: ObservationInfo, ghost key: nat, ghost at: nat, ghost shorter: seq<ObservationInfo>,
                          ghost chains: map<nat, seq<ObservationInfo>>, ghost infos: set<ObservationInfo>)
    requires AllChains(chains, infos) && key in chains && 0 < at < |chains[key]| && chains[key][at] == info
    requires shorter == chains[key][..at] + chains[key][at + 1..]
    modifies infos
    ensures AllChains(chains[key := shorter], infos - {info})
  {
    ghost var chain, rest := chains[key], infos - Nodes(chains[key]);
    Separate(chains, infos, key);
    OneLess(chain, key, at, shorter);
    UnlinkInner(info, key, chain, at, shorter);
    Reunite(chains - {key}, rest, key, shorter, chains[key := shorter], infos - {info});
  }

  /** Takes the head out of the chain of `key`, which has more infos. */
  method UnlinkHeadAmong(info: ObservationInfo, ghost key: nat, ghost shorter: seq<ObservationInfo>,
                         ghost chains: map<nat, seq<ObservationInfo>>, ghost infos: set<ObservationInfo>)
    requires AllChains(chains, infos) && key in chains && |chains[key]| > 1 && chains[key][0] == info
    requires shorter == chains[key][..0] + chains[key][1..]
    modifies infos
    ensures AllChains(chains[key := shorter], infos - {info})
  {
    ghost var chain, rest := chains[key], infos - Nodes(chains[key]);
    Separate(chains, infos, key);
    OneLess(chain, key, 0, shorter);
    UnlinkHead(info, key, chain, shorter);
    Reunite(chains - {key}, rest, key, shorter, chains[key := shorter], infos - {info});
  }

  lemma {:induction false} OneLess(chain: seq<ObservationInfo>, row: nat, at: nat, shorter: seq<ObservationInfo>)
    requires IsChain(chain, row) && at < |chain| && shorter == chain[..at] + chain[at + 1..]
    ensures |shorter| == |chain| - 1
    ensures forall i :: 0 <= i < |shorter| ==> shorter[i] == chain[if i < at then i else i + 1]
    ensures Nodes(shorter) == Nodes(chain) - {chain[at]}
  {
    forall n | n in chain && n != chain[at]
      ensures n in shorter
    {
      var i :| 0 <= i < |chain| && chain[i] == n;
      assert shorter[if i < at then i else i - 1] == n;
    }
  }

  /** Starts a chain of one. */
  method ChainAmong(info: ObservationInfo, key: nat,
                    ghost chains: map<nat, seq<ObservationInfo>>, ghost infos: set<ObservationInfo>)
    requires AllChains(chains, infos) && info !in infos && key !in chains && info.next == null && info.prev == null
    modifies info
    ensures AllChains(chains[key := [info]], infos + {info})
  {
    info.row := Some(key);
    assert Nodes([info]) == {info};
    Reunite(chains, infos, key, [info], chains[key := [info]], infos + {info});
  }

  lemma {:induction false} ChainDropped(chains: map<nat, seq<ObservationInfo>>, infos: set<ObservationInfo>, key: nat,
                                        info: ObservationInfo)
    requires AllChains(chains, infos) && key in chains && chains[key] == [info]
    ensures AllChains(chains - {key}, infos - {info})
  {
    Separate(chains, infos, key);
    assert Nodes(chains[key]) == {info};
  }

  // ----- the class -----

  /** `observedObjects` holds the head of the chain of each observed row; `rows[i]` is the row of its `i`th entry. */
  class ClassInfo {
    var observedObjects: seq<ObservationInfo>
    ghost var rows: seq<nat>
    ghost var chains: map<nat, seq<ObservationInfo>>
    ghost var Repr: set<ObservationInfo>

    ghost predicate Valid()
      reads this, Repr
    {
      AllChains(chains, Repr) && Heads(observedObjects, rows, chains)
    }

    constructor ()
      ensures Valid() && chains == map[] && observedObjects == []
    {
      observedObjects, rows, chains, Repr := [], [], map[], {};
    }

    /** The entry for a row: `observedObjects` is searched for an info of that row. */
    method FindRow(key: nat) returns (k: Option<nat>)
      requires Valid()
      ensures k.None? <==> key !in chains
      ensures k.Some? ==> k.value < |observedObjects| && rows[k.value] == key
    {
      for i := 0 to |observedObjects|
        invariant forall j :: 0 <= j < i ==> rows[j] != key
      {
        assert IsChain(chains[rows[i]], rows[i]);
        if observedObjects[i].row == Some(key) {
          return Some(i);
        }
      }
      return None;
    }

    /** `setRow`: joins the chain of the row right behind its head, or starts a chain. */
    method SetRow(info: ObservationInfo, key: nat)
      requires Valid() && info !in Repr && info.next == null && info.prev == null
      modifies this, info, Repr
      ensures Valid() && Repr == old(Repr) + {info}
      ensures chains == old(chains)[key := if key in old(chains) && old(chains)[key] != []
                                           then [old(chains)[key][0], info] + old(chains)[key][1..] else [info]]
    {
      var k := FindRow(key);
      if k.Some? {
        JoinChain(observedObjects[k.value], info, key);
      } else {
        StartChain(info, key);
      }
    }

    method StartChain(info: ObservationInfo, key: nat)
      requires Valid() && info !in Repr && info.next == null && info.prev == null && key !in chains
      modifies this, info
      ensures Valid() && Repr == old(Repr) + {info} && chains == old(chains)[key := [info]]
    {
      HeadsAdded(observedObjects, rows, chains, key, info);
      ChainAmong(info, key, chains, Repr);
      observedObjects, rows := observedObjects + [info], rows + [key];
      chains, Repr := chains[key := [info]], Repr + {info};
    }

    method JoinChain(head: ObservationInfo, info: ObservationInfo, key: nat)
      requires Valid() && info !in Repr && key in chains && chains[key] != [] && chains[key][0] == head
      modifies this, info, Repr
      ensures Valid() && Repr == old(Repr) + {info}
      ensures chains == old(chains)[key := [head, info] + old(chains)[key][1..]]
    {
      ghost var longer := [head, info] + chains[key][1..];
      HeadsKept(observedObjects, rows, chains, key, longer);
      chains, Repr := chains[key := longer], Repr + {info};
      LinkAmong(head, info, key, longer, old(chains), old(Repr));
    }

    /** `~RLMObservationInfo`: leaves its chain; a head is replaced by its successor, or its entry is dropped. */
    method Destroy(info: ObservationInfo, ghost key: nat, ghost at: nat)
      requires Valid() && key in chains && at < |chains[key]| && chains[key][at] == info
      modifies this, Repr
      ensures Valid() && Repr == old(Repr) - {info}
      ensures chains == if |old(chains)[key]| == 1 then old(chains) - {key}
                        else old(chains)[key := old(chains)[key][..at] + old(chains)[key][at + 1..]]
    {
      assert IsChain(chains[key], key);
      if info.prev != null {
        LeaveChain(info, key, at);
      } else {
        var k := FindRow(info.row.value);
        if info.next != null {
          PromoteNext(info, k.value);
        } else {
          DropRow(info, k.value);
        }
      }
    }

    method LeaveChain(info: ObservationInfo, ghost key: nat, ghost at: nat)
      requires Valid() && key in chains && 0 < at < |chains[key]| && chains[key][at] == info
      modifies this, Repr
      ensures Valid() && Repr == old(Repr) - {info}
      ensures chains == old(chains)[key := old(chains)[key][..at] + old(chains)[key][at + 1..]]
    {
      ghost var shorter := chains[key][..at] + chains[key][at + 1..];
      HeadsKept(observedObjects, rows, chains, key, shorter);
      chains, Repr := chains[key := shorter], Repr - {info};
      UnlinkInnerAmong(info, key, at, shorter, old(chains), old(Repr));
    }

    method PromoteNext(info: ObservationInfo, k: nat)
      requires Valid() && k < |rows| && chains[rows[k]][0] == info && |chains[rows[k]]| > 1
      modifies this, Repr
      ensures Valid() && Repr == old(Repr) - {info}
      ensures chains == old(chains)[old(rows)[k] := old(chains)[old(rows)[k]][..0] + old(chains)[old(rows)[k]][1..]]
    {
      ghost var key, shorter := rows[k], chains[rows[k]][..0] + chains[rows[k]][1..];
      HeadsReplaced(observedObjects, rows, chains, k, shorter);
      assert IsChain(chains[key], key) && info.next == shorter[0];
      observedObjects, chains, Repr := observedObjects[k := info.next], chains[key := shorter], Repr - {info};
      UnlinkHeadAmong(info, key, shorter, old(chains), old(Repr));
    }

    method DropRow(info: ObservationInfo, k: nat)
      requires Valid() && k < |rows| && chains[rows[k]] == [info]
      modifies this
      ensures Valid() && Repr == old(Repr) - {info}
      ensures chains == old(chains) - {old(rows)[k]}
    {
      ghost var key, others := rows[k], chains - {rows[k]};
      ChainDropped(chains, Repr, key, info);
      observedObjects, rows := DropEntry(observedObjects, k, rows, chains);
      chains, Repr := others, Repr - {info};
    }
  }
}
