/**
 `CollectionNotifier`'s code, each locked section proved to be a step of the
 machine in `Notifiers`. The delivery loop gives up the lock around every call,
 so one turn of it is a section of its own. The ghost fields are the machine's
 bookkeeping.
 */
module CollectionNotifiers {
  import opened Outcomes
  import opened ChangeSets
  import opened RowChanges
  import opened StoredChanges
  import opened ChangeMerging
  import opened CallbackTrails
  import opened Notifiers

  datatype Callback = Callback(
    token: nat, accumulated: Stored, pending: StoredFinal, initialDelivered: bool, skipNext: bool)

  const EMPTY := Stored([], [], [], [])
  const EMPTY_FINAL := StoredFinal([], [], [], [], [])

  /** The record and its counterpart in the machine agree. */
  ghost predicate Mirrors(c: Callback, o: Observer) {
    && c.token == o.token && c.initialDelivered == o.initialDelivered && c.skipNext == o.skipNext
    && c.accumulated.Valid() && c.accumulated.View() == o.accumulated
    && c.pending.View() == o.pending
  }

  ghost predicate AllMirror(cs: seq<Callback>, os: seq<Observer>) {
    |cs| == |os| && forall i :: 0 <= i < |cs| ==> Mirrors(cs[i], os[i])
  }

  lemma EmptyIsNothing()
    ensures EMPTY.Valid() && EMPTY.View() == NOTHING && EMPTY_FINAL.View() == NO_CHANGE
  {
  }

  /** One callback takes in a change, or skips it. */
  method Absorb(c: Callback, change: Stored, ghost o: Observer, ghost rows: seq<Row>, ghost after: seq<Row>)
    returns (c': Callback, ghost o': Observer)
    requires Mirrors(c, o) && change.Valid()
    ensures Mirrors(c', o') && Changed(o, change.View(), rows, after, o')
  {
    if c.skipNext {
      c' := c.(skipNext := false);
      o' := o.(skipNext := false, base := after, trail := o.trail + [Suppressed(rows, after)]);
    } else {
      var merged, order := MergeStored(c.accumulated, change);
      c' := c.(accumulated := merged);
      o' := o.(accumulated := merged.View());
    }
  }

  /** What has accumulated becomes pending. */
  method Pack(c: Callback, ghost o: Observer, ghost rows: seq<Row>) returns (c': Callback)
    requires Mirrors(c, o)
    ensures Mirrors(c', Packed(o, rows))
  {
    EmptyIsNothing();
    var final := FinalizeStored(c.accumulated);
    c' := c.(pending := final, accumulated := EMPTY);
  }

  lemma {:induction false} CalledMirrors(c: Callback, o: Observer)
    requires Mirrors(c, o)
    ensures c.initialDelivered && c.pending.Empty() <==> !Due(o)
    ensures Due(o) ==> Mirrors(c.(initialDelivered := true, pending := EMPTY_FINAL), Called(o))
  {
    FinalEmptyViews(c.pending);
    EmptyIsNothing();
  }

  method EraseCallback(cs: seq<Callback>, at: nat, ghost os: seq<Observer>) returns (cs': seq<Callback>)
    requires AllMirror(cs, os) && at < |cs|
    ensures AllMirror(cs', Without(os, at))
  {
    cs' := cs[..at] + cs[at + 1..];
    forall i | 0 <= i < |cs'|
      ensures Mirrors(cs'[i], Without(os, at)[i])
    {
      var j := if i < at then i else i + 1;
      assert cs'[i] == cs[j] && Without(os, at)[i] == os[j];
    }
  }

  method AbsorbAll(cs: seq<Callback>, change: Stored,
                   ghost os: seq<Observer>, ghost rows: seq<Row>, ghost after: seq<Row>)
    returns (cs': seq<Callback>, ghost os': seq<Observer>)
    requires AllMirror(cs, os) && change.Valid()
    ensures AllMirror(cs', os') && |os'| == |os|
    ensures forall i :: 0 <= i < |os| ==> Changed(os[i], change.View(), rows, after, os'[i])
  {
    cs', os' := [], [];
    for k := 0 to |cs|
      invariant |cs'| == k && AllMirror(cs', os')
      invariant forall i :: 0 <= i < k ==> Changed(os[i], change.View(), rows, after, os'[i])
    {
      var c, o := Absorb(cs[k], change, os[k], rows, after);
      cs', os' := cs' + [c], os' + [o];
    }
  }

  method PackAll(cs: seq<Callback>, ghost os: seq<Observer>, ghost rows: seq<Row>)
    returns (cs': seq<Callback>, ghost os': seq<Observer>)
    requires AllMirror(cs, os)
    ensures AllMirror(cs', os')
    ensures os' == seq(|os|, i requires 0 <= i < |os| => Packed(os[i], rows))
  {
    cs', os' := [], [];
    for k := 0 to |cs|
      invariant |cs'| == k && AllMirror(cs', os')
      invariant forall i :: 0 <= i < k ==> os'[i] == Packed(os[i], rows)
    {
      var c := Pack(cs[k], os[k], rows);
      cs', os' := cs' + [c], os' + [Packed(os[k], rows)];
    }
  }

  lemma RemovedIsStep(n: Notifier, token: nat, at: nat, n': Notifier)
    requires CanStep(n, Remove(token)) && at < |n.observers| && n.observers[at].token == token
    requires n' == Removed(n, at)
    ensures StepTo(n, Remove(token), n')
  {
  }

  class CollectionNotifier {
    var callbacks: seq<Callback>
    /** -1 outside the delivery loop. */
    var index: int
    var count: int
    var nextToken: nat
    ghost var observers: seq<Observer>
    ghost var delivering: bool
    ghost var rows: seq<Row>
    ghost var present: nat
    ghost var packaged: nat
    ghost var late: nat

    constructor (ghost rows: seq<Row>)
      ensures Valid() && View() == Start(rows)
    {
      callbacks, index, count, nextToken := [], -1, SIZE - 1, 0;
      observers, delivering, present, packaged, late := [], false, 0, 0, 0;
      this.rows := rows;
    }

    ghost predicate Valid()
      reads this
    {
      AllMirror(callbacks, observers)
    }

    ghost function View(): Notifier
      reads this
    {
      Notifier(observers, index, count, nextToken, delivering, rows, present, packaged, late)
    }

    method AddCallback() returns (token: nat)
      requires Valid() && CanStep(View(), Register)
      modifies this
      ensures Valid() && StepTo(old(View()), Register, View()) && token == old(nextToken)
    {
      token := nextToken;
      EmptyIsNothing();
      callbacks := callbacks + [Callback(token, EMPTY, EMPTY_FINAL, false, false)];
      observers := observers + [Registered(token, rows)];
      nextToken := nextToken + 1;
    }

    method FindCallback(token: nat) returns (at: nat)
      requires Valid() && Holds(View(), token)
      ensures at < |callbacks| && callbacks[at].token == token
      ensures forall i :: 0 <= i < at ==> callbacks[i].token != token
    {
      ghost var i :| 0 <= i < |observers| && observers[i].token == token;
      assert Mirrors(callbacks[i], observers[i]);
      at := 0;
      while callbacks[at].token != token
        invariant at <= i < |callbacks|
        invariant forall j :: 0 <= j < at ==> callbacks[j].token != token
        decreases |callbacks| - at
      {
        at := at + 1;
      }
    }

    method RemoveCallback(token: nat)
      requires Valid() && CanStep(View(), Remove(token))
      modifies this
      ensures Valid() && StepTo(old(View()), Remove(token), View())
    {
      var at := FindCallback(token);
      assert Mirrors(callbacks[at], observers[at]);
      RemovedIsStep(View(), token, at, Removed(View(), at));
      EraseAt(at);
    }

    /** The loop variable steps back so that the loop goes on with the callback after the erased one. */
    method EraseAt(at: nat)
      requires Valid() && at < |callbacks|
      modifies this
      ensures Valid() && View() == Removed(old(View()), at)
    {
      callbacks := EraseCallback(callbacks, at, observers);
      ghost var after := Removed(View(), at);
      observers, present, late := after.observers, after.present, after.late;
      if index != -1 && index >= at {
        index := index - 1;
      }
      count := (count - 1) % SIZE;
    }

    method SuppressNextNotification(token: nat)
      requires Valid() && CanStep(View(), Suppress(token)) && Ordered(View())
      modifies this
      ensures Valid() && StepTo(old(View()), Suppress(token), View())
    {
      var at := FindCallback(token);
      assert Mirrors(callbacks[at], observers[at]);
      callbacks := callbacks[at := callbacks[at].(skipNext := true)];
      observers := observers[at := observers[at].(skipNext := true)];
    }

    /** The background worker hands over the change it has calculated. */
    method AddChanges(change: Stored, ghost after: seq<Row>)
      requires Valid() && change.Valid() && CanStep(View(), Change(change.View(), after))
      modifies this
      ensures Valid() && StepTo(old(View()), Change(change.View(), after), View())
    {
      callbacks, observers := AbsorbAll(callbacks, change, observers, rows, after);
      rows := after;
    }

    method PackageForDelivery()
      requires Valid() && CanStep(View(), Package) && index == -1
      modifies this
      ensures Valid() && StepTo(old(View()), Package, View())
    {
      callbacks, observers := PackAll(callbacks, observers, rows);
      count := |callbacks|;
      delivering, present, packaged, late := true, |callbacks|, nextToken, 0;
    }

    /** One turn of the delivery loop: the call to make once the lock is free, if any. */
    method DeliverNext() returns (more: bool, call: Option<StoredFinal>)
      requires Valid() && CanStep(View(), Advance)
      modifies this
      ensures Valid() && StepTo(old(View()), Advance, View())
      ensures more == old(View()).Continues()
      ensures call.Some? <==> more && Due(old(observers)[index])
      ensures call.Some? ==> call.value.View() == old(observers)[index].pending
      ensures call.Some? ==>
        observers[index].heard == old(observers)[index].heard + [Heard(call.value.View(), observers[index].held)]
    {
      ghost var after := Advanced(View());
      index := index + 1;
      if index >= count {
        index, delivering, observers := -1, false, after.observers;
        return false, None;
      }
      var c := callbacks[index];
      CalledMirrors(c, observers[index]);
      observers := after.observers;
      if c.initialDelivered && c.pending.Empty() {
        return true, None;
      }
      callbacks := callbacks[index := c.(initialDelivered := true, pending := EMPTY_FINAL)];
      return true, Some(c.pending);
    }
  }
}
