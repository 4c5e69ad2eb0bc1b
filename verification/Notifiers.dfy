/**
 `CollectionNotifier` as a machine: registration, accumulation, packaging and
 delivery, Realm/ObjectStore/src/impl/collection_notifier.cpp.

 The background worker adds changes, the target thread packages and delivers
 them, and while a callback runs the lock is free: anybody may register, remove
 or suppress callbacks, the running callback included. Every interleaving of
 these steps is a run. `present`, `packaged` and `late` are bookkeeping that the
 steps never branch on.
 */
module Notifiers {
  import opened ChangeSets
  import opened Reports
  import opened RowChanges
  import opened ChangeMerging
  import opened CallbackTrails

  /** One past the largest value of the counter's type. */
  const SIZE: int := 0x1_0000_0000_0000_0000

  datatype Notifier = Notifier(
    observers: seq<Observer>, index: int, count: int, nextToken: nat, delivering: bool,
    rows: seq<Row>, present: nat, packaged: nat, late: nat)
  {
    /** The test of the delivery loop, after its increment. */
    predicate Continues() {
      index + 1 < count
    }

    /** Callbacks packaged for this delivery that are still registered and were not reached yet. */
    function Remaining(): int {
      present - (index + 1)
    }

    predicate Reached(i: nat) {
      !delivering || i <= index || i >= present
    }
  }

  /** `Discard`: a package is dropped before anything of it was delivered. */
  datatype Event =
    | Register
    | Remove(token: nat)
    | Suppress(token: nat)
    | Change(change: ChangeSet, after: seq<Row>)
    | Package
    | Advance
    | Discard

  // ----- the steps -----

  function Start(rows: seq<Row>): Notifier {
    Notifier([], -1, SIZE - 1, 0, false, rows, 0, 0, 0)
  }

  function Without(observers: seq<Observer>, at: nat): seq<Observer>
    requires at < |observers|
  {
    seq(|observers| - 1, i requires 0 <= i < |observers| - 1 => observers[if i < at then i else i + 1])
  }

  /** `remove_callback` of the callback at `at`: the loop variable is moved back, and the counter is decremented. */
  function Removed(n: Notifier, at: nat): Notifier
    requires at < |n.observers|
  {
    var wasPackaged := n.observers[at].token < n.packaged;
    n.(observers := Without(n.observers, at),
       index := if n.index >= at then n.index - 1 else n.index,
       count := (n.count - 1) % SIZE,
       present := if wasPackaged && n.present > 0 then n.present - 1 else n.present,
       late := if wasPackaged then n.late else n.late + 1)
  }

  function AllPacked(n: Notifier): seq<Observer> {
    seq(|n.observers|, i requires 0 <= i < |n.observers| => Packed(n.observers[i], n.rows))
  }

  /** The delivery is over; whoever was not reached has lost what was due. */
  function Ended(n: Notifier): Notifier {
    n.(index := -1, delivering := false,
       observers := seq(|n.observers|, i requires 0 <= i < |n.observers| =>
         if n.Reached(i) then n.observers[i] else Passed(n.observers[i])))
  }

  /** `after_advance`'s loop body for the next callback, or the end of the loop. */
  function Advanced(n: Notifier): Notifier
    requires n.Continues() ==> 0 <= n.index + 1 < |n.observers|
  {
    if n.Continues() then
      n.(index := n.index + 1, observers := n.observers[n.index + 1 := Called(n.observers[n.index + 1])])
    else
      Ended(n)
  }

  predicate Holds(n: Notifier, token: nat) {
    exists i :: 0 <= i < |n.observers| && n.observers[i].token == token
  }

  /** The loop goes on although every packaged callback has been reached. */
  predicate Overruns(n: Notifier) {
    n.Continues() && n.Remaining() <= 0
  }

  /** The loop ends although a packaged callback has not been reached. */
  predicate StopsShort(n: Notifier) {
    !n.Continues() && n.Remaining() > 0
  }

  /**
   What the callers guarantee: tokens do not run out and are used while registered,
   changes are true, nothing is suppressed while changes wait to be packaged, and
   deliveries follow packagings. What an overrunning loop does is undefined.
   */
  ghost predicate CanStep(n: Notifier, e: Event) {
    match e
    case Register => n.nextToken + 1 < SIZE
    case Remove(token) => Holds(n, token)
    case Suppress(token) => Holds(n, token)
    case Change(c, after) =>
      && Describes(c, n.rows, after)
      && forall i :: 0 <= i < |n.observers| && n.observers[i].skipNext ==> n.observers[i].accumulated.Empty()
    case Package => !n.delivering
    case Advance => n.delivering && !Overruns(n) && 0 <= n.index + 1 && n.present <= |n.observers|
    case Discard => n.delivering && n.index == -1
  }

  ghost predicate StepTo(n: Notifier, e: Event, n': Notifier)
    requires CanStep(n, e)
  {
    match e
    case Register =>
      n' == n.(observers := n.observers + [Registered(n.nextToken, n.rows)], nextToken := n.nextToken + 1)
    case Remove(token) =>
      exists at :: 0 <= at < |n.observers| && n.observers[at].token == token && n' == Removed(n, at)
    case Suppress(token) =>
      && n' == n.(observers := n'.observers) && |n'.observers| == |n.observers|
      && forall i :: 0 <= i < |n.observers| ==> n'.observers[i] == Silenced(n.observers[i], token)
    case Change(c, after) =>
      && n' == n.(observers := n'.observers, rows := after) && |n'.observers| == |n.observers|
      && forall i :: 0 <= i < |n.observers| ==> Changed(n.observers[i], c, n.rows, after, n'.observers[i])
    case Package =>
      n' == n.(observers := AllPacked(n), index := -1, count := |n.observers|, delivering := true,
               present := |n.observers|, packaged := n.nextToken, late := 0)
    case Advance => n' == Advanced(n)
    case Discard => n' == Ended(n)
  }

  function Silenced(o: Observer, token: nat): Observer {
    if o.token == token then o.(skipNext := true) else o
  }

  ghost predicate Steps(n: Notifier, e: Event, n': Notifier) {
    CanStep(n, e) && StepTo(n, e, n')
  }

  // ----- the invariant -----

  ghost predicate Ordered(n: Notifier) {
    && (forall i, j :: 0 <= i < j < |n.observers| ==> n.observers[i].token < n.observers[j].token)
    && (forall i :: 0 <= i < |n.observers| ==> n.observers[i].token < n.nextToken)
    && n.nextToken < SIZE
  }

  /** The packaged callbacks come first, and the counter is off by the callbacks removed that were not packaged. */
  ghost predicate Counted(n: Notifier) {
    if !n.delivering then n.index == -1
    else
      && n.present <= |n.observers| && n.packaged <= n.nextToken
      && (forall i :: 0 <= i < |n.observers| ==> (i < n.present <==> n.observers[i].token < n.packaged))
      && -1 <= n.index < n.present
      && n.present <= n.packaged && n.late + |n.observers| - n.present <= n.nextToken - n.packaged
      && n.count == (n.present - n.late) % SIZE
  }

  ghost predicate AllInformed(n: Notifier) {
    forall i :: 0 <= i < |n.observers| ==> Informed(n.observers[i], n.rows, n.Reached(i))
  }

  ghost predicate Inv(n: Notifier) {
    Ordered(n) && Counted(n) && AllInformed(n)
  }

  /** Exactly when the loop stops short and when it overruns, by how many late callbacks were removed. */
  lemma LoopTestWrongIff(n: Notifier)
    requires Inv(n) && n.delivering
    ensures StopsShort(n) <==> 0 < n.Remaining() <= n.late <= n.present
    ensures Overruns(n) <==> n.Remaining() == 0 && n.late > n.present
  {
  }

  lemma RegisteredOrder(n: Notifier, n': Notifier)
    requires Ordered(n) && Counted(n) && Steps(n, Register, n')
    ensures Ordered(n') && Counted(n')
    ensures forall i :: 0 <= i < |n.observers| ==> n'.observers[i] == n.observers[i] && n'.Reached(i) == n.Reached(i)
    ensures n'.observers[|n.observers|] == Registered(n.nextToken, n.rows) && n'.Reached(|n.observers|)
  {
  }

  lemma {:induction false} RegisterKeeps(n: Notifier, n': Notifier)
    requires Inv(n) && Steps(n, Register, n')
    ensures Inv(n')
  {
    RegisteredOrder(n, n');
    RegisteredInformed(n.nextToken, n.rows);
    forall i | 0 <= i < |n'.observers|
      ensures Informed(n'.observers[i], n'.rows, n'.Reached(i))
    {
      assert i < |n.observers| ==> Informed(n.observers[i], n.rows, n.Reached(i));
    }
  }

  lemma {:induction false} RemovedOrder(n: Notifier, at: nat)
    requires Ordered(n) && Counted(n) && at < |n.observers|
    ensures Ordered(Removed(n, at)) && Counted(Removed(n, at))
  {
    if n.delivering {
      assert at < n.present <==> n.observers[at].token < n.packaged;
      OneLess(n.present - n.late);
    }
  }

  lemma OneLess(d: int)
    ensures (d % SIZE - 1) % SIZE == (d - 1) % SIZE
  {
  }

  lemma RemovedReach(n: Notifier, at: nat, i: nat)
    requires Counted(n) && at < |n.observers| && i < |n.observers| - 1
    ensures Removed(n, at).Reached(i) == n.Reached(if i < at then i else i + 1)
  {
  }

  /** Whatever holds of every callback, given whether it was reached, still holds of the others. */
  lemma {:induction false} RemovedAll(n: Notifier, at: nat, holds: (Observer, bool) -> bool)
    requires Counted(n) && at < |n.observers|
    requires forall i :: 0 <= i < |n.observers| ==> holds(n.observers[i], n.Reached(i))
    ensures var n' := Removed(n, at);
      forall i :: 0 <= i < |n'.observers| ==> holds(n'.observers[i], n'.Reached(i))
  {
    var n' := Removed(n, at);
    forall i | 0 <= i < |n'.observers|
      ensures holds(n'.observers[i], n'.Reached(i))
    {
      RemovedReach(n, at, i);
      var j := if i < at then i else i + 1;
      assert n'.observers[i] == n.observers[j];
    }
  }

  lemma {:induction false} RemoveKeeps(n: Notifier, token: nat, n': Notifier)
    requires Inv(n) && Steps(n, Remove(token), n')
    ensures Inv(n')
  {
    var at :| 0 <= at < |n.observers| && n.observers[at].token == token && n' == Removed(n, at);
    RemovedOrder(n, at);
    RemovedAll(n, at, (o, reached) => Informed(o, n.rows, reached));
  }

  /** Steps that register, remove and move nothing keep the order and the count. */
  lemma SameShape(n: Notifier, n': Notifier)
    requires Ordered(n) && Counted(n) && n' == n.(observers := n'.observers, rows := n'.rows)
    requires |n'.observers| == |n.observers|
    requires forall i :: 0 <= i < |n.observers| ==> n'.observers[i].token == n.observers[i].token
    ensures Ordered(n') && Counted(n')
    ensures forall i :: 0 <= i < |n.observers| ==> n'.Reached(i) == n.Reached(i)
  {
  }

  lemma {:induction false} SuppressKeeps(n: Notifier, token: nat, n': Notifier)
    requires Inv(n) && Steps(n, Suppress(token), n')
    ensures Inv(n')
  {
    SameShape(n, n');
    forall i | 0 <= i < |n.observers|
      ensures Informed(n'.observers[i], n'.rows, n'.Reached(i))
    {
      assert n'.observers[i] == Silenced(n.observers[i], token);
      SilencedInformed(n.observers[i], token, n.rows, n.Reached(i));
    }
  }

  lemma SilencedInformed(o: Observer, token: nat, rows: seq<Row>, reached: bool)
    requires Informed(o, rows, reached)
    ensures Informed(Silenced(o, token), rows, reached)
  {
  }

  lemma {:induction false} ChangeKeeps(n: Notifier, c: ChangeSet, after: seq<Row>, n': Notifier)
    requires Inv(n) && Steps(n, Change(c, after), n')
    ensures Inv(n')
  {
    forall i | 0 <= i < |n.observers|
      ensures n'.observers[i].token == n.observers[i].token
    {
      assert Changed(n.observers[i], c, n.rows, after, n'.observers[i]);
    }
    SameShape(n, n');
    forall i | 0 <= i < |n.observers|
      ensures Informed(n'.observers[i], after, n'.Reached(i))
    {
      ChangedInformed(n.observers[i], c, n.rows, after, n'.observers[i], n.Reached(i));
    }
  }

  lemma {:induction false} PackedOrder(n: Notifier, n': Notifier)
    requires Ordered(n) && Steps(n, Package, n')
    ensures Ordered(n') && Counted(n')
    ensures forall i :: 0 <= i < |n.observers| ==> !n'.Reached(i)
  {
    TokensBound(n);
  }

  lemma {:induction false} PackageKeeps(n: Notifier, n': Notifier)
    requires Inv(n) && Steps(n, Package, n')
    ensures Inv(n')
  {
    PackedOrder(n, n');
    forall i | 0 <= i < |n.observers|
      ensures Informed(n'.observers[i], n.rows, n'.Reached(i))
    {
      assert Informed(n.observers[i], n.rows, true);
      PackedWaits(n.observers[i], n.rows);
    }
  }

  lemma {:induction false} TokensBound(n: Notifier)
    requires Ordered(n)
    ensures |n.observers| <= n.nextToken
  {
    if n.observers != [] {
      TokenAtLeast(n, |n.observers| - 1);
    }
  }

  lemma {:induction false} TokenAtLeast(n: Notifier, i: nat)
    requires Ordered(n) && i < |n.observers|
    ensures i <= n.observers[i].token
  {
    if i > 0 {
      TokenAtLeast(n, i - 1);
    }
  }

  lemma {:induction false} CallKeeps(n: Notifier, n': Notifier)
    requires Inv(n) && n.delivering && n.Remaining() > 0
    requires n' == n.(index := n.index + 1, observers := n.observers[n.index + 1 := Called(n.observers[n.index + 1])])
    ensures Inv(n')
  {
    var at := n.index + 1;
    assert !n.Reached(at);
    CalledHears(n.observers[at], n.rows);
    forall i | 0 <= i < |n.observers|
      ensures n'.observers[i].token == n.observers[i].token
      ensures Informed(n'.observers[i], n.rows, n'.Reached(i))
    {
      assert i != at ==> n'.observers[i] == n.observers[i] && n'.Reached(i) == n.Reached(i);
    }
  }

  lemma {:induction false} EndKeeps(n: Notifier)
    requires Inv(n)
    ensures Inv(Ended(n))
  {
    var n' := Ended(n);
    forall i | 0 <= i < |n.observers|
      ensures n'.observers[i].token == n.observers[i].token
      ensures Informed(n'.observers[i], n.rows, true)
    {
      if !n.Reached(i) {
        PassedInformed(n.observers[i], n.rows);
      }
    }
  }

  lemma {:induction false} AdvanceKeeps(n: Notifier, n': Notifier)
    requires Inv(n) && Steps(n, Advance, n')
    ensures Inv(n')
  {
    if n.Continues() {
      CallKeeps(n, n');
    } else {
      EndKeeps(n);
    }
  }

  lemma {:induction false} StepKeeps(n: Notifier, e: Event, n': Notifier)
    requires Inv(n) && Steps(n, e, n')
    ensures Inv(n')
  {
    match e
    case Register => RegisterKeeps(n, n');
    case Remove(token) => RemoveKeeps(n, token, n');
    case Suppress(token) => SuppressKeeps(n, token, n');
    case Change(c, after) => ChangeKeeps(n, c, after, n');
    case Package => PackageKeeps(n, n');
    case Advance => AdvanceKeeps(n, n');
    case Discard => EndKeeps(n);
  }

  /**
   Suppressing: of the callbacks that are up to date, exactly the suppressed one is not called about the next
   change; and it is only that change it does not hear of.
   */
  lemma {:induction false} OnlySuppressedIsSpared(n: Notifier, token: nat, n1: Notifier, c: ChangeSet, after: seq<Row>,
                                                  n2: Notifier, n3: Notifier, i: nat)
    requires Steps(n, Suppress(token), n1) && Steps(n1, Change(c, after), n2) && Steps(n2, Package, n3)
    requires !c.Empty() && i < |n.observers|
    requires var o := n.observers[i]; o.initialDelivered && o.accumulated.Empty() && !o.skipNext
    ensures |n3.observers| == |n.observers| && n3.observers[i].token == n.observers[i].token
    ensures Due(n3.observers[i]) <==> n.observers[i].token != token
    ensures !n3.observers[i].skipNext
  {
    var o1, o2 := n1.observers[i], n2.observers[i];
    assert o1 == Silenced(n.observers[i], token) && Changed(o1, c, n1.rows, after, o2);
    FinalEmptyIff(o2.accumulated);
    assert n3.observers[i] == Packed(o2, n2.rows);
    if !o1.skipNext {
      var order :| MergesTo(o1.accumulated, c, o2.accumulated, order);
    }
  }

  // ----- whole runs -----

  /** `states` is a run through `events`. */
  ghost predicate Run(states: seq<Notifier>, events: seq<Event>) {
    && |states| == |events| + 1
    && forall k :: 0 <= k < |events| ==> Steps(states[k], events[k], states[k + 1])
  }

  lemma StartInv(rows: seq<Row>)
    ensures Inv(Start(rows))
  {
  }

  lemma {:induction false} InvRun(rows: seq<Row>, states: seq<Notifier>, events: seq<Event>, k: nat)
    requires Run(states, events) && states[0] == Start(rows) && k < |states|
    ensures Inv(states[k])
  {
    if k == 0 {
      StartInv(rows);
    } else {
      var j := k - 1;
      InvRun(rows, states, events, j);
      assert Steps(states[j], events[j], states[j + 1]);
      StepKeeps(states[j], events[j], states[j + 1]);
    }
  }

  /**
   Between deliveries of any run, every registered callback has heard everything that
   was packaged for it and not lost, in order, once; what was packaged describes its
   stretch of the history truly; and together the stretches lead from its
   registration to the last packaging.
   */
  lemma {:induction false} EveryCallbackHearsAll(rows: seq<Row>, states: seq<Notifier>, events: seq<Event>, k: nat,
                                                 i: nat)
    requires Run(states, events) && states[0] == Start(rows) && k < |states|
    requires i < |states[k].observers| && states[k].Reached(i)
    ensures var o := states[k].observers[i];
      && o.heard == Sounded(Packages(o.trail))
      && Leads(o.trail, o.origin, o.base)
      && Describes(o.accumulated, o.base, states[k].rows)
  {
    InvRun(rows, states, events, k);
    assert Informed(states[k].observers[i], states[k].rows, true);
  }

  // ----- what is lost, and when -----

  /** The end of a delivery loses something for exactly the callbacks that were not reached and had something due. */
  lemma {:induction false} LostIff(n: Notifier, i: nat)
    requires Inv(n) && n.delivering && i < |n.observers| && NoneLost(n.observers[i].trail)
    ensures NoneLost(Ended(n).observers[i].trail) <==> n.Reached(i) || !Due(n.observers[i])
  {
    assert Informed(n.observers[i], n.rows, n.Reached(i));
    if !n.Reached(i) && Due(n.observers[i]) {
      MarkLostLoses(n.observers[i].trail);
    }
  }

  /** What was due is overwritten by the next packaging; what was packaged and not lost goes on without it. */
  lemma {:induction false} LostForGood(n: Notifier, n': Notifier, i: nat)
    requires Inv(n) && n.delivering && i < |n.observers| && !n.Reached(i) && Due(n.observers[i])
    requires Steps(Ended(n), Package, n')
    ensures var o, o' := n.observers[i], n'.observers[i];
      && o'.pending == Finalized(o.accumulated) && o'.heard == o.heard
      && o.heard + [Heard(o.pending, o.held)] == Sounded(Packages(o.trail))
      && Packages(o'.trail) == Front(Packages(o.trail)) + [Heard(o'.pending, n.rows)]
  {
    var o := n.observers[i];
    assert Informed(o, n.rows, false);
    WaitingSounds(o);
    MarkLostDrops(o.trail);
    assert Ended(n).observers[i] == Passed(o);
    assert n'.observers[i] == Packed(Passed(o), n.rows);
    assert Front(n'.observers[i].trail) == MarkLost(o.trail);
  }

  /** One packaged callback left to call: registering a callback and removing it again makes the pass stop short. */
  lemma {:induction false} LateRemovalStopsShort(n: Notifier, n': Notifier, n'': Notifier)
    requires Inv(n) && n.delivering && n.Remaining() == 1 && n.late == 0
    requires Steps(n, Register, n')
    requires Steps(n', Remove(n.nextToken), n'')
    ensures n''.observers == n.observers && StopsShort(n'')
  {
    RegisteredOrder(n, n');
    RemovedNewest(n, n', n'');
  }

  lemma {:induction false} RemovedNewest(n: Notifier, n': Notifier, n'': Notifier)
    requires Ordered(n) && |n'.observers| == |n.observers| + 1
    requires forall i :: 0 <= i < |n.observers| ==> n'.observers[i] == n.observers[i]
    requires Steps(n', Remove(n.nextToken), n'')
    ensures n''.observers == n.observers && n'' == Removed(n', |n.observers|)
  {
    var at :| 0 <= at < |n'.observers| && n'.observers[at].token == n.nextToken && n'' == Removed(n', at);
    assert at == |n.observers|;
    assert n''.observers == n.observers;
  }

  /** Two callbacks, packaged for their initial calls. */
  function Pair(rows: seq<Row>): Notifier {
    Notifier([Packed(Registered(0, rows), rows), Packed(Registered(1, rows), rows)], -1, 2, 2, true, rows, 2, 2, 0)
  }

  /** The first one called; a third callback is registered during that call. */
  function Intruded(rows: seq<Row>): Notifier {
    var m := Pair(rows);
    m.(index := 0, nextToken := 3, observers := [Called(m.observers[0]), m.observers[1], Registered(2, rows)])
  }

  lemma {:induction false} PairReached(rows: seq<Row>) returns (one: Notifier, two: Notifier)
    ensures Steps(Start(rows), Register, one) && Steps(one, Register, two) && Steps(two, Package, Pair(rows))
  {
    one := Start(rows).(observers := [Registered(0, rows)], nextToken := 1);
    two := Start(rows).(observers := [Registered(0, rows), Registered(1, rows)], nextToken := 2);
    assert AllPacked(two) == Pair(rows).observers;
  }

  lemma {:induction false} IntrudedReached(rows: seq<Row>) returns (called: Notifier)
    ensures Steps(Pair(rows), Advance, called) && Steps(called, Register, Intruded(rows))
  {
    var m := Pair(rows);
    called := m.(index := 0, observers := [Called(m.observers[0]), m.observers[1]]);
    assert Advanced(m) == called;
  }

  lemma {:induction false} IntruderRemoved(rows: seq<Row>) returns (n: Notifier)
    ensures Steps(Intruded(rows), Remove(2), n) && n.observers == Intruded(rows).observers[..2]
    ensures n.index == 0 && n.count == 1 && n.present == 2 && n.delivering
  {
    var e := Intruded(rows);
    n := Removed(e, 2);
    assert e.observers[2].token == 2;
    assert n.observers == [e.observers[0], e.observers[1]];
  }

  /** Two callbacks; during the first one's initial call a third is registered and removed: the second is not called. */
  lemma {:induction false} LateRemovalMisses(rows: seq<Row>)
    returns (one: Notifier, two: Notifier, called: Notifier, removed: Notifier, end: Notifier)
    ensures Steps(Start(rows), Register, one) && Steps(one, Register, two) && Steps(two, Package, Pair(rows))
    ensures Steps(Pair(rows), Advance, called) && Steps(called, Register, Intruded(rows))
    ensures Steps(Intruded(rows), Remove(2), removed) && Steps(removed, Advance, end)
    ensures !end.delivering && |end.observers| == 2
    ensures end.observers[1].heard == [] && end.observers[1].trail == [Lost(NOTHING, rows, rows)]
  {
    one, two := PairReached(rows);
    called := IntrudedReached(rows);
    removed := IntruderRemoved(rows);
    end := Advanced(removed);
    var o := Pair(rows).observers[1];
    assert o.trail == [Packaged(NOTHING, rows, rows)] && !removed.Reached(1);
    assert end.observers[1] == Passed(o);
  }

  // ----- a condition on the callers -----

  /** During a delivery only callbacks that were packaged for it are removed, and no package is dropped. */
  predicate Polite(n: Notifier, e: Event) {
    && (e.Remove? && n.delivering ==> e.token < n.packaged)
    && !e.Discard?
  }

  ghost predicate NothingLost(n: Notifier) {
    && (n.delivering ==> n.late == 0)
    && forall i :: 0 <= i < |n.observers| ==> NoneLost(n.observers[i].trail)
  }

  lemma {:induction false} PoliteEnds(n: Notifier)
    requires Inv(n) && NothingLost(n) && n.delivering && !n.Continues()
    ensures NothingLost(Ended(n))
  {
    LoopTestWrongIff(n);
    forall i | 0 <= i < |n.observers|
      ensures Ended(n).observers[i] == n.observers[i]
    {
      assert n.Reached(i);
    }
  }

  lemma {:induction false} PoliteKeeps(n: Notifier, e: Event, n': Notifier)
    requires Inv(n) && Steps(n, e, n') && Polite(n, e) && NothingLost(n)
    ensures NothingLost(n')
  {
    if e.Advance? && !n.Continues() {
      PoliteEnds(n);
    } else {
      PoliteCount(n, e, n');
      forall i | 0 <= i < |n'.observers|
        ensures NoneLost(n'.observers[i].trail)
      {
        TrailsGrow(n, e, n', i);
      }
    }
  }

  lemma PoliteCount(n: Notifier, e: Event, n': Notifier)
    requires Steps(n, e, n') && Polite(n, e) && (n.delivering ==> n.late == 0)
    ensures n'.delivering ==> n'.late == 0
  {
  }

  /** Outside the end of a delivery a trail is new, kept, or one unlost hop longer. */
  lemma {:induction false} TrailsGrow(n: Notifier, e: Event, n': Notifier, i: nat)
    requires Steps(n, e, n') && !e.Discard? && (e.Advance? ==> n.Continues()) && i < |n'.observers|
    ensures || n'.observers[i].trail == []
            || exists j :: 0 <= j < |n.observers| && Continued(n.observers[j], n'.observers[i], e)
  {
    match e
    case Register =>
      assert i < |n.observers| ==> n'.observers[i] == n.observers[i];
    case Remove(token) =>
      var at :| 0 <= at < |n.observers| && n.observers[at].token == token && n' == Removed(n, at);
      assert n'.observers[i] == n.observers[if i < at then i else i + 1];
    case Suppress(token) =>
      assert n'.observers[i] == Silenced(n.observers[i], token);
    case Change(c, after) =>
      ChangedContinues(n.observers[i], c, n.rows, after, n'.observers[i], e);
    case Package =>
      PackedContinues(n.observers[i], n.rows, e);
    case Advance =>
      assert n'.observers[i] == n.observers[i] || n'.observers[i] == Called(n.observers[i]);
  }

  lemma {:induction false} ChangedContinues(o: Observer, c: ChangeSet, rows: seq<Row>, after: seq<Row>, o': Observer,
                                            e: Event)
    requires Changed(o, c, rows, after, o')
    ensures Continued(o, o', e)
  {
    assert o.skipNext ==> o'.trail == o.trail + [Suppressed(rows, after)];
  }

  lemma {:induction false} PackedContinues(o: Observer, rows: seq<Row>, e: Event)
    ensures Continued(o, Packed(o, rows), e)
  {
    assert Packed(o, rows).trail == o.trail + [Packaged(o.accumulated, o.base, rows)];
  }

  ghost predicate Continued(o: Observer, o': Observer, e: Event) {
    && (o'.skipNext ==> o.skipNext || e.Suppress?)
    && (|| o'.trail == o.trail
        || exists hop: Hop :: o'.trail == o.trail + [hop] && !hop.Lost? && (hop.Suppressed? ==> o.skipNext))
  }

  ghost predicate PoliteRun(states: seq<Notifier>, events: seq<Event>) {
    Run(states, events) && forall k :: 0 <= k < |events| ==> Polite(states[k], events[k])
  }

  /** If all callers are polite then nothing is ever lost. */
  lemma {:induction false} PoliteLosesNothing(rows: seq<Row>, states: seq<Notifier>, events: seq<Event>, k: nat)
    requires PoliteRun(states, events) && states[0] == Start(rows) && k < |states|
    ensures NothingLost(states[k])
  {
    if k > 0 {
      var j := k - 1;
      PoliteLosesNothing(rows, states, events, j);
      InvRun(rows, states, events, j);
      assert Steps(states[j], events[j], states[j + 1]);
      PoliteKeeps(states[j], events[j], states[j + 1]);
    }
  }
}
