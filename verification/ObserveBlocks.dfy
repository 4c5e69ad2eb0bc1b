/**
 From a notifier's calls to the events a Swift observer sees: the Objective-C
 callback wrapper (Realm/RLMCollection.mm) and the Swift closure that
 `wrapObserveBlock` returns (RealmSwift/RealmCollection.swift).
 */
module ObserveBlocks {
  import opened Outcomes
  import opened ChangeSets
  import opened Reports
  import opened RowChanges
  import opened ChangeMerging
  import opened CallbackTrails
  import opened Notifiers

  /** One call from the notifier; a failure is the last one, because the callback is then removed. */
  datatype Call = Changes(change: Final) | Failure(error: int)

  /** The arguments of the Objective-C block. */
  datatype Arguments = Arguments(collection: Option<nat>, change: Option<Report>, error: Option<int>)

  /** A Swift collection object: the observed one itself, or one made for the Objective-C collection. */
  datatype Wrapper = Own | Made(collection: nat, serial: nat)

  datatype Notice =
    | Initial(wrapper: Wrapper)
    | Update(wrapper: Wrapper, report: Report)
    | Error(error: int)

  /** `RealmCollectionChange.fromObjc`: unwrapping a missing collection traps. */
  function FromObjc(value: Option<Wrapper>, change: Option<Report>, error: Option<int>): Option<Notice> {
    match (error, change, value)
    case (Some(e), _, _) => Some(Error(e))
    case (None, _, None) => None
    case (None, Some(c), Some(w)) => Some(Update(w, c))
    case (None, None, Some(w)) => Some(Initial(w))
  }

  class CollectionCallbackWrapper {
    const collection: nat
    var ignoreChangesInInitialNotification: bool

    constructor (collection: nat, skipFirst: bool)
      ensures this.collection == collection && ignoreChangesInInitialNotification == skipFirst
    {
      this.collection, ignoreChangesInInitialNotification := collection, skipFirst;
    }

    method Invoke(call: Call) returns (arguments: Arguments)
      modifies this
      ensures ignoreChangesInInitialNotification == (old(ignoreChangesInInitialNotification) && call.Failure?)
      ensures arguments.collection == if call.Changes? then Some(collection) else None
      ensures arguments.error == if call.Failure? then Some(call.error) else None
      ensures arguments.change.Some? ==> call.Changes? && !call.change.Empty()
      ensures arguments.change.Some? ==> arguments.change.value == ReportOf(call.change)
      ensures call.Changes? && !call.change.Empty() && arguments.change.None? ==>
        old(ignoreChangesInInitialNotification)
      ensures old(ignoreChangesInInitialNotification) ==> arguments.change.None?
    {
      if call.Failure? {
        return Arguments(None, None, Some(call.error));
      }
      if ignoreChangesInInitialNotification {
        ignoreChangesInInitialNotification := false;
        return Arguments(Some(collection), None, None);
      } else if call.change.Empty() {
        return Arguments(Some(collection), None, None);
      } else {
        return Arguments(Some(collection), Some(ReportOf(call.change)), None);
      }
    }
  }

  /** The closure: `wrapper` is its captured variable, `made` counts the Swift objects it has created. */
  class ObserveBlock {
    const own: nat
    var wrapper: Option<Wrapper>
    var made: nat

    constructor (own: nat)
      ensures this.own == own && wrapper == None && made == 0
    {
      this.own, wrapper, made := own, None, 0;
    }

    /** None if it traps. */
    method Invoke(arguments: Arguments) returns (notice: Option<Notice>)
      modifies this
      ensures old(wrapper).Some? || arguments.collection.None? ==> wrapper == old(wrapper) && made == old(made)
      ensures old(wrapper).None? && arguments.collection.Some? ==>
        if arguments.collection.value == own then wrapper == Some(Own) && made == old(made)
        else wrapper == Some(Made(arguments.collection.value, old(made))) && made == old(made) + 1
      ensures notice == FromObjc(wrapper, arguments.change, arguments.error)
    {
      if wrapper == None && arguments.collection.Some? {
        var collection := arguments.collection.value;
        if collection == own {
          wrapper := Some(Own);
        } else {
          wrapper, made := Some(Made(collection, made)), made + 1;
        }
      }
      notice := FromObjc(wrapper, arguments.change, arguments.error);
    }
  }

  /** A failure can only be the last call. */
  predicate Proper(calls: seq<Call>) {
    forall i :: 0 <= i < |calls| - 1 ==> calls[i].Changes?
  }

  /** The wrapper every event carries: the observed object if it is on its own thread. */
  function TheWrapper(own: nat, collection: nat): Wrapper {
    if own == collection then Own else Made(collection, 0)
  }

  /** What the `i`th call comes to. */
  function Expected(call: Call, first: bool, skipFirst: bool, w: Wrapper): Notice {
    match call
    case Failure(e) => Error(e)
    case Changes(c) => if (first && skipFirst) || c.Empty() then Initial(w) else Update(w, ReportOf(c))
  }

  /**
   Every run of calls: nothing traps, at most one Swift object is created, and all
   events carry the same one.
   */
  method Observe(calls: seq<Call>, own: nat, collection: nat, skipFirst: bool) returns (notices: seq<Notice>, made: nat)
    requires Proper(calls)
    ensures |notices| == |calls| && made <= 1
    ensures forall i :: 0 <= i < |calls| ==>
      notices[i] == Expected(calls[i], i == 0, skipFirst, TheWrapper(own, collection))
  {
    var callback := new CollectionCallbackWrapper(collection, skipFirst);
    var block := new ObserveBlock(own);
    var w := TheWrapper(own, collection);
    notices := [];
    for k := 0 to |calls|
      invariant callback.collection == collection && block.own == own
      invariant k < |calls| ==> callback.ignoreChangesInInitialNotification == (k == 0 && skipFirst)
      invariant k < |calls| ==> block.wrapper == if k == 0 then None else Some(w)
      invariant k == 0 ==> block.made == 0
      invariant block.made <= 1
      invariant |notices| == k
      invariant forall i :: 0 <= i < k ==> notices[i] == Expected(calls[i], i == 0, skipFirst, w)
    {
      var arguments := callback.Invoke(calls[k]);
      var notice := block.Invoke(arguments);
      assert notice == Some(Expected(calls[k], k == 0, skipFirst, w));
      notices := notices + [notice.value];
    }
    made := block.made;
  }

  /** The calls a notifier makes to one callback: the changes it is to hear, and possibly a failure. */
  predicate FromNotifier(calls: seq<Call>, heard: seq<Heard>) {
    && |heard| <= |calls| <= |heard| + 1
    && (forall i :: 0 <= i < |heard| ==> calls[i] == Changes(heard[i].change))
    && (|calls| > |heard| ==> calls[|heard|].Failure?)
  }

  lemma {:induction false} OnlyFirstMayBeEmpty(packages: seq<Heard>, i: nat)
    requires i < |Sounded(packages)|
    ensures Sounded(packages)[0] == packages[0]
    ensures i > 0 ==> !Sounded(packages)[i].change.Empty()
  {
    var front := Front(packages);
    if front != [] {
      SomethingSounds(front);
      OnlyFirstMayBeEmpty(front, if i < |Sounded(front)| then i else 0);
    }
  }

  /** `.initial` can only be the first notice, `.error` only the one after the last change; all others are updates. */
  predicate FollowsProtocol(notice: Notice, i: nat, heard: seq<Heard>, initialFirst: bool, w: Wrapper) {
    if i == |heard| then notice.Error?
    else if i == 0 && initialFirst then notice == Initial(w)
    else i < |heard| && notice == Update(w, ReportOf(heard[i].change)) && !heard[i].change.Empty()
  }

  /** The first call comes without its change set. */
  predicate InitialFirst(packages: seq<Heard>, skipFirst: bool) {
    packages != [] && (skipFirst || packages[0].change.Empty())
  }

  /**
   The protocol an observer relies on: `.initial` comes first exactly when the first
   change is skipped or empty; everything after it is an `.update`, up to at most one
   `.error`, which ends it.
   */
  lemma {:induction false} ObserverProtocol(calls: seq<Call>, packages: seq<Heard>, heard: seq<Heard>,
                                            skipFirst: bool, w: Wrapper, i: nat)
    requires heard == Sounded(packages) && FromNotifier(calls, heard) && i < |calls|
    ensures Proper(calls) && (packages == [] ==> calls[0].Failure?)
    ensures FollowsProtocol(Expected(calls[i], i == 0, skipFirst, w), i, heard, InitialFirst(packages, skipFirst), w)
  {
    SomethingSounds(packages);
    if packages != [] {
      OnlyFirstMayBeEmpty(packages, 0);
    }
    if i < |heard| {
      OnlyFirstMayBeEmpty(packages, i);
    }
  }

  // ----- a list's observer can start with an update -----

  /** A callback registered on `rows`, with the change to `after` packaged for its first call. */
  function FirstPackaged(rows: seq<Row>, c: ChangeSet, after: seq<Row>): Notifier {
    Notifier([Packed(Registered(0, rows).(accumulated := c), after)], -1, 1, 1, true, after, 1, 1, 0)
  }

  lemma {:induction false} FirstPackagedReached(rows: seq<Row>, c: ChangeSet, after: seq<Row>)
    returns (one: Notifier, two: Notifier)
    requires Describes(c, rows, after) && !c.Empty()
    ensures Steps(Start(rows), Register, one) && Steps(one, Change(c, after), two)
    ensures Steps(two, Package, FirstPackaged(rows, c, after))
  {
    var o := Registered(0, rows);
    one := Start(rows).(observers := [o], nextToken := 1);
    two := one.(observers := [o.(accumulated := c)], rows := after);
    assert MergesTo(NOTHING, c, c, []);
    assert AllPacked(two) == FirstPackaged(rows, c, after).observers;
  }

  /**
   A change committed between the registration and the first delivery is all it takes: for every such change the
   run exists, the callback hears it first, and a list's observer, which skips nothing, is told of an update.
   */
  lemma {:induction false} ListStartsWithUpdate(rows: seq<Row>, c: ChangeSet, after: seq<Row>, w: Wrapper)
    returns (one: Notifier, two: Notifier, end: Notifier)
    requires Describes(c, rows, after) && !c.Empty()
    ensures Steps(Start(rows), Register, one) && Steps(one, Change(c, after), two)
    ensures Steps(two, Package, FirstPackaged(rows, c, after)) && Steps(FirstPackaged(rows, c, after), Advance, end)
    ensures end.observers[0].heard == [Heard(Finalized(c), after)]
    ensures Expected(Changes(Finalized(c)), true, false, w) == Update(w, Reported(c))
  {
    one, two := FirstPackagedReached(rows, c, after);
    end := Advanced(FirstPackaged(rows, c, after));
    FinalEmptyIff(c);
  }

  /** For instance, a row put into an empty list. */
  lemma {:induction false} ListMayStartWithUpdate(row: Row, w: Wrapper)
    returns (one: Notifier, two: Notifier, end: Notifier)
    ensures var c := ChangeSet({}, {0}, {}, {});
      && Steps(Start([]), Register, one) && Steps(one, Change(c, [row]), two)
      && Steps(two, Package, FirstPackaged([], c, [row])) && Steps(FirstPackaged([], c, [row]), Advance, end)
      && end.observers[0].heard == [Heard(Finalized(c), [row])]
      && Expected(Changes(Finalized(c)), true, false, w) == Update(w, Report({}, {0}, {}))
  {
    var c := ChangeSet({}, {0}, {}, {});
    OneRowDescribes(row);
    one, two, end := ListStartsWithUpdate([], c, [row], w);
    ModifiedNothing(c);
  }
}
