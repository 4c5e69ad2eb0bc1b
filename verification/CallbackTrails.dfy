/**
 One callback of a collection notifier: what accumulates for it, what is packaged
 for it, and what it is called with,
 Realm/ObjectStore/src/impl/collection_notifier.cpp.

 `origin`, `base`, `held`, `trail` and `heard` are bookkeeping that no step
 branches on: the rows at registration, the rows up to which changes have been
 packaged, the rows at the last packaging, the history in between, and the calls.
 */
module CallbackTrails {
  import opened ChangeSets
  import opened Reports
  import opened RowChanges
  import opened ChangeMerging

  /** A call: the change set, and the rows the collection has by then. */
  datatype Heard = Heard(change: Final, rows: seq<Row>)

  /** A stretch of the collection's history as one callback lives through it. */
  datatype Hop =
    | Packaged(change: ChangeSet, before: seq<Row>, after: seq<Row>)
    | Lost(change: ChangeSet, before: seq<Row>, after: seq<Row>)
    | Suppressed(before: seq<Row>, after: seq<Row>)

  datatype Observer = Observer(
    token: nat, accumulated: ChangeSet, pending: Final, initialDelivered: bool, skipNext: bool,
    origin: seq<Row>, base: seq<Row>, held: seq<Row>, trail: seq<Hop>, heard: seq<Heard>)

  /** Everything but the last element. */
  function Front<T>(s: seq<T>): seq<T>
    requires s != []
  {
    s[..|s| - 1]
  }

  function Last<T>(s: seq<T>): T
    requires s != []
  {
    s[|s| - 1]
  }

  // ----- what a callback hears -----

  function PackageOf(hop: Hop): seq<Heard> {
    if hop.Packaged? then [Heard(Finalized(hop.change), hop.after)] else []
  }

  /** What was packaged for the callback and not lost, oldest first. */
  function Packages(trail: seq<Hop>): seq<Heard> {
    if trail == [] then [] else Packages(Front(trail)) + PackageOf(Last(trail))
  }

  /** The calls that amounts to: the first one always, the others unless empty. */
  function Sounded(packages: seq<Heard>): seq<Heard> {
    if packages == [] then []
    else if Front(packages) != [] && Last(packages).change.Empty() then Sounded(Front(packages))
    else Sounded(Front(packages)) + [Last(packages)]
  }

  ghost predicate TrueHop(hop: Hop) {
    !hop.Suppressed? ==> Describes(hop.change, hop.before, hop.after)
  }

  /** The hops lead from `a` to `b`, and every packaged change truly describes its hop. */
  ghost predicate Leads(trail: seq<Hop>, a: seq<Row>, b: seq<Row>) {
    if trail == [] then a == b
    else Last(trail).after == b && TrueHop(Last(trail)) && Leads(Front(trail), a, Last(trail).before)
  }

  lemma {:induction false} HopAdded(trail: seq<Hop>, hop: Hop, a: seq<Row>, b: seq<Row>)
    requires Leads(trail, a, b) && hop.before == b && TrueHop(hop)
    ensures Leads(trail + [hop], a, hop.after)
    ensures Packages(trail + [hop]) == Packages(trail) + PackageOf(hop)
  {
    assert Front(trail + [hop]) == trail;
  }

  lemma {:induction false} PackageAdded(packages: seq<Heard>, p: Heard)
    ensures Sounded(packages + [p])
         == if packages != [] && p.change.Empty() then Sounded(packages) else Sounded(packages) + [p]
  {
    assert Front(packages + [p]) == packages;
  }

  lemma {:induction false} SomethingSounds(packages: seq<Heard>)
    ensures Sounded(packages) == [] <==> packages == []
  {
    if packages != [] {
      SomethingSounds(Front(packages));
    }
  }

  lemma FrontAndLast<T>(s: seq<T>)
    requires s != []
    ensures Front(s) + [Last(s)] == s
  {
  }

  /** The trail is true, and what has accumulated describes everything since. */
  ghost predicate Tells(o: Observer, rows: seq<Row>) {
    && Leads(o.trail, o.origin, o.base)
    && Describes(o.accumulated, o.base, rows)
  }

  /** Everything packaged and not lost has been delivered. */
  ghost predicate UpToDate(o: Observer) {
    && o.heard == Sounded(Packages(o.trail))
    && (o.initialDelivered <==> o.heard != [])
  }

  /** Everything packaged and not lost has been delivered, except what is pending. */
  ghost predicate Waiting(o: Observer) {
    && Packages(o.trail) != []
    && Last(Packages(o.trail)) == Heard(o.pending, o.held)
    && o.heard == Sounded(Front(Packages(o.trail)))
    && (o.initialDelivered <==> o.heard != [])
  }

  ghost predicate Informed(o: Observer, rows: seq<Row>, reached: bool) {
    Tells(o, rows) && if reached then UpToDate(o) else Waiting(o)
  }

  /** `after_advance` makes a call. */
  predicate Due(o: Observer) {
    !(o.initialDelivered && o.pending.Empty())
  }

  // ----- the steps of one callback -----

  const NO_CHANGE := Final({}, {}, {}, {}, {})

  function Registered(token: nat, rows: seq<Row>): Observer {
    Observer(token, NOTHING, NO_CHANGE, false, false, rows, rows, rows, [], [])
  }

  function Packed(o: Observer, rows: seq<Row>): Observer {
    o.(pending := Finalized(o.accumulated), accumulated := NOTHING, base := rows, held := rows,
       trail := o.trail + [Packaged(o.accumulated, o.base, rows)])
  }

  function Called(o: Observer): Observer {
    if Due(o) then
      o.(heard := o.heard + [Heard(o.pending, o.held)], pending := NO_CHANGE, initialDelivered := true)
    else o
  }

  /** The last packaged hop turns out to be lost. */
  function MarkLost(trail: seq<Hop>): seq<Hop> {
    if trail == [] then []
    else
      var hop := Last(trail);
      if hop.Packaged? then Front(trail) + [Lost(hop.change, hop.before, hop.after)] else MarkLost(Front(trail)) + [hop]
  }

  /** A delivery ends without having reached the callback: what was due is lost. */
  function Passed(o: Observer): Observer {
    if Due(o) then o.(trail := MarkLost(o.trail)) else o
  }

  /** A suppressed callback skips the change, any other one merges it. */
  ghost predicate Changed(o: Observer, c: ChangeSet, rows: seq<Row>, after: seq<Row>, o': Observer) {
    if o.skipNext then
      o' == o.(skipNext := false, base := after, trail := o.trail + [Suppressed(rows, after)])
    else
      && o' == o.(accumulated := o'.accumulated)
      && exists order :: MergesTo(o.accumulated, c, o'.accumulated, order)
  }

  lemma {:induction false} RegisteredInformed(token: nat, rows: seq<Row>)
    ensures Informed(Registered(token, rows), rows, true)
  {
    NothingDescribes(rows);
  }

  lemma {:induction false} PackedWaits(o: Observer, rows: seq<Row>)
    requires Informed(o, rows, true)
    ensures Informed(Packed(o, rows), rows, false)
  {
    HopAdded(o.trail, Packaged(o.accumulated, o.base, rows), o.origin, o.base);
    NothingDescribes(rows);
    assert Front(Packages(o.trail) + [Heard(Finalized(o.accumulated), rows)]) == Packages(o.trail);
  }

  lemma {:induction false} CalledHears(o: Observer, rows: seq<Row>)
    requires Informed(o, rows, false)
    ensures Informed(Called(o), rows, true)
  {
    WaitingSounds(o);
  }

  /** What is pending is sounded exactly if it is due. */
  lemma {:induction false} WaitingSounds(o: Observer)
    requires Waiting(o)
    ensures Sounded(Packages(o.trail)) == if Due(o) then o.heard + [Heard(o.pending, o.held)] else o.heard
  {
    PackageAdded(Front(Packages(o.trail)), Heard(o.pending, o.held));
    SomethingSounds(Front(Packages(o.trail)));
    FrontAndLast(Packages(o.trail));
  }

  lemma {:induction false} MarkLostLeads(trail: seq<Hop>, a: seq<Row>, b: seq<Row>)
    requires Leads(trail, a, b)
    ensures Leads(MarkLost(trail), a, b)
  {
    if trail != [] {
      var hop := Last(trail);
      if hop.Packaged? {
        HopAdded(Front(trail), Lost(hop.change, hop.before, hop.after), a, hop.before);
      } else {
        MarkLostLeads(Front(trail), a, hop.before);
        HopAdded(MarkLost(Front(trail)), hop, a, hop.before);
      }
    }
  }

  lemma {:induction false} MarkLostDrops(trail: seq<Hop>)
    requires Packages(trail) != []
    ensures Packages(MarkLost(trail)) == Front(Packages(trail))
  {
    var front, hop := Front(trail), Last(trail);
    if hop.Packaged? {
      assert Front(front + [Lost(hop.change, hop.before, hop.after)]) == front;
      assert Front(Packages(front) + PackageOf(hop)) == Packages(front);
    } else {
      assert Packages(trail) == Packages(front);
      MarkLostDrops(front);
      assert Front(MarkLost(front) + [hop]) == MarkLost(front);
    }
  }

  lemma {:induction false} PassedInformed(o: Observer, rows: seq<Row>)
    requires Informed(o, rows, false)
    ensures Informed(Passed(o), rows, true)
  {
    if Due(o) {
      MarkLostLeads(o.trail, o.origin, o.base);
      MarkLostDrops(o.trail);
    } else {
      WaitingSounds(o);
    }
  }

  lemma {:induction false} SkippedInformed(o: Observer, rows: seq<Row>, after: seq<Row>, o': Observer, reached: bool)
    requires Informed(o, rows, reached) && o.accumulated.Empty()
    requires o' == o.(skipNext := false, base := after, trail := o.trail + [Suppressed(rows, after)])
    ensures Informed(o', after, reached)
  {
    EmptyMeansSame(o.accumulated, o.base, rows);
    HopAdded(o.trail, Suppressed(rows, after), o.origin, o.base);
    assert o.accumulated == NOTHING;
    NothingDescribes(after);
    assert Packages(o'.trail) == Packages(o.trail);
  }

  lemma {:induction false} ChangedInformed(o: Observer, c: ChangeSet, rows: seq<Row>, after: seq<Row>, o': Observer,
                                           reached: bool)
    requires Informed(o, rows, reached) && Describes(c, rows, after) && Changed(o, c, rows, after, o')
    requires o.skipNext ==> o.accumulated.Empty()
    ensures Informed(o', after, reached)
  {
    if o.skipNext {
      SkippedInformed(o, rows, after, o', reached);
    } else {
      var order :| MergesTo(o.accumulated, c, o'.accumulated, order);
      MergeDescribes(o.accumulated, c, o'.accumulated, order, o.base, rows, after);
    }
  }

  // ----- what can be made of the calls -----

  /** The account of all the calls together. */
  function Account(heard: seq<Heard>): ChangeSet {
    if heard == [] then NOTHING else Combine(Account(Front(heard)), Last(heard).change.Told())
  }

  lemma {:induction false} AccountAdded(heard: seq<Heard>, h: Heard)
    ensures Account(heard + [h]) == Combine(Account(heard), h.change.Told())
  {
    assert Front(heard + [h]) == heard;
  }

  ghost predicate AllPackaged(trail: seq<Hop>) {
    forall k :: 0 <= k < |trail| ==> trail[k].Packaged?
  }

  /** Composing what a callback heard accounts for everything from its registration on. */
  lemma {:induction false} CallsAccountForHistory(trail: seq<Hop>, a: seq<Row>, b: seq<Row>, heard: seq<Heard>)
    requires Leads(trail, a, b) && AllPackaged(trail) && heard == Sounded(Packages(trail))
    ensures Describes(Account(heard), a, b)
  {
    if trail == [] {
      NothingDescribes(a);
    } else {
      var front, hop := Front(trail), Last(trail);
      var h, heard' := Heard(Finalized(hop.change), hop.after), Sounded(Packages(front));
      CallsAccountForHistory(front, a, hop.before, heard');
      PackageAdded(Packages(front), h);
      FinalEmptyIff(hop.change);
      if Packages(front) != [] && h.change.Empty() {
        EmptyMeansSame(hop.change, hop.before, hop.after);
      } else {
        ToldDescribes(hop.change, hop.before, hop.after);
        AccountAdded(heard', h);
        CombineDescribes(Account(heard'), h.change.Told(), a, hop.before, hop.after);
      }
    }
  }

  // ----- nothing lost, nothing suppressed -----

  predicate NoneLost(trail: seq<Hop>) {
    forall k :: 0 <= k < |trail| ==> !trail[k].Lost?
  }

  predicate NoneSuppressed(trail: seq<Hop>) {
    forall k :: 0 <= k < |trail| ==> !trail[k].Suppressed?
  }

  /** Marking loses a hop that was there. */
  lemma {:induction false} MarkLostLoses(trail: seq<Hop>)
    requires Packages(trail) != []
    ensures !NoneLost(MarkLost(trail))
  {
    var front, hop := Front(trail), Last(trail);
    if hop.Packaged? {
      assert MarkLost(trail)[|front|].Lost?;
    } else {
      assert Packages(trail) == Packages(front);
      MarkLostLoses(front);
      var k :| 0 <= k < |MarkLost(front)| && MarkLost(front)[k].Lost?;
      assert MarkLost(trail)[k].Lost?;
    }
  }

  lemma {:induction false} MarkLostKeepsUnsuppressed(trail: seq<Hop>)
    requires NoneSuppressed(trail)
    ensures NoneSuppressed(MarkLost(trail))
  {
    if trail != [] && !Last(trail).Packaged? {
      MarkLostKeepsUnsuppressed(Front(trail));
    }
  }
}
