/**
 A table view kept up to date by a collection's notifications, as the
 documentation of `RealmCollectionChange` shows it
 (RealmSwift/RealmCollection.swift): reload on `.initial`, batch update on
 `.update`. The whole way from the changes in the file to the screen.
 */
module TableViews {
  import opened ChangeSets
  import opened Reports
  import opened ChangeMerging
  import opened CallbackTrails
  import opened Notifiers
  import opened ObserveBlocks
  import opened Reconstruction

  /** What a notice does to the table; `rows` is the collection at that time. */
  function Shown(notice: Notice, table: seq<Row>, rows: seq<Row>): seq<Row> {
    match notice
    case Initial(_) => rows
    case Update(_, report) => Batched(report, table, rows)
    case Error(_) => table
  }

  /** The table after the calls `heard`, if it showed `table` before the first one. */
  function Screen(heard: seq<Heard>, skipFirst: bool, table: seq<Row>): seq<Row> {
    if heard == [] then table
    else
      var h := Last(heard);
      var notice := Expected(Changes(h.change), Front(heard) == [], skipFirst, Own);
      Shown(notice, Screen(Front(heard), skipFirst, table), h.rows)
  }

  lemma {:induction false} ScreenAdded(heard: seq<Heard>, h: Heard, skipFirst: bool, table: seq<Row>)
    ensures Screen(heard + [h], skipFirst, table)
         == Shown(Expected(Changes(h.change), heard == [], skipFirst, Own), Screen(heard, skipFirst, table), h.rows)
  {
    assert Front(heard + [h]) == heard;
  }

  /** One call: a reload, or a true report to a table that showed the old version. */
  lemma {:induction false} ShownIsNew(c: ChangeSet, before: seq<Row>, after: seq<Row>, first: bool, skipFirst: bool,
                                      shown: seq<Row>)
    requires Describes(c, before, after)
    requires shown == before || (first && skipFirst) || c.Empty()
    ensures Shown(Expected(Changes(Finalized(c)), first, skipFirst, Own), shown, after) == after
  {
    FinalEmptyIff(c);
    if shown == before {
      BatchedIsNew(c, before, after);
    }
  }

  /** One more package, called or not. */
  lemma {:induction false} ScreenStep(packages: seq<Heard>, hop: Hop, skipFirst: bool, table: seq<Row>, shown: seq<Row>)
    requires hop.Packaged? && TrueHop(hop) && shown == Screen(Sounded(packages), skipFirst, table)
    requires shown == hop.before || (packages == [] && InitialFirst(PackageOf(hop), skipFirst))
    ensures Screen(Sounded(packages + PackageOf(hop)), skipFirst, table) == hop.after
  {
    var h := Heard(Finalized(hop.change), hop.after);
    FinalEmptyIff(hop.change);
    PackageAdded(packages, h);
    SomethingSounds(packages);
    if packages != [] && hop.change.Empty() {
      EmptyMeansSame(hop.change, hop.before, hop.after);
    } else {
      ScreenAdded(Sounded(packages), h, skipFirst, table);
      ShownIsNew(hop.change, hop.before, hop.after, packages == [], skipFirst, shown);
    }
  }

  /** A trail without its last hop. */
  lemma {:induction false} ShorterTrail(trail: seq<Hop>, a: seq<Row>, b: seq<Row>, packages: seq<Heard>,
                                        skipFirst: bool)
    returns (front: seq<Hop>, hop: Hop, packages': seq<Heard>)
    requires Leads(trail, a, b) && AllPackaged(trail) && trail != [] && packages == Packages(trail)
    ensures |front| < |trail| && packages' == Packages(front) && packages == packages' + PackageOf(hop)
    ensures AllPackaged(front) && Leads(front, a, hop.before)
    ensures hop.Packaged? && TrueHop(hop) && hop.after == b
    ensures front == [] ==> packages' == [] && hop.before == a
    ensures front != [] ==> packages' != [] && InitialFirst(packages', skipFirst) == InitialFirst(packages, skipFirst)
  {
    front, hop := Front(trail), Last(trail);
    packages' := Packages(front);
    if front != [] {
      SomethingPackaged(front);
    }
  }

  lemma {:induction false} SomethingPackaged(trail: seq<Hop>)
    requires AllPackaged(trail) && trail != []
    ensures Packages(trail) != []
  {
    assert Last(trail).Packaged?;
  }

  /** The table shows the end of the trail, if it starts with a reload or showed the beginning. */
  lemma {:induction false} ScreenFollows(trail: seq<Hop>, a: seq<Row>, b: seq<Row>, packages: seq<Heard>,
                                         skipFirst: bool, table: seq<Row>)
    requires Leads(trail, a, b) && AllPackaged(trail) && trail != [] && packages == Packages(trail)
    requires InitialFirst(packages, skipFirst) || table == a
    ensures Screen(Sounded(packages), skipFirst, table) == b
    decreases |trail|
  {
    var front, hop, packages' := ShorterTrail(trail, a, b, packages, skipFirst);
    var shown := Screen(Sounded(packages'), skipFirst, table);
    if front != [] {
      ScreenFollows(front, a, hop.before, packages', skipFirst, table);
    }
    ScreenStep(packages', hop, skipFirst, table, shown);
  }

  // ----- whole runs -----

  ghost predicate Unsuppressed(n: Notifier) {
    forall i :: 0 <= i < |n.observers| ==> !n.observers[i].skipNext && NoneSuppressed(n.observers[i].trail)
  }

  lemma {:induction false} StepUnsuppressed(n: Notifier, e: Event, n': Notifier)
    requires Steps(n, e, n') && !e.Suppress? && Unsuppressed(n)
    ensures Unsuppressed(n')
  {
    forall i | 0 <= i < |n'.observers|
      ensures !n'.observers[i].skipNext && NoneSuppressed(n'.observers[i].trail)
    {
      if e.Discard? || (e.Advance? && !n.Continues()) {
        MarkLostKeepsUnsuppressed(n.observers[i].trail);
      } else {
        TrailsGrow(n, e, n', i);
      }
    }
  }

  lemma {:induction false} RunUnsuppressed(rows: seq<Row>, states: seq<Notifier>, events: seq<Event>, k: nat)
    requires Run(states, events) && states[0] == Start(rows) && k < |states|
    requires forall j :: 0 <= j < |events| ==> !events[j].Suppress?
    ensures Unsuppressed(states[k])
  {
    if k > 0 {
      var j := k - 1;
      RunUnsuppressed(rows, states, events, j);
      assert Steps(states[j], events[j], states[j + 1]);
      StepUnsuppressed(states[j], events[j], states[j + 1]);
    }
  }

  /**
   Over every run of polite callers without suppression, whatever changes are committed and however they are
   batched, the table shows exactly the collection as of the last packaging, once the callback has been called.
   It only needs a first reload, or to have shown the collection as it was at the registration.
   */
  lemma {:induction false} TableInSync(rows: seq<Row>, states: seq<Notifier>, events: seq<Event>, k: nat, i: nat,
                                       skipFirst: bool, table: seq<Row>)
    requires PoliteRun(states, events) && states[0] == Start(rows) && k < |states|
    requires forall j :: 0 <= j < |events| ==> !events[j].Suppress?
    requires i < |states[k].observers| && states[k].Reached(i) && states[k].observers[i].heard != []
    requires var o := states[k].observers[i];
      InitialFirst(Packages(o.trail), skipFirst) || table == o.origin
    ensures var o := states[k].observers[i];
      Screen(o.heard, skipFirst, table) == o.base
  {
    var o := states[k].observers[i];
    EveryCallbackHearsAll(rows, states, events, k, i);
    PoliteLosesNothing(rows, states, events, k);
    RunUnsuppressed(rows, states, events, k);
    assert o.trail != [];
    assert AllPackaged(o.trail);
    ScreenFollows(o.trail, o.origin, o.base, Packages(o.trail), skipFirst, table);
  }
}
