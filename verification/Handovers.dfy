/**
 The Combine handover publishers, RealmSwift/Combine.swift: values emitted on one
 queue are turned into thread-safe references, wait in a serial queue, and are
 resolved on the other side, while the file goes on changing.
 */
module Handovers {
  import opened Outcomes
  import opened ChangeSets
  import opened Reports
  import opened VersionedStores
  import RowChanges

  /** What a thread-confined value is; it decides whether resolving can come back empty. */
  datatype Kind = AnObject | AList | AResults

  datatype Confined =
    | Unmanaged(rows: seq<Row>)
    | Live(kind: Kind, key: int, owner: Id)
    | FrozenIn(kind: Kind, key: int, realm: Id)

  /** What the publishers emit: plain values, object change sets and collection change sets. */
  datatype Change =
    | Value(value: Confined)
    | ObjectChange(subject: Confined, properties: seq<int>)
    | ObjectError(error: int)
    | ObjectDeleted
    | Initial(collection: Confined)
    | Update(collection: Confined, deletions: set<nat>, insertions: set<nat>, modifications: set<nat>)
    | CollectionError(error: int)

  function SubjectOf(change: Change): Option<Confined> {
    match change
    case Value(v) => Some(v)
    case ObjectChange(v, _) => Some(v)
    case Initial(v) => Some(v)
    case Update(v, _, _, _) => Some(v)
    case _ => None
  }

  /** The same change about another value; errors and deletions carry none. */
  function About(change: Change, v: Confined): Change {
    match change
    case Value(_) => Value(v)
    case ObjectChange(_, properties) => ObjectChange(v, properties)
    case Initial(_) => Initial(v)
    case Update(_, deletions, insertions, modifications) => Update(v, deletions, insertions, modifications)
    case _ => change
  }

  // ----- the closures on either side of `receive(on:)` -----

  /** What waits in the queue; a reference does not keep the value it was made for. */
  datatype Handover =
    | Passthrough(change: Change)
    | Referenced(ref: Id, kind: Kind, key: int, shape: Change)

  const NO_VALUE := Unmanaged([])

  function Package(change: Change, ref: Id): Handover {
    match SubjectOf(change)
    case Some(Live(kind, key, _)) => Referenced(ref, kind, key, About(change, NO_VALUE))
    case _ => Passthrough(change)
  }

  /** `None`: the element is dropped. */
  function Unpackage(handover: Handover, resolved: Option<Confined>): Option<Change> {
    match handover
    case Passthrough(change) => Some(change)
    case Referenced(_, _, _, shape) => if resolved.None? then None else Some(About(shape, resolved.value))
  }

  /** Only the value is exchanged on the way; properties and indices arrive as they were. */
  lemma PackageRoundTrip(change: Change, ref: Id, v: Confined)
    ensures SubjectOf(change).Some? && SubjectOf(change).value.Live? ==>
              Unpackage(Package(change, ref), Some(v)) == Some(About(change, v))
    ensures SubjectOf(change).Some? ==> About(change, SubjectOf(change).value) == change
    ensures !(SubjectOf(change).Some? && SubjectOf(change).value.Live?) ==>
              Unpackage(Package(change, ref), None) == Some(change)
  {
  }

  /** The `freeze()` operators: a live value is replaced by one in the frozen realm `frozen`. */
  function Freezing(change: Change, frozen: Id): Change {
    match SubjectOf(change)
    case Some(Live(kind, key, _)) => About(change, FrozenIn(kind, key, frozen))
    case _ => change
  }

  // ----- the pipeline -----

  /** One emission; `version` is where its value was when it was emitted. */
  datatype Emission = Emission(change: Change, ref: Id, version: nat, inWrite: bool) {
    predicate IsLive() {
      SubjectOf(change).Some? && SubjectOf(change).value.Live?
    }

    predicate IsFrozen() {
      SubjectOf(change).Some? && SubjectOf(change).value.FrozenIn?
    }

    function Subject(): Confined
      requires SubjectOf(change).Some?
    {
      SubjectOf(change).value
    }
  }

  /** Where an emission is resolved, and whether that realm is just sending notifications. */
  datatype Target = Target(realm: Id, sending: bool)

  /** What became of an emission; `version` and `shown` are where its value stands, and what it shows, on arrival. */
  datatype Settlement =
    | Delivered(change: Change, version: nat, shown: Option<Data>)
    | Unopened
    | Gone(version: nat)

  /** `targets`: for each settled emission where it was resolved, or `None` if no realm could be opened. */
  datatype Pipeline = Pipeline(
    store: Store, queue: seq<Handover>, emitted: seq<Emission>, settled: seq<Settlement>, targets: seq<Option<Target>>,
    received: seq<Change>)

  datatype Step =
    | Background(event: Event)
    | Emit(change: Change, ref: Id)
    | Deliver(target: Option<Target>)

  /** An object or a list is there while its object is; results always are. */
  predicate Present(kind: Kind, key: int, data: Data) {
    kind.AResults? || key in data
  }

  predicate Emits(p: Pipeline, ref: Id) {
    exists k :: 0 <= k < |p.emitted| && p.emitted[k].IsLive() && p.emitted[k].ref == ref
  }

  /** A waiting frozen value keeps its realm open. */
  predicate Retained(queue: seq<Handover>, realm: Id) {
    exists k :: 0 <= k < |queue| && HoldsOpen(queue[k], realm)
  }

  predicate HoldsOpen(handover: Handover, realm: Id) {
    && handover.Passthrough? && SubjectOf(handover.change).Some?
    && SubjectOf(handover.change).value.FrozenIn? && SubjectOf(handover.change).value.realm == realm
  }

  /** Where a value stands in the store: the version it is read at. */
  function VersionOf(s: Store, v: Confined): nat {
    match v
    case Unmanaged(_) => 0
    case Live(_, _, owner) =>
      if owner in s.instances && !s.instances[owner].Idle? then s.instances[owner].version else 0
    case FrozenIn(_, _, realm) =>
      if realm in s.instances && s.instances[realm].Frozen? then s.instances[realm].version else 0
  }

  /** What a value shows. */
  function ViewOf(s: Store, v: Confined): Option<Data> {
    match v
    case Unmanaged(_) => None
    case Live(_, _, owner) => View(s, owner)
    case FrozenIn(_, _, realm) => View(s, realm)
  }

  /**
   When a step can be taken. References are objects of their own: nobody else touches the pipeline's, and none
   is made twice. Emitting an invalidated value raises before anything is queued.
   */
  predicate CanStep(p: Pipeline, step: Step) {
    match step
    case Background(event) =>
      && Enabled(p.store, event)
      && (event.Resolve? || event.DropReference? || event.MakeReference? ==> !Emits(p, event.ref))
      && (event.Close? ==> !Retained(p.queue, event.id))
    case Emit(change, ref) =>
      (match SubjectOf(change)
       case Some(Live(kind, key, owner)) =>
         && Enabled(p.store, MakeReference(owner, ref))
         && !Emits(p, ref)
         && View(p.store, owner).Some? && Present(kind, key, View(p.store, owner).value)
       case Some(FrozenIn(_, _, realm)) => realm in p.store.instances && p.store.instances[realm].Frozen?
       case _ => true)
    case Deliver(target) =>
      && p.queue != []
      && (target.Some? ==>
            && target.value.realm in p.store.instances
            && (p.store.instances[target.value.realm].Idle? || p.store.instances[target.value.realm].Reading?))
      && (p.queue[0].Referenced? ==> p.store.history != [] && p.queue[0].ref in p.store.references)
  }

  function EmissionOf(p: Pipeline, change: Change, ref: Id): Emission {
    var subject := SubjectOf(change);
    var version := if subject.None? then 0 else VersionOf(p.store, subject.value);
    Emission(change, ref, version, subject.Some? && subject.value.Live? && IsWriting(p.store, subject.value.owner))
  }

  /** The store after the head of the queue was resolved in `target`, or dropped because no realm could be opened. */
  function AfterDelivery(p: Pipeline, target: Option<Target>): Store
    requires CanStep(p, Deliver(target))
  {
    match p.queue[0]
    case Passthrough(_) => p.store
    case Referenced(ref, _, _, _) =>
      if target.None? then Next(p.store, DropReference(ref))
      else Next(p.store, Resolve(target.value.realm, ref, target.value.sending))
  }

  function Settle(p: Pipeline, target: Option<Target>): Settlement
    requires CanStep(p, Deliver(target))
  {
    var store := AfterDelivery(p, target);
    match p.queue[0]
    case Passthrough(change) => Arrive(store, change)
    case Referenced(ref, kind, key, shape) =>
      if target.None? then Unopened
      else
        var resolved := Live(kind, key, target.value.realm);
        var shown := ViewOf(store, resolved);
        if shown.Some? && Present(kind, key, shown.value) then Arrive(store, About(shape, resolved))
        else Gone(VersionOf(store, resolved))
  }

  /** A change arrives with its value as the store has it now. */
  function Arrive(store: Store, change: Change): Settlement {
    match SubjectOf(change)
    case None => Delivered(change, 0, None)
    case Some(v) => Delivered(change, VersionOf(store, v), ViewOf(store, v))
  }

  function StepTo(p: Pipeline, step: Step): Pipeline
    requires CanStep(p, step)
  {
    match step
    case Background(event) => p.(store := Next(p.store, event))
    case Emit(change, ref) =>
      var emission := EmissionOf(p, change, ref);
      p.(store := if emission.IsLive() then Next(p.store, MakeReference(emission.Subject().owner, ref)) else p.store,
         queue := p.queue + [Package(change, ref)],
         emitted := p.emitted + [emission])
    case Deliver(target) =>
      var settlement := Settle(p, target);
      p.(store := AfterDelivery(p, target),
         queue := p.queue[1..],
         settled := p.settled + [settlement],
         targets := p.targets + [target],
         received := p.received + if settlement.Delivered? then [settlement.change] else [])
  }

  // ----- what every step keeps -----

  /**
   A settlement is the right one for its emission. What is not live passes unchanged; what is frozen shows, on
   arrival, the version it was emitted at. A live value is dropped exactly when no realm could be opened or its
   object is not there at the version it was resolved at, which is not before the one it was emitted at unless
   the target could not be refreshed; otherwise it shows that version.
   */
  ghost predicate Settled(e: Emission, o: Settlement, target: Option<Target>, history: seq<Data>) {
    if e.IsFrozen() then e.version < |history| && o == Delivered(e.change, e.version, Some(history[e.version]))
    else if !e.IsLive() then o.Delivered? && o == Delivered(e.change, o.version, None)
    else if target.None? then o == Unopened
    else
      && (o.Delivered? || o.Gone?)
      && o.version < |history| && (e.version <= o.version || target.value.sending)
      && var v := e.Subject();
         var resolved := Live(v.kind, v.key, target.value.realm);
         if Present(v.kind, v.key, history[o.version])
         then o == Delivered(About(e.change, resolved), o.version, Some(history[o.version]))
         else o == Gone(o.version)
  }

  /** The queue holds the unsettled emissions, in order. */
  ghost predicate QueueHolds(p: Pipeline) {
    && |p.settled| + |p.queue| == |p.emitted|
    && forall k :: 0 <= k < |p.queue| ==>
         p.queue[k] == Package(p.emitted[|p.settled| + k].change, p.emitted[|p.settled| + k].ref)
  }

  /** An emission's reference exists, and pins its version, exactly until it is settled; no two share one. */
  ghost predicate ReferencesHeld(p: Pipeline) {
    && (forall k :: 0 <= k < |p.emitted| && p.emitted[k].IsLive() ==>
          (p.emitted[k].ref in p.store.references <==> |p.settled| <= k))
    && (forall k :: |p.settled| <= k < |p.emitted| && p.emitted[k].IsLive() ==>
          p.emitted[k].ref in p.store.references
          && p.store.references[p.emitted[k].ref] == Reference(p.emitted[k].version, p.emitted[k].inWrite))
    && (forall j, k :: 0 <= j < k < |p.emitted| && p.emitted[j].IsLive() && p.emitted[k].IsLive() ==>
          p.emitted[j].ref != p.emitted[k].ref)
  }

  /** A waiting frozen value can still be read at its version. */
  ghost predicate FrozenHeld(p: Pipeline) {
    forall k :: |p.settled| <= k < |p.emitted| && p.emitted[k].IsFrozen() ==>
      var realm := p.emitted[k].Subject().realm;
      realm in p.store.instances && p.store.instances[realm] == Frozen(p.emitted[k].version)
  }

  /** What arrived is what was settled as delivered, in order. */
  function Arrived(settled: seq<Settlement>): seq<Change> {
    if settled == [] then []
    else
      var last := settled[|settled| - 1];
      Arrived(settled[..|settled| - 1]) + if last.Delivered? then [last.change] else []
  }

  ghost predicate AllSettled(p: Pipeline) {
    && |p.targets| == |p.settled| <= |p.emitted|
    && p.received == Arrived(p.settled)
    && forall k :: 0 <= k < |p.settled| ==> Settled(p.emitted[k], p.settled[k], p.targets[k], p.store.history)
  }

  ghost predicate PipelineInv(p: Pipeline) {
    Inv(p.store) && QueueHolds(p) && ReferencesHeld(p) && FrozenHeld(p) && AllSettled(p)
  }

  lemma {:induction false} BackgroundKeeps(p: Pipeline, event: Event)
    requires PipelineInv(p) && CanStep(p, Background(event))
    ensures PipelineInv(StepTo(p, Background(event)))
  {
    var store := Next(p.store, event);
    InvNext(p.store, event);
    BackgroundReferences(p, event, store);
    BackgroundFrozen(p, event, store);
    RunOne(p.store, event);
    HistoryAppendOnly(p.store, [event]);
    HistoryGrows(p, p.(store := store));
  }

  lemma {:induction false} BackgroundReferences(p: Pipeline, event: Event, store: Store)
    requires ReferencesHeld(p) && CanStep(p, Background(event)) && store == Next(p.store, event)
    ensures ReferencesHeld(p.(store := store))
  {
    forall k | 0 <= k < |p.emitted| && p.emitted[k].IsLive()
      ensures p.emitted[k].ref in store.references <==> p.emitted[k].ref in p.store.references
      ensures p.emitted[k].ref in p.store.references ==>
                store.references[p.emitted[k].ref] == p.store.references[p.emitted[k].ref]
    {
      assert Emits(p, p.emitted[k].ref);
    }
  }

  lemma {:induction false} BackgroundFrozen(p: Pipeline, event: Event, store: Store)
    requires FrozenHeld(p) && QueueHolds(p) && CanStep(p, Background(event)) && store == Next(p.store, event)
    ensures FrozenHeld(p.(store := store))
  {
    forall k | |p.settled| <= k < |p.emitted| && p.emitted[k].IsFrozen()
      ensures var realm := p.emitted[k].Subject().realm;
              realm in store.instances && store.instances[realm] == Frozen(p.emitted[k].version)
    {
      assert HoldsOpen(p.queue[k - |p.settled|], p.emitted[k].Subject().realm);
    }
  }

  lemma HistoryGrows(p: Pipeline, p': Pipeline)
    requires AllSettled(p) && p.store.history <= p'.store.history
    requires p'.settled == p.settled && p'.targets == p.targets && p'.received == p.received && p.emitted <= p'.emitted
    ensures AllSettled(p')
  {
  }

  lemma {:induction false} EmitKeeps(p: Pipeline, change: Change, ref: Id)
    requires PipelineInv(p) && CanStep(p, Emit(change, ref))
    ensures PipelineInv(StepTo(p, Emit(change, ref)))
  {
    var p' := StepTo(p, Emit(change, ref));
    var emission := EmissionOf(p, change, ref);
    if emission.IsLive() {
      InvNext(p.store, MakeReference(emission.Subject().owner, ref));
    }
    EmitReferences(p, change, ref, p');
    EmitQueue(p, change, ref, p');
    HistoryGrows(p, p');
  }

  lemma {:induction false} EmitQueue(p: Pipeline, change: Change, ref: Id, p': Pipeline)
    requires FrozenHeld(p) && QueueHolds(p) && CanStep(p, Emit(change, ref)) && p' == StepTo(p, Emit(change, ref))
    ensures QueueHolds(p') && FrozenHeld(p')
  {
    assert p'.store.instances == p.store.instances;
  }

  lemma {:induction false} EmitReferences(p: Pipeline, change: Change, ref: Id, p': Pipeline)
    requires ReferencesHeld(p) && QueueHolds(p) && CanStep(p, Emit(change, ref)) && p' == StepTo(p, Emit(change, ref))
    ensures ReferencesHeld(p')
  {
    if EmissionOf(p, change, ref).IsLive() {
      forall k | 0 <= k < |p.emitted| && p.emitted[k].IsLive()
        ensures p.emitted[k].ref != ref
      {
        assert !Emits(p, ref);
      }
    }
  }

  lemma {:induction false} DeliverKeeps(p: Pipeline, target: Option<Target>)
    requires PipelineInv(p) && CanStep(p, Deliver(target))
    ensures PipelineInv(StepTo(p, Deliver(target)))
  {
    var p' := StepTo(p, Deliver(target));
    DeliverInv(p, target);
    DeliverReferences(p, target, p');
    DeliverQueue(p, target, p');
    DeliverFrozen(p, target, p');
    DeliverSettles(p, target, p');
  }

  lemma {:induction false} DeliverInv(p: Pipeline, target: Option<Target>)
    requires Inv(p.store) && CanStep(p, Deliver(target))
    ensures Inv(AfterDelivery(p, target))
  {
    if p.queue[0].Referenced? {
      var ref := p.queue[0].ref;
      var event := if target.None? then DropReference(ref) else Resolve(target.value.realm, ref, target.value.sending);
      InvNext(p.store, event);
    }
  }

  lemma DeliverQueue(p: Pipeline, target: Option<Target>, p': Pipeline)
    requires QueueHolds(p) && CanStep(p, Deliver(target)) && p' == StepTo(p, Deliver(target))
    ensures QueueHolds(p')
  {
  }

  lemma {:induction false} DeliverReferences(p: Pipeline, target: Option<Target>, p': Pipeline)
    requires PipelineInv(p) && CanStep(p, Deliver(target)) && p' == StepTo(p, Deliver(target))
    ensures ReferencesHeld(p')
  {
    var head := p.emitted[|p.settled|];
    assert p.queue[0] == Package(head.change, head.ref);
    assert p'.store.references == if head.IsLive() then p.store.references - {head.ref} else p.store.references;
  }

  lemma {:induction false} DeliverFrozen(p: Pipeline, target: Option<Target>, p': Pipeline)
    requires PipelineInv(p) && CanStep(p, Deliver(target)) && p' == StepTo(p, Deliver(target))
    ensures FrozenHeld(p')
  {
    forall k | |p'.settled| <= k < |p.emitted| && p.emitted[k].IsFrozen()
      ensures var realm := p.emitted[k].Subject().realm;
              realm in p'.store.instances && p'.store.instances[realm] == Frozen(p.emitted[k].version)
    {
      var realm := p.emitted[k].Subject().realm;
      assert p.store.instances[realm].Frozen?;
    }
  }

  lemma {:induction false} DeliverSettles(p: Pipeline, target: Option<Target>, p': Pipeline)
    requires PipelineInv(p) && CanStep(p, Deliver(target)) && p' == StepTo(p, Deliver(target))
    ensures AllSettled(p')
  {
    var head := p.emitted[|p.settled|];
    assert p.queue[0] == Package(head.change, head.ref);
    assert p'.store.history == p.store.history;
    assert p'.settled[..|p.settled|] == p.settled;
    HeadSettles(p, target, head);
    forall k | 0 <= k < |p'.settled|
      ensures Settled(p'.emitted[k], p'.settled[k], p'.targets[k], p'.store.history)
    {
      assert k < |p.settled| ==> p'.settled[k] == p.settled[k] && p'.targets[k] == p.targets[k];
    }
  }

  /** The head of the queue is settled as it should be. */
  lemma {:induction false} HeadSettles(p: Pipeline, target: Option<Target>, head: Emission)
    requires PipelineInv(p) && CanStep(p, Deliver(target)) && head == p.emitted[|p.settled|]
    ensures Settled(head, Settle(p, target), target, p.store.history)
  {
    assert p.queue[0] == Package(head.change, head.ref);
    if head.IsFrozen() {
      FrozenOpenOnArrival(p, target, head);
    } else if head.IsLive() && target.Some? {
      LiveHeadSettles(p, target.value, head);
    }
  }

  /** When a frozen value arrives, its realm is still open at the version of the emission, and shows that. */
  lemma {:induction false} FrozenOpenOnArrival(p: Pipeline, target: Option<Target>, head: Emission)
    requires PipelineInv(p) && CanStep(p, Deliver(target)) && head == p.emitted[|p.settled|] && head.IsFrozen()
    ensures var store, realm := StepTo(p, Deliver(target)).store, head.Subject().realm;
      && realm in store.instances && store.instances[realm] == Frozen(head.version)
      && head.version < |store.history|
      && ViewOf(store, head.Subject()) == Some(store.history[head.version])
  {
    assert p.queue[0] == Package(head.change, head.ref);
    assert p.store.instances[head.Subject().realm] == Frozen(head.version);
  }

  lemma {:induction false} LiveHeadSettles(p: Pipeline, target: Target, head: Emission)
    requires PipelineInv(p) && CanStep(p, Deliver(Some(target))) && head == p.emitted[|p.settled|] && head.IsLive()
    ensures Settled(head, Settle(p, Some(target)), Some(target), p.store.history)
  {
    assert p.queue[0] == Package(head.change, head.ref);
    var i, r := p.store.instances[target.realm], p.store.references[head.ref];
    assert r == Reference(head.version, head.inWrite);
    assert r.version < |p.store.history|;
    assert i.Reading? ==> i.version < |p.store.history|;
    var resolved := Live(head.Subject().kind, head.Subject().key, target.realm);
    PackageRoundTrip(head.change, head.ref, resolved);
    assert SubjectOf(About(head.change, resolved)) == Some(resolved);
  }

  // ----- whole runs -----

  predicate CanRun(p: Pipeline, steps: seq<Step>)
    decreases |steps|
  {
    steps != [] ==> CanStep(p, steps[0]) && CanRun(StepTo(p, steps[0]), steps[1..])
  }

  function RunTo(p: Pipeline, steps: seq<Step>): Pipeline
    requires CanRun(p, steps)
    decreases |steps|
  {
    if steps == [] then p else RunTo(StepTo(p, steps[0]), steps[1..])
  }

  lemma {:induction false} StepKeeps(p: Pipeline, step: Step)
    requires PipelineInv(p) && CanStep(p, step)
    ensures PipelineInv(StepTo(p, step))
  {
    match step
    case Background(event) => BackgroundKeeps(p, event);
    case Emit(change, ref) => EmitKeeps(p, change, ref);
    case Deliver(target) => DeliverKeeps(p, target);
  }

  /**
   Every run of a handover publisher, in every interleaving with the rest of the program: emissions are
   settled in order, each by exactly one settlement that is right for it, and what arrived are the
   delivered ones in emission order.
   */
  lemma {:induction false} HandoverRun(p: Pipeline, steps: seq<Step>, final: Pipeline)
    requires PipelineInv(p) && CanRun(p, steps) && final == RunTo(p, steps)
    ensures PipelineInv(final)
    decreases |steps|
  {
    if steps != [] {
      StepKeeps(p, steps[0]);
      HandoverRun(StepTo(p, steps[0]), steps[1..], final);
    }
  }

  /** A pipeline before its first emission. */
  function Fresh(s: Store): Pipeline {
    Pipeline(s, [], [], [], [], [])
  }

  /** Once the queue has drained everything is settled and the pipeline pins nothing any more. */
  lemma {:induction false} DrainedPinsNothing(s: Store, steps: seq<Step>, final: Pipeline)
    requires Inv(s) && CanRun(Fresh(s), steps) && final == RunTo(Fresh(s), steps) && final.queue == []
    ensures |final.settled| == |final.targets| == |final.emitted| && final.received == Arrived(final.settled)
    ensures forall k :: 0 <= k < |final.emitted| ==>
              Settled(final.emitted[k], final.settled[k], final.targets[k], final.store.history)
    ensures forall k :: 0 <= k < |final.emitted| && final.emitted[k].IsLive() ==>
              final.emitted[k].ref !in final.store.references
  {
    HandoverRun(Fresh(s), steps, final);
  }

  /** While an emission waits, its reference keeps its version from being reclaimed. */
  lemma WaitingIsPinned(p: Pipeline, k: nat)
    requires PipelineInv(p) && |p.settled| <= k < |p.emitted|
    requires p.emitted[k].IsLive() || p.emitted[k].IsFrozen()
    ensures p.store.oldest <= p.emitted[k].version < |p.store.history|
  {
  }

  /** What arrives comes in the order of emission: after everything delivered before it. */
  lemma {:induction false} ArrivedInOrder(settled: seq<Settlement>, k: nat)
    requires k < |settled|
    ensures |Arrived(settled[..k])| <= |Arrived(settled)|
    ensures settled[k].Delivered? ==>
      && |Arrived(settled[..k])| < |Arrived(settled)|
      && Arrived(settled)[|Arrived(settled[..k])|] == settled[k].change
    ensures !settled[k].Delivered? ==> Arrived(settled[..k + 1]) == Arrived(settled[..k])
    decreases |settled|
  {
    var front := settled[..|settled| - 1];
    if k < |front| {
      ArrivedInOrder(front, k);
      assert front[..k] == settled[..k] && front[..k + 1] == settled[..k + 1];
    } else {
      assert settled[..k + 1] == settled;
    }
  }

  /** A live value that was resolved arrives exactly if it is a collection of results or its object is there. */
  lemma {:induction false} ArrivesIff(p: Pipeline, k: nat)
    requires PipelineInv(p) && k < |p.settled| && p.emitted[k].IsLive() && p.targets[k].Some?
    ensures !p.settled[k].Unopened? && p.settled[k].version < |p.store.history|
    ensures var v := p.emitted[k].Subject();
      p.settled[k].Delivered? <==> v.kind == AResults || v.key in p.store.history[p.settled[k].version]
  {
    assert Settled(p.emitted[k], p.settled[k], p.targets[k], p.store.history);
  }

  // ----- thread confinement -----

  /** The value is in the change, whichever kind of change it is. */
  predicate Mentions(change: Change, v: Confined) {
    || (change.Value? && change.value == v)
    || (change.ObjectChange? && change.subject == v)
    || (change.Initial? && change.collection == v)
    || (change.Update? && change.collection == v)
  }

  lemma SubjectIsMentioned(change: Change, v: Confined)
    ensures SubjectOf(change) == Some(v) <==> Mentions(change, v)
  {
  }

  /** No live value crosses to another thread: one that arrives belongs to the realm it was resolved in. */
  lemma {:induction false} NothingConfinedCrosses(p: Pipeline, k: nat, kind: Kind, key: int, owner: Id)
    requires PipelineInv(p) && k < |p.settled| && p.settled[k].Delivered?
    requires Mentions(p.settled[k].change, Live(kind, key, owner))
    ensures p.targets[k].Some? && owner == p.targets[k].value.realm
  {
    assert Settled(p.emitted[k], p.settled[k], p.targets[k], p.store.history);
    SubjectIsMentioned(p.settled[k].change, Live(kind, key, owner));
    if p.emitted[k].IsLive() && p.targets[k].Some? {
      var v := p.emitted[k].Subject();
      var resolved := Live(v.kind, v.key, p.targets[k].value.realm);
      SubjectIsMentioned(About(p.emitted[k].change, resolved), resolved);
      assert SubjectOf(About(p.emitted[k].change, resolved)) == Some(resolved);
    }
  }

  /** Nor does one wait in the queue: what waits is a reference, or not live. */
  lemma {:induction false} NothingConfinedWaits(p: Pipeline, k: nat, kind: Kind, key: int, owner: Id)
    requires PipelineInv(p) && k < |p.queue|
    ensures !(p.queue[k].Passthrough? && Mentions(p.queue[k].change, Live(kind, key, owner)))
  {
    var e := p.emitted[|p.settled| + k];
    assert p.queue[k] == Package(e.change, e.ref);
    SubjectIsMentioned(e.change, Live(kind, key, owner));
  }

  /** Delivery is never stuck: the head of the queue can be settled in any realm that can be read in, or without one. */
  lemma {:induction false} HeadCanBeSettled(p: Pipeline, target: Option<Target>)
    requires PipelineInv(p) && p.queue != []
    requires target.Some? ==> target.value.realm in p.store.instances
    requires target.Some? ==>
      p.store.instances[target.value.realm].Idle? || p.store.instances[target.value.realm].Reading?
    ensures CanStep(p, Deliver(target)) && |StepTo(p, Deliver(target)).queue| == |p.queue| - 1
  {
    var e := p.emitted[|p.settled|];
    assert p.queue[0] == Package(e.change, e.ref);
    assert e.IsLive() ==> e.ref in p.store.references;
  }

  // ----- do the change indices match what arrives? -----

  /** A collection update that reports truly how its collection got from version `since` to its own. */
  ghost predicate Truthful(e: Emission, since: nat, history: seq<Data>) {
    && e.change.Update? && !e.change.collection.Unmanaged?
    && since <= e.version < |history|
    && e.change.collection.key in history[since] && e.change.collection.key in history[e.version]
    && Accounts(Indices(e.change), history[since][e.change.collection.key], history[e.version][e.change.collection.key])
  }

  /** What the update tells its receiver. */
  function Indices(change: Change): Report
    requires change.Update?
  {
    Report(change.deletions, change.insertions, change.modifications)
  }

  /** `freeze()` in front of a handover: the emission is frozen at the version its live value was at. */
  lemma FreezeThenEmit(p: Pipeline, change: Change, frozen: Id, ref: Id)
    requires PipelineInv(p) && SubjectOf(change).Some? && SubjectOf(change).value.Live?
    requires CanStep(p, Background(Freeze(SubjectOf(change).value.owner, frozen)))
    requires p.store.instances[SubjectOf(change).value.owner].Reading?
    ensures var p' := StepTo(p, Background(Freeze(SubjectOf(change).value.owner, frozen)));
            && CanStep(p', Emit(Freezing(change, frozen), ref))
            && var e := EmissionOf(p', Freezing(change, frozen), ref);
               && e.IsFrozen() && e.version == VersionOf(p.store, SubjectOf(change).value)
               && About(e.change, SubjectOf(change).value) == change
  {
  }

  /** Frozen before the handover: never dropped, never altered, and its indices describe what it shows on arrival. */
  lemma {:induction false} FrozenUpdateMatches(p: Pipeline, k: nat, since: nat)
    requires PipelineInv(p) && k < |p.settled|
    requires p.emitted[k].IsFrozen() && Truthful(p.emitted[k], since, p.store.history)
    ensures p.settled[k].Delivered? && p.settled[k].change == p.emitted[k].change
    ensures p.settled[k].version == p.emitted[k].version && p.settled[k].shown.Some?
    ensures var key, shown := p.emitted[k].change.collection.key, p.settled[k].shown.value;
      key in shown && Accounts(Indices(p.settled[k].change), p.store.history[since][key], shown[key])
  {
    assert Settled(p.emitted[k], p.settled[k], p.targets[k], p.store.history);
  }

  /**
   Handed over live: the indices arrive unchanged, but the collection shows the emitted version or a later one
   (an earlier one only if the target was sending notifications), and is described by them if it is the emitted one.
   */
  lemma {:induction false} LiveUpdateArrives(p: Pipeline, k: nat, since: nat)
    requires PipelineInv(p) && k < |p.settled|
    requires p.emitted[k].IsLive() && Truthful(p.emitted[k], since, p.store.history) && p.settled[k].Delivered?
    ensures p.settled[k].change.Update? && Indices(p.settled[k].change) == Indices(p.emitted[k].change)
    ensures p.settled[k].version < |p.store.history|
    ensures p.settled[k].shown == Some(p.store.history[p.settled[k].version])
    ensures p.emitted[k].version <= p.settled[k].version || (p.targets[k].Some? && p.targets[k].value.sending)
    ensures p.settled[k].version == p.emitted[k].version ==>
      var key, shown := p.emitted[k].change.collection.key, p.settled[k].shown.value;
      key in shown && Accounts(Indices(p.settled[k].change), p.store.history[since][key], shown[key])
  {
    assert Settled(p.emitted[k], p.settled[k], p.targets[k], p.store.history);
  }

  /**
   Exactly when a live value is resolved at the version it was emitted at: in a target without a read
   transaction, unless the source was writing; in a target at that very version, with the same exception; and
   otherwise only if nothing was committed since and the target can be refreshed. It is resolved at an earlier
   version exactly in an older target that is sending notifications.
   */
  lemma {:induction false} ResolvedAtEmission(p: Pipeline, target: Target, head: Emission)
    requires PipelineInv(p) && CanStep(p, Deliver(Some(target))) && head == p.emitted[|p.settled|] && head.IsLive()
    ensures var i, latest := p.store.instances[target.realm], p.store.Latest();
      var v := ResolvedVersion(i, p.store.references[head.ref], latest, target.sending);
      && (v == head.version <==>
           if i.Idle? then !head.inWrite || latest == head.version
           else if target.sending then i.version == head.version
           else latest == head.version || (!head.inWrite && i.version == head.version))
      && (v < head.version <==> i.Reading? && target.sending && i.version < head.version)
  {
    assert p.queue[0] == Package(head.change, head.ref);
    assert p.store.references[head.ref] == Reference(head.version, head.inWrite);
    assert p.store.references[head.ref].version <= p.store.Latest();
    assert p.store.instances[target.realm].Reading? ==> p.store.instances[target.realm].version <= p.store.Latest();
  }

  /** Versions and emissions only ever get added, so what was true of an emission when it was made stays true. */
  lemma {:induction false} RunOnlyAdds(p: Pipeline, steps: seq<Step>, final: Pipeline)
    requires CanRun(p, steps) && final == RunTo(p, steps)
    ensures p.store.history <= final.store.history && p.emitted <= final.emitted && p.settled <= final.settled
    decreases |steps|
  {
    if steps != [] {
      StepOnlyAdds(p, steps[0]);
      RunOnlyAdds(StepTo(p, steps[0]), steps[1..], final);
    }
  }

  lemma StepOnlyAdds(p: Pipeline, step: Step)
    requires CanStep(p, step)
    ensures p.store.history <= StepTo(p, step).store.history
    ensures p.emitted <= StepTo(p, step).emitted && p.settled <= StepTo(p, step).settled
  {
  }

  lemma TruthfulStays(e: Emission, since: nat, history: seq<Data>, history': seq<Data>)
    requires Truthful(e, since, history) && history <= history'
    ensures Truthful(e, since, history')
  {
  }

  // An example: version 1 inserts the first row of the list of object 7, version 2 removes it again.

  const ROW := Row(1, 1)
  const V0: Data := map[7 := []]
  const V1: Data := map[7 := [ROW]]
  const V2: Data := V1[7 := []]
  const INSERTED := Update(Live(AList, 7, 0), {}, {0}, {})
  const ARRIVED := Update(Live(AList, 7, 1), {}, {0}, {})
  const WAITING := Referenced(5, AList, 7, Update(NO_VALUE, {}, {0}, {}))
  const EMISSION := Emission(INSERTED, 5, 1, false)

  /** Instance 0 emits at version 1, instance 1 (the target) lags at version 0, instance 2 writes. */
  function ExampleStore(history: seq<Data>, writer: Option<Id>, target: Instance, writing: Instance,
                        refs: map<Id, Reference>): Store {
    Store(history, 0, writer, map[0 := Reading(1), 1 := target, 2 := writing], refs)
  }

  const REFS: map<Id, Reference> := map[5 := Reference(1, false)]
  const S0 := ExampleStore([V0, V1], None, Reading(0), Idle, map[])
  const S1 := ExampleStore([V0, V1], None, Reading(0), Idle, REFS)
  const S2 := ExampleStore([V0, V1], Some(2), Reading(0), Writing(1, []), REFS)
  const S3 := ExampleStore([V0, V1], Some(2), Reading(0), Writing(1, [Put(7, [])]), REFS)
  const S4 := ExampleStore([V0, V1, V2], None, Reading(0), Reading(2), REFS)
  const S5 := ExampleStore([V0, V1, V2], None, Reading(2), Reading(2), map[])
  const P1 := Pipeline(S1, [WAITING], [EMISSION], [], [], [])
  const P5 := Pipeline(S5, [], [EMISSION], [Delivered(ARRIVED, 2, Some(V2))], [Some(Target(1, false))], [ARRIVED])

  lemma {:induction false} ExampleEmits()
    ensures CanStep(Fresh(S0), Emit(INSERTED, 5)) && StepTo(Fresh(S0), Emit(INSERTED, 5)) == P1
  {
    assert StepTo(Fresh(S0), Emit(INSERTED, 5)).store == S1;
  }

  lemma {:induction false} ExampleBegins()
    ensures Enabled(S1, Begin(2)) && Next(S1, Begin(2)) == S2
    ensures Enabled(S2, Write(2, Put(7, []))) && Next(S2, Write(2, Put(7, []))) == S3
  {
    assert [] + [Put(7, [])] == [Put(7, [])];
    assert Next(S2, Write(2, Put(7, []))).instances == S3.instances;
  }

  lemma {:induction false} ExampleCommits()
    ensures Enabled(S3, Commit(2)) && Next(S3, Commit(2)) == S4
  {
    var log := [Put(7, [])];
    assert PerformAll(V1, log) == Perform(PerformAll(V1, log[..0]), log[0]) == V2;
  }

  lemma {:induction false} ExampleDelivers()
    ensures CanStep(P1.(store := S4), Deliver(Some(Target(1, false))))
    ensures StepTo(P1.(store := S4), Deliver(Some(Target(1, false)))) == P5
  {
    assert Next(S4, Resolve(1, 5, false)) == S5;
  }

  /**
   Without `freeze()` the arriving collection need not match its indices: the target lags behind, another
   instance commits, and resolving takes the target past the version that was emitted.
   */
  lemma {:induction false} LiveUpdateMayMismatch() returns (steps: seq<Step>)
    ensures Inv(S0) && CanRun(Fresh(S0), steps) && RunTo(Fresh(S0), steps) == P5
    ensures Truthful(EMISSION, 0, P5.store.history)
    ensures P5.settled[0].shown == Some(V2) && !Accounts(Indices(ARRIVED), P5.store.history[0][7], V2[7])
  {
    steps := ExampleRun();
    FirstRowInserted();
    assert 0 in Indices(ARRIVED).insertions;
  }

  lemma {:induction false} ExampleRun() returns (steps: seq<Step>)
    ensures CanRun(Fresh(S0), steps) && RunTo(Fresh(S0), steps) == P5
  {
    var last := ExampleEnd();
    ExampleBegins();
    last := Behind(P1, Background(Begin(2)), P1.(store := S2), last, P5);
    ExampleEmits();
    steps := Behind(Fresh(S0), Emit(INSERTED, 5), P1, last, P5);
  }

  lemma {:induction false} ExampleEnd() returns (steps: seq<Step>)
    ensures CanRun(P1.(store := S2), steps) && RunTo(P1.(store := S2), steps) == P5
  {
    ExampleDelivers();
    var last := Behind(P1.(store := S4), Deliver(Some(Target(1, false))), P5, [], P5);
    ExampleCommits();
    last := Behind(P1.(store := S3), Background(Commit(2)), P1.(store := S4), last, P5);
    ExampleBegins();
    steps := Behind(P1.(store := S2), Background(Write(2, Put(7, []))), P1.(store := S3), last, P5);
  }

  /** A run with one more step in front. */
  lemma {:induction false} Behind(p: Pipeline, step: Step, p': Pipeline, rest: seq<Step>, final: Pipeline)
    returns (steps: seq<Step>)
    requires CanStep(p, step) && p' == StepTo(p, step) && CanRun(p', rest) && RunTo(p', rest) == final
    ensures CanRun(p, steps) && RunTo(p, steps) == final
  {
    steps := [step] + rest;
    assert steps[1..] == rest;
  }

  /** One row inserted into an empty list is what the indices of the example say. */
  lemma {:induction false} FirstRowInserted()
    ensures Accounts(Indices(INSERTED), [], [ROW])
  {
    var c := ChangeSet({}, {0}, {}, {});
    RowChanges.OneRowDescribes(ROW);
    ModifiedNothing(c);
    assert Reported(c) == Indices(INSERTED);
  }
}
