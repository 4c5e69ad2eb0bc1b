/**
 One Realm file and the instances that use it, as a state machine: transactions,
 refreshing, freezing, thread-safe references and the reuse of old versions.
 Steps follow Realm/RLMRealm.h and Realm/ObjectStore/src/shared_realm.cpp.
 */
module VersionedStores {
  import opened Outcomes
  import opened ChangeSets

  /** Names of instances and of references. */
  type Id = nat

  /** The data of one version: the rows of each object's list, by object key. */
  type Data = map<int, seq<Row>>

  datatype Operation = Put(key: int, rows: seq<Row>) | Delete(key: int)

  function Perform(data: Data, op: Operation): Data {
    match op
    case Put(key, rows) => data[key := rows]
    case Delete(key) => data - {key}
  }

  function PerformAll(data: Data, log: seq<Operation>): Data {
    if log == [] then data else Perform(PerformAll(data, log[..|log| - 1]), log[|log| - 1])
  }

  /** Writing in two parts is writing the whole, in order. */
  lemma {:induction false} PerformInOrder(data: Data, a: seq<Operation>, b: seq<Operation>)
    ensures PerformAll(data, a + b) == PerformAll(PerformAll(data, a), b)
  {
    if b == [] {
      assert a + b == a;
    } else {
      var front, last := b[..|b| - 1], b[|b| - 1];
      PerformInOrder(data, a, front);
      assert (a + b)[..|a + b| - 1] == a + front && (a + b)[|a + b| - 1] == last;
    }
  }

  /** The last operation on an object decides: it is there with those rows, or it is gone. */
  lemma {:induction false} LastWriteDecides(data: Data, log: seq<Operation>, k: nat)
    requires k < |log| && forall j :: k < j < |log| ==> log[j].key != log[k].key
    ensures var key := log[k].key;
      && (key in PerformAll(data, log) <==> log[k].Put?)
      && (log[k].Put? ==> PerformAll(data, log)[key] == log[k].rows)
  {
    if k < |log| - 1 {
      LastWriteDecides(data, log[..|log| - 1], k);
    }
  }

  /** Objects that are not written stay as they were. */
  lemma {:induction false} UnwrittenStay(data: Data, log: seq<Operation>, key: int)
    requires forall j :: 0 <= j < |log| ==> log[j].key != key
    ensures key in PerformAll(data, log) <==> key in data
    ensures key in data ==> PerformAll(data, log)[key] == data[key]
  {
    if log != [] {
      UnwrittenStay(data, log[..|log| - 1], key);
    }
  }

  /** An instance without a read transaction, at a version, writing on top of a version, or frozen at one. */
  datatype Instance =
    | Idle
    | Reading(version: nat)
    | Writing(version: nat, log: seq<Operation>)
    | Frozen(version: nat)

  /** A thread-safe reference pins the version it was made at. */
  datatype Reference = Reference(version: nat, inWrite: bool)

  /** `oldest`: versions before it may have been overwritten in the file. */
  datatype Store = Store(
    history: seq<Data>, oldest: nat, writer: Option<Id>, instances: map<Id, Instance>, references: map<Id, Reference>)
  {
    function Latest(): nat
      requires history != []
    {
      |history| - 1
    }
  }

  datatype Event =
    | Open(id: Id)
    | Close(id: Id)
    | BeginRead(id: Id)
    | Invalidate(id: Id)
    | Begin(id: Id)
    | Write(id: Id, op: Operation)
    | Commit(id: Id)
    | Cancel(id: Id)
    | Advance(id: Id, version: nat)
    | Freeze(id: Id, frozen: Id)
    | MakeReference(id: Id, ref: Id)
    | Resolve(id: Id, ref: Id, sending: bool)
    | DropReference(ref: Id)
    | Reclaim(oldest: nat)

  /**
   The version `resolve` leaves the target at: `refresh_target_realm`. Nothing is refreshed while the target is
   sending notifications.
   */
  function ResolvedVersion(target: Instance, reference: Reference, latest: nat, sending: bool): nat
    requires target.Idle? || target.Reading?
  {
    match target
    case Idle => if reference.inWrite then latest else reference.version
    case Reading(version) =>
      if !sending && (version < reference.version || (version == reference.version && reference.inWrite))
      then latest else version
  }

  predicate IsWriting(s: Store, id: Id) {
    id in s.instances && s.instances[id].Writing?
  }

  /** When a step can be taken; `beginWrite` waits for the writer lock. */
  predicate Enabled(s: Store, e: Event) {
    && s.history != []
    && match e
       case Open(id) => id !in s.instances
       case Close(id) => id in s.instances
       case BeginRead(id) => id in s.instances && s.instances[id].Idle?
       case Invalidate(id) => id in s.instances && !s.instances[id].Frozen?
       case Begin(id) => id in s.instances && (s.instances[id].Idle? || s.instances[id].Reading?) && s.writer.None?
       case Write(id, _) => IsWriting(s, id)
       case Commit(id) => IsWriting(s, id) && s.instances[id].version < |s.history|
       case Cancel(id) => IsWriting(s, id)
       case Advance(id, version) =>
         id in s.instances && s.instances[id].Reading? && s.instances[id].version <= version <= s.Latest()
       case Freeze(id, frozen) =>
         id in s.instances && (s.instances[id].Reading? || s.instances[id].Frozen?) && frozen !in s.instances
       case MakeReference(id, ref) =>
         id in s.instances && (s.instances[id].Reading? || s.instances[id].Writing?) && ref !in s.references
       case Resolve(id, ref, _) =>
         id in s.instances && (s.instances[id].Idle? || s.instances[id].Reading?) && ref in s.references
       case DropReference(ref) => ref in s.references
       case Reclaim(oldest) =>
         && s.oldest <= oldest <= s.Latest()
         && (forall id :: id in s.instances && !s.instances[id].Idle? ==> oldest <= s.instances[id].version)
         && (forall ref :: ref in s.references ==> oldest <= s.references[ref].version)
  }

  function Unlock(s: Store, id: Id): Option<Id> {
    if s.writer == Some(id) then None else s.writer
  }

  function Next(s: Store, e: Event): Store
    requires Enabled(s, e)
  {
    match e
    case Open(id) => s.(instances := s.instances[id := Idle])
    case Close(id) => s.(instances := s.instances - {id}, writer := Unlock(s, id))
    case BeginRead(id) => s.(instances := s.instances[id := Reading(s.Latest())])
    case Invalidate(id) => s.(instances := s.instances[id := Idle], writer := Unlock(s, id))
    case Begin(id) => s.(instances := s.instances[id := Writing(s.Latest(), [])], writer := Some(id))
    case Write(id, op) =>
      s.(instances := s.instances[id := s.instances[id].(log := s.instances[id].log + [op])])
    case Commit(id) =>
      var i := s.instances[id];
      s.(history := s.history + [PerformAll(s.history[i.version], i.log)],
         instances := s.instances[id := Reading(|s.history|)], writer := None)
    case Cancel(id) => s.(instances := s.instances[id := Reading(s.instances[id].version)], writer := None)
    case Advance(id, version) => s.(instances := s.instances[id := Reading(version)])
    case Freeze(id, frozen) => s.(instances := s.instances[frozen := Frozen(s.instances[id].version)])
    case MakeReference(id, ref) =>
      s.(references := s.references[ref := Reference(s.instances[id].version, s.instances[id].Writing?)])
    case Resolve(id, ref, sending) =>
      var version := ResolvedVersion(s.instances[id], s.references[ref], s.Latest(), sending);
      s.(instances := s.instances[id := Reading(version)],
         references := s.references - {ref})
    case DropReference(ref) => s.(references := s.references - {ref})
    case Reclaim(oldest) => s.(oldest := oldest)
  }

  // ----- what every step keeps -----

  /** Nothing in use lies outside the versions the file still holds. */
  ghost predicate PinsHeld(s: Store) {
    && s.oldest < |s.history|
    && (forall id :: id in s.instances && !s.instances[id].Idle? ==> s.oldest <= s.instances[id].version < |s.history|)
    && (forall ref :: ref in s.references ==> s.oldest <= s.references[ref].version < |s.history|)
  }

  /** The lock is held by the one instance that writes, and it writes on top of the latest version. */
  ghost predicate LockHeld(s: Store) {
    && (forall id: Id :: IsWriting(s, id) <==> s.writer == Some(id))
    && (forall id: Id :: IsWriting(s, id) ==> s.instances[id].version == |s.history| - 1)
  }

  ghost predicate Inv(s: Store) {
    PinsHeld(s) && LockHeld(s)
  }

  lemma PinsHeldNext(s: Store, e: Event)
    requires Inv(s) && Enabled(s, e)
    ensures PinsHeld(Next(s, e))
  {
  }

  lemma LockHeldNext(s: Store, e: Event)
    requires Inv(s) && Enabled(s, e)
    ensures LockHeld(Next(s, e))
  {
  }

  /** Every legal sequence of steps, by any number of instances in any order. */
  predicate Legal(s: Store, run: seq<Event>)
    decreases |run|
  {
    run != [] ==> Enabled(s, run[0]) && Legal(Next(s, run[0]), run[1..])
  }

  function Run(s: Store, run: seq<Event>): Store
    requires Legal(s, run)
    decreases |run|
  {
    if run == [] then s else Run(Next(s, run[0]), run[1..])
  }

  /** What an instance sees: its version, plus its own uncommitted writes. */
  function View(s: Store, id: Id): Option<Data> {
    if id !in s.instances then None
    else
      match s.instances[id]
      case Idle => None
      case Reading(v) => if v < |s.history| then Some(s.history[v]) else None
      case Writing(v, log) => if v < |s.history| then Some(PerformAll(s.history[v], log)) else None
      case Frozen(v) => if v < |s.history| then Some(s.history[v]) else None
  }

  lemma RunOne(s: Store, e: Event)
    requires Enabled(s, e)
    ensures Legal(s, [e]) && Run(s, [e]) == Next(s, e)
  {
  }

  lemma {:induction false} InvNext(s: Store, e: Event)
    requires Inv(s) && Enabled(s, e)
    ensures Inv(Next(s, e))
  {
    PinsHeldNext(s, e);
    LockHeldNext(s, e);
  }

  /** In every reachable state at most one writer is open, and no pinned version was reclaimed. */
  lemma {:induction false} InvRun(s: Store, run: seq<Event>)
    requires Inv(s) && Legal(s, run)
    ensures Inv(Run(s, run))
    ensures forall a, b :: IsWriting(Run(s, run), a) && IsWriting(Run(s, run), b) ==> a == b
    decreases |run|
  {
    if run != [] {
      InvNext(s, run[0]);
      InvRun(Next(s, run[0]), run[1..]);
    }
  }

  /** Committed versions are never changed nor removed from the history. */
  lemma {:induction false} HistoryAppendOnly(s: Store, run: seq<Event>)
    requires Legal(s, run)
    ensures s.history <= Run(s, run).history
    decreases |run|
  {
    if run != [] {
      assert s.history <= Next(s, run[0]).history;
      HistoryAppendOnly(Next(s, run[0]), run[1..]);
    }
  }

  /** The instance whose state a step may change. */
  function Actor(e: Event): Option<Id> {
    match e
    case DropReference(_) => None
    case Reclaim(_) => None
    case Freeze(_, frozen) => Some(frozen)
    case MakeReference(_, _) => None
    case _ => Some(e.id)
  }

  /** No step of another instance is visible: what an instance sees changes only by its own steps. */
  lemma {:induction false} Isolation(s: Store, e: Event, id: Id)
    requires Inv(s) && Enabled(s, e) && Actor(e) != Some(id)
    ensures View(Next(s, e), id) == View(s, id)
  {
    if id in s.instances && !s.instances[id].Idle? {
      assert s.instances[id].version < |s.history|;
      assert Next(s, e).history[s.instances[id].version] == s.history[s.instances[id].version];
    }
  }

  /** The same over a whole run of other instances' steps. */
  lemma {:induction false} IsolationRun(s: Store, run: seq<Event>, id: Id)
    requires Inv(s) && Legal(s, run)
    requires forall e :: e in run ==> Actor(e) != Some(id)
    ensures View(Run(s, run), id) == View(s, id)
    decreases |run|
  {
    if run != [] {
      assert run[0] in run;
      InvNext(s, run[0]);
      Isolation(s, run[0], id);
      IsolationRun(Next(s, run[0]), run[1..], id);
    }
  }

  /** A frozen view never changes, whatever happens until it is closed. */
  lemma {:induction false} FrozenForever(s: Store, run: seq<Event>, id: Id)
    requires Inv(s) && Legal(s, run) && id in s.instances && s.instances[id].Frozen?
    requires Close(id) !in run
    ensures id in Run(s, run).instances && Run(s, run).instances[id] == s.instances[id]
    ensures View(Run(s, run), id) == View(s, id) == Some(s.history[s.instances[id].version])
    decreases |run|
  {
    if run != [] {
      assert run[0] != Close(id);
      InvNext(s, run[0]);
      if Actor(run[0]) != Some(id) {
        Isolation(s, run[0], id);
      }
      FrozenForever(Next(s, run[0]), run[1..], id);
    }
  }

  /** A cancelled transaction leaves the instance seeing what it saw when it began. */
  lemma CancelRestores(s: Store, id: Id)
    requires Inv(s) && IsWriting(s, id)
    ensures Enabled(s, Cancel(id)) && Next(s, Cancel(id)).history == s.history
    ensures View(Next(s, Cancel(id)), id) == Some(s.history[s.Latest()])
  {
  }

  // ----- what each step lets an instance see -----

  /** An instance sees nothing before it begins to read. */
  lemma OpenShows(s: Store, id: Id)
    requires Inv(s) && id !in s.instances
    ensures Enabled(s, Open(id)) && id in Next(s, Open(id)).instances && View(Next(s, Open(id)), id) == None
  {
  }

  /** A read transaction begins at the latest version. */
  lemma BeginReadShows(s: Store, id: Id)
    requires Inv(s) && id in s.instances && s.instances[id].Idle?
    ensures Enabled(s, BeginRead(id)) && View(s, id) == None
    ensures View(Next(s, BeginRead(id)), id) == Some(s.history[|s.history| - 1])
  {
  }

  /** A reading instance can move on to any later version, the latest one included, and then shows that one. */
  lemma AdvanceShows(s: Store, id: Id, version: nat)
    requires Inv(s) && id in s.instances && s.instances[id].Reading?
    ensures Enabled(s, Advance(id, version)) <==> s.instances[id].version <= version < |s.history|
    ensures Enabled(s, Advance(id, version)) ==> View(Next(s, Advance(id, version)), id) == Some(s.history[version])
  {
  }

  /** A write transaction begins on the latest version, whatever the instance saw before. */
  lemma BeginShows(s: Store, id: Id)
    requires Inv(s) && id in s.instances && (s.instances[id].Idle? || s.instances[id].Reading?)
    ensures Enabled(s, Begin(id)) <==> s.writer == None
    ensures Enabled(s, Begin(id)) ==> View(Next(s, Begin(id)), id) == Some(s.history[|s.history| - 1])
  {
  }

  /** A write is seen by the writer at once. */
  lemma {:induction false} WriteShows(s: Store, id: Id, op: Operation)
    requires Inv(s) && IsWriting(s, id)
    ensures Enabled(s, Write(id, op)) && View(s, id).Some?
    ensures View(Next(s, Write(id, op)), id) == Some(Perform(View(s, id).value, op))
  {
    var log := s.instances[id].log;
    assert (log + [op])[..|log|] == log;
  }

  /** A frozen instance shows what the one it was made from shows. */
  lemma FreezeShows(s: Store, id: Id, frozen: Id)
    requires Inv(s) && id in s.instances && (s.instances[id].Reading? || s.instances[id].Frozen?)
    requires frozen !in s.instances
    ensures Enabled(s, Freeze(id, frozen)) && View(s, id).Some?
    ensures View(Next(s, Freeze(id, frozen)), frozen) == View(s, id)
    ensures Next(s, Freeze(id, frozen)).instances[frozen].Frozen?
  {
  }

  /** Invalidating releases the version and, in a write transaction, the lock and the writes. */
  lemma InvalidateReleases(s: Store, id: Id)
    requires Inv(s) && id in s.instances && !s.instances[id].Frozen?
    ensures Enabled(s, Invalidate(id)) && View(Next(s, Invalidate(id)), id) == None
    ensures Next(s, Invalidate(id)).history == s.history
    ensures Next(s, Invalidate(id)).writer == if IsWriting(s, id) then None else s.writer
  {
  }

  /** The versions before the oldest one still in use can be reclaimed, and no others. */
  lemma ReclaimFrees(s: Store, oldest: nat)
    requires Inv(s) && s.oldest <= oldest < |s.history|
    ensures Enabled(s, Reclaim(oldest)) <==>
      && (forall id :: id in s.instances && !s.instances[id].Idle? ==> oldest <= s.instances[id].version)
      && (forall ref :: ref in s.references ==> oldest <= s.references[ref].version)
    ensures Enabled(s, Reclaim(oldest)) ==> Next(s, Reclaim(oldest)).oldest == oldest
  {
  }

  /**
   Resolving a reference: a target that is behind is brought to the latest version, one that is ahead or is sending
   notifications stays where it is, and one without a read transaction begins at the referenced version. A reference
   made in a write transaction counts as behind the next version.
   */
  lemma ResolveShows(s: Store, id: Id, ref: Id, sending: bool)
    requires Inv(s) && id in s.instances && (s.instances[id].Idle? || s.instances[id].Reading?) && ref in s.references
    ensures Enabled(s, Resolve(id, ref, sending)) && ref !in Next(s, Resolve(id, ref, sending)).references
    ensures var r, latest := s.references[ref], |s.history| - 1;
      View(Next(s, Resolve(id, ref, sending)), id) ==
        match s.instances[id]
        case Idle => Some(s.history[if r.inWrite then latest else r.version])
        case Reading(v) =>
          if sending || v > r.version || (v == r.version && !r.inWrite) then View(s, id) else Some(s.history[latest])
        case _ => None
  {
  }

  /** A reference pins the version its maker sees. */
  lemma ReferencePins(s: Store, id: Id, ref: Id)
    requires Inv(s) && id in s.instances && ref !in s.references
    requires s.instances[id].Reading? || s.instances[id].Writing?
    ensures Enabled(s, MakeReference(id, ref))
    ensures var r := Next(s, MakeReference(id, ref)).references[ref];
      r.version < |s.history| && r.inWrite == IsWriting(s, id)
      && (if r.inWrite then r.version == |s.history| - 1 else View(s, id) == Some(s.history[r.version]))
  {
  }

  // ----- serialisability -----

  /** The transactions of a run in commit order, read off the events alone; `open` are the ones under way. */
  function Transactions(run: seq<Event>, open: map<Id, seq<Operation>>): seq<seq<Operation>>
    decreases |run|
  {
    if run == [] then [] else Committed(open, run[0]) + Transactions(run[1..], Tracked(open, run[0]))
  }

  function Committed(open: map<Id, seq<Operation>>, e: Event): seq<seq<Operation>> {
    if e.Commit? && e.id in open then [open[e.id]] else []
  }

  function Tracked(open: map<Id, seq<Operation>>, e: Event): map<Id, seq<Operation>> {
    match e
    case Begin(id) => open[id := []]
    case Write(id, op) => if id in open then open[id := open[id] + [op]] else open
    case Commit(id) => open - {id}
    case Cancel(id) => open - {id}
    case Close(id) => open - {id}
    case Invalidate(id) => open - {id}
    case _ => open
  }

  /** Running whole transactions one after the other, nothing in between. */
  function Replay(data: Data, transactions: seq<seq<Operation>>): seq<Data>
    decreases |transactions|
  {
    if transactions == [] then []
    else
      var data' := PerformAll(data, transactions[0]);
      [data'] + Replay(data', transactions[1..])
  }

  /** `open` holds the log of the writing instance and no other. */
  ghost predicate Tracks(s: Store, open: map<Id, seq<Operation>>) {
    forall id: Id :: (id in open <==> IsWriting(s, id)) && (id in open ==> open[id] == s.instances[id].log)
  }

  /** Every interleaving is equivalent to its committed transactions run alone, one by one, in commit order. */
  lemma {:induction false} Serialisable(s: Store, run: seq<Event>, open: map<Id, seq<Operation>>)
    requires Inv(s) && Legal(s, run) && Tracks(s, open)
    ensures Run(s, run).history == s.history + Replay(s.history[s.Latest()], Transactions(run, open))
    decreases |run|
  {
    if run != [] {
      var s', e, open' := Next(s, run[0]), run[0], Tracked(open, run[0]);
      InvNext(s, e);
      TrackedNext(s, e, open);
      Serialisable(s', run[1..], open');
      OneMore(s, e, open, Transactions(run[1..], open'), s'.history);
    }
  }

  lemma OnlyCommitsAppend(s: Store, e: Event)
    requires Inv(s) && Enabled(s, e)
    ensures e.Commit? ==> IsWriting(s, e.id)
    ensures Next(s, e).history ==
      if e.Commit? then s.history + [PerformAll(s.history[s.Latest()], s.instances[e.id].log)] else s.history
  {
  }

  /** A commit adds one transaction on top of the latest version; no other step changes the history. */
  lemma {:induction false} OneMore(s: Store, e: Event, open: map<Id, seq<Operation>>, later: seq<seq<Operation>>,
                                   history': seq<Data>)
    requires Inv(s) && Enabled(s, e) && Tracks(s, open) && history' == Next(s, e).history
    ensures history' != []
    ensures history' + Replay(history'[|history'| - 1], later)
         == s.history + Replay(s.history[s.Latest()], Committed(open, e) + later)
  {
    OnlyCommitsAppend(s, e);
    if e.Commit? {
      var data := PerformAll(s.history[s.Latest()], open[e.id]);
      CommitReplays(s.history, data, open[e.id], later, history');
    } else {
      assert Committed(open, e) + later == later;
    }
  }

  lemma CommitReplays(history: seq<Data>, data: Data, log: seq<Operation>, later: seq<seq<Operation>>,
                      history': seq<Data>)
    requires history != [] && data == PerformAll(history[|history| - 1], log) && history' == history + [data]
    ensures history' + Replay(data, later) == history + Replay(history[|history| - 1], [log] + later)
  {
  }

  lemma {:induction false} TrackedNext(s: Store, e: Event, open: map<Id, seq<Operation>>)
    requires Inv(s) && Enabled(s, e) && Tracks(s, open)
    ensures Tracks(Next(s, e), Tracked(open, e))
  {
    assert forall id: Id :: (id in open <==> IsWriting(s, id)) && (id in open ==> open[id] == s.instances[id].log);
  }
}
