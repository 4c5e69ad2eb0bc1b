/**
 `Realm.write`, RealmSwift/Realm.swift: a block run inside a write transaction,
 which the block itself may commit, cancel or begin again, while other instances
 go on using the file.
 */
module RealmWrites {
  import opened Outcomes
  import opened VersionedStores

  /** The file all instances share. */
  class RealmFile {
    var store: Store

    constructor (store: Store)
      ensures this.store == store
    {
      this.store := store;
    }
  }

  datatype WriteResult = Completed | Rethrown | Raised

  /** What the block does and what happens meanwhile; the instance itself stays open. */
  predicate IsBlock(id: Id, block: seq<Event>) {
    Close(id) !in block
  }

  /** What `write` does after the block: commit on return, cancel on error, if a transaction is still open. */
  function Ending(s: Store, id: Id, throws: bool): seq<Event> {
    if !IsWriting(s, id) then [] else if throws then [Cancel(id)] else [Commit(id)]
  }

  /** The state `write` leaves behind. */
  ghost predicate Writes(s: Store, id: Id, block: seq<Event>, throws: bool, inside: Store, final: Store) {
    && Inv(s)
    && Enabled(s, Begin(id))
    && Legal(Next(s, Begin(id)), block)
    && IsBlock(id, block)
    && inside == Run(Next(s, Begin(id)), block)
    && Legal(inside, Ending(inside, id, throws))
    && final == Run(inside, Ending(inside, id, throws))
  }

  class Realm {
    const file: RealmFile
    const id: Id

    constructor (file: RealmFile, id: Id)
      ensures this.file == file && this.id == id
    {
      this.file, this.id := file, id;
    }

    predicate IsInWriteTransaction()
      reads file
    {
      IsWriting(file.store, id)
    }

    /** Raises on a frozen instance and inside a transaction; otherwise the lock is free when this takes effect. */
    method BeginWrite() returns (outcome: Outcome)
      requires Inv(file.store) && id in file.store.instances
      requires file.store.writer.None? || file.store.writer == Some(id)
      modifies file
      ensures outcome.Returned? <==> !old(IsInWriteTransaction()) && !old(file.store.instances[id].Frozen?)
      ensures outcome.Returned? ==> Enabled(old(file.store), Begin(id))
      ensures outcome.Returned? ==> file.store == Next(old(file.store), Begin(id))
      ensures outcome.Raised? ==> file.store == old(file.store)
    {
      if file.store.instances[id].Frozen? || IsInWriteTransaction() {
        return Outcome.Raised;
      }
      file.store := Next(file.store, Begin(id));
      return Returned;
    }

    /** What the writer saw becomes the latest version, for itself at once and for the others when they move on. */
    method CommitWrite() returns (outcome: Outcome)
      requires Inv(file.store)
      modifies file
      ensures outcome.Returned? <==> old(IsInWriteTransaction())
      ensures outcome.Raised? ==> file.store == old(file.store)
      ensures outcome.Returned? ==>
        && Inv(file.store) && file.store.writer == None && !IsInWriteTransaction()
        && file.store.history == old(file.store.history) + [old(View(file.store, id)).value]
        && forall other: Id :: View(file.store, other) == old(View(file.store, other))
      ensures outcome.Returned? ==> file.store == Next(old(file.store), Commit(id))
    {
      if !IsInWriteTransaction() {
        return Outcome.Raised;
      }
      OthersSeeNothing(file.store, Commit(id));
      CommitAppends(file.store, id);
      file.store := Next(file.store, Commit(id));
      return Returned;
    }

    /** The writes are gone: the instance sees the latest version again, the others notice nothing. */
    method CancelWrite() returns (outcome: Outcome)
      requires Inv(file.store)
      modifies file
      ensures outcome.Returned? <==> old(IsInWriteTransaction())
      ensures outcome.Raised? ==> file.store == old(file.store)
      ensures outcome.Returned? ==>
        && Inv(file.store) && file.store.writer == None && !IsInWriteTransaction()
        && file.store.history == old(file.store.history)
        && View(file.store, id) == Some(file.store.history[file.store.Latest()])
        && forall other: Id :: other != id ==> View(file.store, other) == old(View(file.store, other))
      ensures outcome.Returned? ==> file.store == Next(old(file.store), Cancel(id))
    {
      if !IsInWriteTransaction() {
        return Outcome.Raised;
      }
      OthersSeeNothing(file.store, Cancel(id));
      CancelRestores(file.store, id);
      file.store := Next(file.store, Cancel(id));
      return Returned;
    }

    /**
     The block, step by step, together with the steps of other instances that fall between its own; `ran` is how
     far it got before a step of its own raised.
     */
    method RunBlock(block: seq<Event>) returns (outcome: Outcome, ghost ran: seq<Event>)
      requires Inv(file.store) && Feasible(file.store, id, block)
      modifies file
      ensures Inv(file.store) && Ran(old(file.store), id, block, ran, file.store)
      ensures outcome.Returned? <==> ran == block
    {
      ran := [];
      for k := 0 to |block|
        invariant ran == block[..k] && Inv(file.store) && Feasible(file.store, id, block[k..])
        invariant Legal(old(file.store), ran) && file.store == Run(old(file.store), ran)
      {
        assert block[k..][0] == block[k] && block[k..][1..] == block[k + 1..];
        if Raises(file.store, id, block[k]) {
          return Outcome.Raised, ran;
        }
        InvNext(file.store, block[k]);
        RunOneMore(old(file.store), ran, block[k]);
        ran := ran + [block[k]];
        file.store := Next(file.store, block[k]);
      }
      return Returned, ran;
    }

    /**
     `ran` is the part of the block that ran, and `inside` the state in which it left the file. An Objective-C
     exception raised by a step of the block passes through: nothing is committed or cancelled then.
     */
    method Write(block: seq<Event>, throws: bool)
      returns (result: WriteResult, ghost ran: seq<Event>, ghost inside: Store)
      requires Inv(file.store) && id in file.store.instances
      requires file.store.writer.None? || file.store.writer == Some(id)
      requires Enabled(file.store, Begin(id)) ==> Feasible(Next(file.store, Begin(id)), id, block) && IsBlock(id, block)
      modifies file
      ensures Inv(file.store)
      ensures old(Enabled(file.store, Begin(id))) <==>
        !old(IsInWriteTransaction()) && !old(file.store.instances[id].Frozen?)
      ensures !old(Enabled(file.store, Begin(id))) ==> result.Raised? && file.store == old(file.store)
      ensures old(Enabled(file.store, Begin(id))) ==>
        && Ran(Next(old(file.store), Begin(id)), id, block, ran, inside)
        && (result.Raised? <==> ran != block)
        && (result.Raised? <==> !Legal(Next(old(file.store), Begin(id)), block))
        && (result.Raised? ==> file.store == inside)
        && (!result.Raised? ==>
              && !IsInWriteTransaction()
              && result == (if throws then Rethrown else Completed)
              && Writes(old(file.store), id, block, throws, inside, file.store))
    {
      var begun := BeginWrite();
      ran, inside := [], file.store;
      if begun.Raised? {
        return WriteResult.Raised, ran, inside;
      }
      InvNext(old(file.store), Begin(id));
      var outcome;
      outcome, ran := RunBlock(block);
      inside := file.store;
      RaisesUnlessLegal(Next(old(file.store), Begin(id)), id, block, ran, inside);
      if outcome.Raised? {
        return WriteResult.Raised, ran, inside;
      }
      EndingRuns(inside, id, throws);
      if throws {
        if IsInWriteTransaction() {
          outcome := CancelWrite();
        }
        return Rethrown, ran, inside;
      }
      if IsInWriteTransaction() {
        outcome := CommitWrite();
      }
      return Completed, ran, inside;
    }
  }

  // ----- the steps of a block -----

  /** Beginning twice raises, and so does writing, committing or cancelling outside a transaction. */
  predicate Raises(s: Store, id: Id, e: Event) {
    match e
    case Begin(i) => i == id && IsWriting(s, id)
    case Write(i, _) => i == id && !IsWriting(s, id)
    case Commit(i) => i == id && !IsWriting(s, id)
    case Cancel(i) => i == id && !IsWriting(s, id)
    case _ => false
  }

  /** Every step can be taken where it comes, up to the first of its own that raises. */
  predicate Feasible(s: Store, id: Id, block: seq<Event>)
    decreases |block|
  {
    block == [] || Raises(s, id, block[0]) || (Enabled(s, block[0]) && Feasible(Next(s, block[0]), id, block[1..]))
  }

  /** `ran` is all of the block, or what comes before a step that raises. */
  ghost predicate Ran(s: Store, id: Id, block: seq<Event>, ran: seq<Event>, inside: Store) {
    && ran <= block && Legal(s, ran) && inside == Run(s, ran)
    && (ran != block ==> Raises(inside, id, block[|ran|]))
  }

  /** Among the steps of a block's own instance, those raise that cannot be taken; a begin may also have to wait. */
  lemma RaisesIff(s: Store, id: Id, e: Event)
    requires Inv(s) && id in s.instances && !s.instances[id].Frozen?
    requires e.Begin? || e.Write? || e.Commit? || e.Cancel?
    requires e.id == id && (e.Begin? ==> s.writer.None? || s.writer == Some(id))
    ensures Raises(s, id, e) <==> !Enabled(s, e)
  {
  }

  lemma RaisesOnlyIfDisabled(s: Store, id: Id, e: Event)
    requires Inv(s) && Raises(s, id, e)
    ensures !Enabled(s, e)
  {
  }

  /** A block runs through exactly if every step of it can be taken where it comes. */
  lemma {:induction false} RaisesUnlessLegal(s: Store, id: Id, block: seq<Event>, ran: seq<Event>, inside: Store)
    requires Inv(s) && Ran(s, id, block, ran, inside)
    ensures ran == block <==> Legal(s, block)
    decreases |block|
  {
    if ran == [] {
      if block != [] {
        RaisesOnlyIfDisabled(s, id, block[0]);
      }
    } else {
      InvNext(s, ran[0]);
      assert ran[0] == block[0] && ran[1..] <= block[1..];
      assert ran == [block[0]] + ran[1..] && block == [block[0]] + block[1..];
      assert |ran| < |block| ==> block[1..][|ran| - 1] == block[|ran|];
      RaisesUnlessLegal(Next(s, ran[0]), id, block[1..], ran[1..], inside);
    }
  }

  lemma {:induction false} RunOneMore(s: Store, run: seq<Event>, e: Event)
    requires Legal(s, run) && Enabled(Run(s, run), e)
    ensures Legal(s, run + [e]) && Run(s, run + [e]) == Next(Run(s, run), e)
    decreases |run|
  {
    if run == [] {
      RunOne(s, e);
      assert [] + [e] == [e];
    } else {
      RunOneMore(Next(s, run[0]), run[1..], e);
      assert (run + [e])[0] == run[0] && (run + [e])[1..] == run[1..] + [e];
    }
  }

  lemma {:induction false} EndingRuns(s: Store, id: Id, throws: bool)
    requires Inv(s)
    ensures Legal(s, Ending(s, id, throws))
    ensures Run(s, Ending(s, id, throws)) ==
      if !IsWriting(s, id) then s else Next(s, if throws then Cancel(id) else Commit(id))
  {
    if IsWriting(s, id) {
      RunOne(s, if throws then Cancel(id) else Commit(id));
    }
  }

  lemma {:induction false} OthersSeeNothing(s: Store, e: Event)
    requires Inv(s) && Enabled(s, e)
    ensures Inv(Next(s, e))
    ensures forall other: Id :: Actor(e) != Some(other) ==> View(Next(s, e), other) == View(s, other)
  {
    InvNext(s, e);
    forall other: Id | Actor(e) != Some(other)
      ensures View(Next(s, e), other) == View(s, other)
    {
      Isolation(s, e, other);
    }
  }

  // ----- what a write does to the history -----

  /** Who committed the versions a run adds, in order. */
  function Authors(run: seq<Event>): seq<Id> {
    if run == [] then [] else (if run[0].Commit? then [run[0].id] else []) + Authors(run[1..])
  }

  lemma {:induction false} OneVersionPerAuthor(s: Store, run: seq<Event>)
    requires Legal(s, run)
    ensures |Run(s, run).history| == |s.history| + |Authors(run)|
    decreases |run|
  {
    if run != [] {
      OneVersionPerAuthor(Next(s, run[0]), run[1..]);
    }
  }

  /**
   Every block, in every interleaving: the instance ends outside a transaction, and the versions added are
   those the block's own and other instances' commits added, plus one of its own exactly when the block
   returned normally with its transaction still open.
   */
  lemma {:induction false} WriteCommits(s: Store, id: Id, block: seq<Event>, throws: bool, inside: Store, final: Store)
    requires Writes(s, id, block, throws, inside, final)
    ensures !IsWriting(final, id) && s.history <= inside.history <= final.history
    ensures |inside.history| == |s.history| + |Authors(block)|
    ensures if !throws && IsWriting(inside, id)
            then final.history
              == inside.history + [PerformAll(inside.history[|inside.history| - 1], inside.instances[id].log)]
            else final.history == inside.history
  {
    FinalHistory(s, id, block, throws, inside, final);
    var begun := Next(s, Begin(id));
    HistoryAppendOnly(begun, block);
    OneVersionPerAuthor(begun, block);
  }

  /** What the last step of a write does to the history. */
  lemma {:induction false} FinalHistory(s: Store, id: Id, block: seq<Event>, throws: bool, inside: Store, final: Store)
    requires Writes(s, id, block, throws, inside, final)
    ensures Inv(inside) && !IsWriting(final, id)
    ensures if !throws && IsWriting(inside, id)
            then final.history
              == inside.history + [PerformAll(inside.history[|inside.history| - 1], inside.instances[id].log)]
            else final.history == inside.history
    ensures throws && IsWriting(inside, id) ==> View(final, id) == Some(inside.history[inside.Latest()])
  {
    WriteEnds(s, id, block, throws, inside, final);
    if IsWriting(inside, id) {
      CommitAppends(inside, id);
      CancelRestores(inside, id);
    }
  }

  /** The last step of a write, if there is one. */
  lemma {:induction false} WriteEnds(s: Store, id: Id, block: seq<Event>, throws: bool, inside: Store, final: Store)
    requires Writes(s, id, block, throws, inside, final)
    ensures Inv(inside) && Inv(Next(s, Begin(id)))
    ensures if !IsWriting(inside, id) then final == inside
            else if throws then Enabled(inside, Cancel(id)) && final == Next(inside, Cancel(id))
            else Enabled(inside, Commit(id)) && final == Next(inside, Commit(id))
  {
    InvNext(s, Begin(id));
    InvRun(Next(s, Begin(id)), block);
    if IsWriting(inside, id) {
      RunOne(inside, if throws then Cancel(id) else Commit(id));
    }
  }

  /** The instance's own writes in a run. */
  function OwnWrites(run: seq<Event>, id: Id): seq<Operation> {
    if run == [] then []
    else (if run[0].Write? && run[0].id == id then [run[0].op] else []) + OwnWrites(run[1..], id)
  }

  /** The block never ends the transaction it was given. */
  predicate LeavesOpen(block: seq<Event>, id: Id) {
    Commit(id) !in block && Cancel(id) !in block && Invalidate(id) !in block && Close(id) !in block
  }

  /** While a writer keeps its transaction open, nobody commits and its log collects exactly its own writes. */
  lemma {:induction false} LockExcludesCommits(s: Store, run: seq<Event>, id: Id, final: Store)
    requires Inv(s) && Legal(s, run) && IsWriting(s, id) && LeavesOpen(run, id) && final == Run(s, run)
    ensures IsWriting(final, id) && final.history == s.history
    ensures final.instances[id].log == s.instances[id].log + OwnWrites(run, id)
    decreases |run|
  {
    if run != [] {
      var e, later, s' := run[0], run[1..], Next(s, run[0]);
      LeavesOpenSplits(run, id);
      InvNext(s, e);
      LockExcludesCommit(s, e, id);
      LockExcludesCommits(s', later, id, final);
      var own := if e.Write? && e.id == id then [e.op] else [];
      assert OwnWrites(run, id) == own + OwnWrites(later, id);
      assert s.instances[id].log + own + OwnWrites(later, id) == s.instances[id].log + (own + OwnWrites(later, id));
    }
  }

  lemma LeavesOpenSplits(run: seq<Event>, id: Id)
    requires run != [] && LeavesOpen(run, id)
    ensures LeavesOpen([run[0]], id) && LeavesOpen(run[1..], id)
  {
  }

  lemma {:induction false} LockExcludesCommit(s: Store, e: Event, id: Id)
    requires Inv(s) && Enabled(s, e) && IsWriting(s, id) && LeavesOpen([e], id)
    ensures IsWriting(Next(s, e), id) && Next(s, e).history == s.history
    ensures Next(s, e).instances[id].log == s.instances[id].log + if e.Write? && e.id == id then [e.op] else []
  {
    assert e in [e];
    assert s.writer == Some(id);
  }

  /** A block that only writes: an error leaves the history untouched, success adds all its writes as one version. */
  lemma {:induction false} WriteIsAtomic(s: Store, id: Id, block: seq<Event>, throws: bool, inside: Store, final: Store)
    requires Writes(s, id, block, throws, inside, final) && LeavesOpen(block, id)
    ensures throws ==> final.history == s.history && View(final, id) == Some(s.history[s.Latest()])
    ensures !throws ==> final.history == s.history + [PerformAll(s.history[s.Latest()], OwnWrites(block, id))]
  {
    FinalHistory(s, id, block, throws, inside, final);
    InsideBlock(s, id, block, inside);
  }

  /** At the end of such a block the transaction holds exactly its writes, on top of the version it began at. */
  lemma {:induction false} InsideBlock(s: Store, id: Id, block: seq<Event>, inside: Store)
    requires Inv(s) && Enabled(s, Begin(id)) && Legal(Next(s, Begin(id)), block) && LeavesOpen(block, id)
    requires inside == Run(Next(s, Begin(id)), block)
    ensures IsWriting(inside, id) && inside.history == s.history && inside.instances[id].log == OwnWrites(block, id)
  {
    var begun := Next(s, Begin(id));
    InvNext(s, Begin(id));
    assert begun.history == s.history && begun.instances[id] == Writing(s.Latest(), []);
    LockExcludesCommits(begun, block, id, inside);
    assert [] + OwnWrites(block, id) == OwnWrites(block, id);
  }

  lemma CommitAppends(s: Store, id: Id)
    requires Inv(s) && IsWriting(s, id)
    ensures Enabled(s, Commit(id))
    ensures Next(s, Commit(id)).history == s.history + [PerformAll(s.history[s.Latest()], s.instances[id].log)]
  {
  }
}
