/**
 The custody and leave theorems, stated over whole runs.
 */
module CustodyRuns {
  import opened Wrappers
  import opened ConditionalStore
  import opened Custody
  import opened CustodySafety

  /** The state after a sequence of events, if each of them can happen. */
  ghost function Run(cas: bool, s: State, events: seq<Event>): (t: Option<State>)
    decreases |events|
  {
    if events == [] then Some(s) else
    var before := Run(cas, s, events[..|events| - 1]);
    if before.None? then None else Next(cas, before.value, events[|events| - 1])
  }

  /** A store at rest: nothing running, no leave pending, an identity (if any) whose key was created
      and is not marked, and a provider that still holds every unmarked key. */
  ghost predicate AtRest(s: State)
  {
    && s.procs == map[] && LeaveIntent !in s.store
    && s.asked == {} && s.finished == {} && s.retired == {}
    && IdentityOk(s) && ProviderOk(s)
  }

  ghost predicate Reachable(cas: bool, s: State, t: State)
  {
    exists events :: Run(cas, s, events) == Some(t)
  }

  /** A start from which custody can be promised: the store refuses stale revisions, or already
      holds a local identity. */
  ghost predicate Guarded(cas: bool, s: State)
  {
    AtRest(s) && (cas || LocalIdentity in s.store)
  }

  ghost predicate Referenced(s: State, handle: Handle)
  {
    LocalIdentity in s.store && s.store[LocalIdentity].Identity? && s.store[LocalIdentity].handle == handle
  }

  /** No referenced handle has a deletion intent or a tombstone, none was ever given to the provider
      for deletion, and the provider holds the referenced key. */
  ghost predicate Custodial(s: State)
  {
    forall h :: Referenced(s, h) ==> !Marked(s.store, h) && h !in s.asked && h in s.held
  }

  lemma {:induction false} RunKeeps(cas: bool, s: State, events: seq<Event>)
    requires Inv(cas, s) && Run(cas, s, events).Some?
    ensures Inv(cas, Run(cas, s, events).value) && Evolves(s, Run(cas, s, events).value)
    decreases |events|
  {
    hide Inv, Evolves, Next;
    if events == [] {
      EvolvesReflexive(s);
    } else {
      var front := events[..|events| - 1];
      RunKeeps(cas, s, front);
      var t := Run(cas, s, front).value;
      StepKeeps(cas, t, events[|events| - 1]);
      EvolvesTransitive(s, t, Run(cas, s, events).value);
    }
  }

  lemma ReachableInv(cas: bool, s: State, t: State)
    requires Guarded(cas, s) && Reachable(cas, s, t)
    ensures Inv(cas, t)
  {
    var events :| Run(cas, s, events) == Some(t);
    assert Inv(cas, s);
    RunKeeps(cas, s, events);
  }

  lemma LaterInv(cas: bool, t: State, u: State)
    requires Inv(cas, t) && Reachable(cas, t, u)
    ensures Inv(cas, u) && Evolves(t, u)
  {
    var events :| Run(cas, t, events) == Some(u);
    RunKeeps(cas, t, events);
  }

  /** In every reachable state the referenced key is unmarked, unasked and held. */
  lemma CustodyHolds(cas: bool, s: State, t: State)
    requires Guarded(cas, s) && Reachable(cas, s, t)
    ensures Custodial(t)
  {
    ReachableInv(cas, s, t);
  }

  /** A handle once marked for deletion stays marked and is never referenced again; the provider is
      asked to delete only such handles. */
  lemma MarkedNeverReferencedAgain(cas: bool, s: State, t: State, u: State, handle: Handle)
    requires Guarded(cas, s) && Reachable(cas, s, t) && Reachable(cas, t, u)
    requires Marked(t.store, handle) || handle in t.asked
    ensures Marked(u.store, handle) && !Referenced(u, handle)
  {
    ReachableInv(cas, s, t);
    LaterInv(cas, t, u);
  }

  /** At the very moment the provider is asked, the handle is unreferenced. */
  lemma ProviderAskedOnlyUnreferenced(cas: bool, s: State, t: State, e: Event)
    requires Guarded(cas, s) && Reachable(cas, s, t)
    requires e.ProviderStep? && e.ask && Next(cas, t, e).Some?
    ensures !Referenced(t, t.procs[e.pid].handle)
  {
    ReachableInv(cas, s, t);
    assert ProcOk(cas, t, t.procs[e.pid]);
  }

  /** While a leave is pending, the identity is exactly the former or exactly the replacement, and
      the provider holds its key. */
  lemma PendingLeaveIdentity(cas: bool, s: State, t: State, leave: Leave)
    requires Guarded(cas, s) && Reachable(cas, s, t) && Current(t, leave)
    ensures HasNode(t, leave.formerNode) != HasNode(t, leave.replacementNode)
    ensures HasNode(t, leave.formerNode) ==> t.store[LocalIdentity].handle == leave.formerHandle
    ensures LocalIdentity in t.store && t.store[LocalIdentity].handle in t.held
  {
    ReachableInv(cas, s, t);
  }

  /** Once the replacement is in place it is never undone: no later state holds the former node. */
  lemma LeaveNeverGoesBack(cas: bool, s: State, t: State, u: State, leave: Leave)
    requires Guarded(cas, s) && Reachable(cas, s, t) && Reachable(cas, t, u)
    requires Known(t, leave) && !HasNode(t, leave.formerNode)
    ensures !HasNode(u, leave.formerNode)
  {
    ReachableInv(cas, s, t);
    LaterInv(cas, t, u);
    assert leave.formerNode in t.retired;
  }

  /** The intent can only disappear by completing the leave. */
  lemma IntentGoneMeansDone(cas: bool, s: State, t: State, e: Event, leave: Leave)
    requires Guarded(cas, s) && Reachable(cas, s, t) && Current(t, leave)
    requires Next(cas, t, e).Some? && !Current(Next(cas, t, e).value, leave)
    ensures LeaveDone(Next(cas, t, e).value, leave)
  {
    ReachableInv(cas, s, t);
    StepKeeps(cas, t, e);
    var u := Next(cas, t, e).value;
    assert leave in u.finished && leave !in t.finished;
    var p := t.procs[e.pid];
    assert e.Commit? && e.applied && p.CompleteCommit? && p.leave == leave;
    CompleteApplied(cas, t, p);
  }

  /** And a finished leave stays finished, with its former key buried for good. */
  lemma FinishedLeaveStays(cas: bool, s: State, t: State, u: State, leave: Leave)
    requires Guarded(cas, s) && Reachable(cas, s, t) && Reachable(cas, t, u) && leave in t.finished
    ensures Tombstone(leave.formerHandle) in u.store && !HasNode(u, leave.formerNode) && !Current(u, leave)
  {
    ReachableInv(cas, s, t);
    LaterInv(cas, t, u);
  }

  // ---- The guard is needed ----

  lemma {:induction false} FreshNumber(used: set<nat>) returns (n: nat)
    ensures forall m :: m in used ==> m < n
    decreases used
  {
    if used == {} {
      n := 0;
    } else {
      var x :| x in used;
      var k := FreshNumber(used - {x});
      n := if x < k then k else x + 1;
      assert forall m :: m in used ==> m == x || m in used - {x};
    }
  }

  lemma RunOneMore(cas: bool, s: State, events: seq<Event>, e: Event)
    requires Run(cas, s, events).Some?
    ensures Run(cas, s, events + [e]) == Next(cas, Run(cas, s, events).value, e)
  {
    assert (events + [e])[..|events|] == events;
  }

  /** The store once a creation intent is committed and its key created, with the finalization and a
      deletion of the new handle at the given points. */
  ghost function Racing(s: State, o: OperationId, h: Handle, procs: map<Pid, Proc>): State
  {
    s.(store := s.store[CreationIntent(o) := Creation(o, 0)], revision := s.revision + 1, procs := procs,
       created := s.created[o := h], held := s.held + {h})
  }

  ghost predicate Unused(s: State, o: OperationId, h: Handle)
  {
    o !in s.created && CreationIntent(o) !in s.store && h !in s.created.Values && !Marked(s.store, h)
  }

  lemma RaceOpens(s: State, o: OperationId, h: Handle)
    requires s.procs == map[] && LocalIdentity !in s.store && Unused(s, o, h)
    ensures var e0 := Start(0, CreateCommit(0, o, s.revision));
            var s1 := s.(procs := map[0 := CreateCommit(0, o, s.revision)]);
            var s2 := Next(false, s1, Commit(0, true, Committed));
            && Next(false, s, e0) == Some(s1) && s2.Some?
            && Next(false, s2.value, Create(0, h, true)) == Some(Racing(s, o, h, map[0 := FinalizeRead(0, o, h)]))
  {
    var s1 := s.(procs := map[0 := CreateCommit(0, o, s.revision)]);
    SingleEffectHolds(s1.store, CreateOps(0, o)[0]);
    CommittedNext(false, s1, 0);
    hide Apply, AfterRead, AfterAborted;
    var s2 := Next(false, s1, Commit(0, true, Committed)).value;
    assert s2.procs == map[0 := CreateKey(0, o)];
    assert Next(false, s2, Create(0, h, true)).value.procs == map[0 := FinalizeRead(0, o, h)];
  }

  lemma RaceReads(s: State, o: OperationId, h: Handle)
    requires s.procs == map[] && LocalIdentity !in s.store && Unused(s, o, h)
    ensures var s3 := Racing(s, o, h, map[0 := FinalizeRead(0, o, h)]);
            var s4 := Racing(s, o, h, map[0 := FinalizeRead(0, o, h), 1 := DeleteRead(h, Standalone)]);
            var install := InstallCommit(h, 0, None, s.revision + 1, Standalone);
            var s5 := Racing(s, o, h, map[0 := FinalizeRead(0, o, h), 1 := install]);
            var s6 := Racing(s, o, h, map[0 := FinalizeCommit(0, o, h, s.revision + 1), 1 := install]);
            && Next(false, s3, Start(1, DeleteRead(h, Standalone))) == Some(s4)
            && Next(false, s4, Read(1, 0)) == Some(s5)
            && Next(false, s5, Read(0, 0)) == Some(s6)
  {
    var s4 := Racing(s, o, h, map[0 := FinalizeRead(0, o, h), 1 := DeleteRead(h, Standalone)]);
    assert !Marked(s4.store, h);
    var a, b := FinalizeRead(0, o, h), DeleteRead(h, Standalone);
    var c := InstallCommit(h, 0, None, s.revision + 1, Standalone);
    assert map[0 := a][1 := b] == map[0 := a, 1 := b];
    assert map[0 := a, 1 := b][1 := c] == map[0 := a, 1 := c];
    var d := FinalizeCommit(0, o, h, s.revision + 1);
    assert map[0 := a, 1 := c][0 := d] == map[0 := d, 1 := c];
  }

  lemma RaceFinalizes(s: State, o: OperationId, h: Handle)
    requires s.procs == map[] && LocalIdentity !in s.store && Unused(s, o, h)
    ensures var install := InstallCommit(h, 0, None, s.revision + 1, Standalone);
            var s6 := Racing(s, o, h, map[0 := FinalizeCommit(0, o, h, s.revision + 1), 1 := install]);
            var s7 := Next(false, s6, Commit(0, true, Committed));
            && s7.Some? && s7.value.procs == map[1 := install]
            && Referenced(s7.value, h) && !Marked(s7.value.store, h)
  {
    var install := InstallCommit(h, 0, None, s.revision + 1, Standalone);
    var finalize := FinalizeCommit(0, o, h, s.revision + 1);
    var s6 := Racing(s, o, h, map[0 := finalize, 1 := install]);
    assert !Marked(s6.store, h);
    assert Admits(s6.store, FinalizeOps(0, o, h));
    FinalizeEffect(s6.store, 0, o, h);
    assert map[0 := finalize, 1 := install] - {0} == map[1 := install];
  }

  lemma CommittedNext(cas: bool, s: State, pid: Pid)
    requires pid in s.procs && MayApply(cas, s, s.procs[pid])
    ensures var p := s.procs[pid];
            Next(cas, s, Commit(pid, true, Committed)) == Some(Continue(Applied(s, p), pid, AfterCommitted(p)))
  {
    assert PreparedOf(s.procs[pid]).Some?;
    hide MayApply, AfterRead, AfterAborted, AfterCommitted, Applied;
  }

  lemma RaceInstalls(s: State, h: Handle, base: nat)
    requires s.procs == map[1 := InstallCommit(h, 0, None, base, Standalone)]
    requires Referenced(s, h) && !Marked(s.store, h)
    ensures var t := Next(false, s, Commit(1, true, Committed));
            t.Some? && !Custodial(t.value)
  {
    hide Custodial, Next;
    var p := s.procs[1];
    MarkingApplies(s, p, h);
    CommittedNext(false, s, 1);
    var t := Continue(Applied(s, p), 1, AfterCommitted(p));
    hide Applied, MayApply;
    assert Referenced(t, h) && Marked(t.store, h);
    ReferencedMark(t, h);
  }

  lemma MarkingApplies(s: State, p: Proc, h: Handle)
    requires p.InstallCommit? && p.pinned.None? && p.handle == h && DeletionIntent(h) !in s.store
    ensures MayApply(false, s, p)
    ensures Applied(s, p).store == s.store[DeletionIntent(h) := Deletion(p.operation, h)]
  {
    var put := Put(DeletionIntent(h), Absent, Deletion(p.operation, h));
    assert InstallOps(h, p.operation, None) == [put];
    SingleEffectHolds(s.store, put);
  }

  lemma ReferencedMark(s: State, h: Handle)
    requires Referenced(s, h) && Marked(s.store, h)
    ensures !Custodial(s)
  {
  }

  /** Without a local identity and without revision checks, a deletion that read the store before a
      finalization can install its intent after it: the new identity's own key gets marked. */
  lemma UnguardedCustodyBreaks(s: State) returns (events: seq<Event>)
    requires AtRest(s) && LocalIdentity !in s.store
    ensures Run(false, s, events).Some? && !Custodial(Run(false, s, events).value)
  {
    var intents := set key | key in s.store && key.CreationIntent? :: key.operation;
    var marks := set key | key in s.store && (key.DeletionIntent? || key.Tombstone?) :: key.handle;
    assert forall key :: key in s.store && key.CreationIntent? ==> key.operation in intents;
    assert forall key :: key in s.store && (key.DeletionIntent? || key.Tombstone?) ==> key.handle in marks;
    var o := FreshNumber(s.created.Keys + intents);
    var h := FreshNumber(s.created.Values + marks);
    assert CreationIntent(o).operation !in intents;
    assert DeletionIntent(h).handle !in marks && Tombstone(h).handle !in marks;
    RaceOpens(s, o, h);
    RaceReads(s, o, h);
    RaceFinalizes(s, o, h);
    var install := InstallCommit(h, 0, None, s.revision + 1, Standalone);
    var s6 := Racing(s, o, h, map[0 := FinalizeCommit(0, o, h, s.revision + 1), 1 := install]);
    RaceInstalls(Next(false, s6, Commit(0, true, Committed)).value, h, s.revision + 1);
    hide Next, Unused, Racing, Custodial;
    events := Extend(s, [], Start(0, CreateCommit(0, o, s.revision)));
    events := Extend(s, events, Commit(0, true, Committed));
    events := Extend(s, events, Create(0, h, true));
    events := Extend(s, events, Start(1, DeleteRead(h, Standalone)));
    events := Extend(s, events, Read(1, 0));
    events := Extend(s, events, Read(0, 0));
    events := Extend(s, events, Commit(0, true, Committed));
    events := Extend(s, events, Commit(1, true, Committed));
  }

  lemma SingleEffectHolds(store: Entries, operation: Operation<Key, Record>)
    requires ConditionMatches(store, operation)
    ensures Admits(store, [operation]) && Apply(store, [operation]) == ApplyOne(store, operation)
  {
    ApplyOneOperation(store, operation);
  }

  lemma Extend(s: State, events: seq<Event>, e: Event) returns (more: seq<Event>)
    requires Run(false, s, events).Some?
    ensures Run(false, s, more) == Next(false, Run(false, s, events).value, e)
  {
    more := events + [e];
    RunOneMore(false, s, events, e);
  }

  /** Custody holds over every run from a store at rest exactly when the store refuses stale
      revisions or already holds a local identity. */
  lemma CustodyExactly(cas: bool, s: State)
    requires AtRest(s)
    ensures (cas || LocalIdentity in s.store) <==> (forall t :: Reachable(cas, s, t) ==> Custodial(t))
  {
    if cas || LocalIdentity in s.store {
      forall t | Reachable(cas, s, t) ensures Custodial(t) {
        CustodyHolds(cas, s, t);
      }
    } else {
      var events := UnguardedCustodyBreaks(s);
      assert Reachable(false, s, Run(false, s, events).value);
    }
  }
}
